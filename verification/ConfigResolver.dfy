/** Resolution of a probe's binder transaction filters from the config proto. */
module ConfigResolver {
  import opened Common
  import opened BinderKeys

  // ----- the proto -----

  datatype AtomProto = AtomProto(atomId: Option<int>, positions: seq<int>)

  /** `event` is the optional event_service_config with its optional `flush`. */
  datatype MethodProto = MethodProto(methodId: Option<int>, event: Option<Option<bool>>, atom: Option<AtomProto>)

  datatype FilterProto = FilterProto(interfaceName: Option<Name>, methods: seq<MethodProto>)

  // ----- the resolved form -----

  datatype AtomFieldPosition = UNKNOWN | CALLING_UID | INTERFACE_NAME | CODE | KTIME_NS

  datatype EventMode = Flush | Buffer

  datatype AtomConfig = AtomConfig(atomId: nat, positions: seq<AtomFieldPosition>)

  datatype MethodConfig = MethodConfig(event: Option<EventMode>, atom: Option<AtomConfig>)

  type InterfaceConfig = map<nat, MethodConfig>

  type Filters = map<Name, InterfaceConfig>

  const BINDER_BPF_PROGRAM_NAME := "prog_Binder_uprobe_exec_transact_internal"

  // ----- what is accepted, and what it means -----

  predicate ValidMethod(m: MethodProto) {
    && m.methodId.Some? && m.methodId.value > 0
    && (m.event.Some? || m.atom.Some?)
    && (m.atom.Some? ==> m.atom.value.atomId.Some? && m.atom.value.atomId.value > 0)
  }

  ghost predicate ValidFilter(f: FilterProto) {
    && f.interfaceName.Some? && f.interfaceName.value != []
    && f.methods != []
    && (forall i :: 0 <= i < |f.methods| ==> ValidMethod(f.methods[i]))
    && (forall i, j :: 0 <= i < j < |f.methods| ==> f.methods[i].methodId != f.methods[j].methodId)
  }

  ghost predicate ValidFilters(fs: seq<FilterProto>) {
    && (forall i :: 0 <= i < |fs| ==> ValidFilter(fs[i]))
    && (forall i, j :: 0 <= i < j < |fs| ==> fs[i].interfaceName != fs[j].interfaceName)
  }

  /** The position that the proto numbers `wire`; all other numbers are unknown. */
  predicate IsPosition(position: AtomFieldPosition, wire: int) {
    match position
    case CALLING_UID => wire == 1
    case INTERFACE_NAME => wire == 2
    case CODE => wire == 3
    case KTIME_NS => wire == 4
    case UNKNOWN => wire < 1 || 4 < wire
  }

  /** What a resolved method keeps of the listed one, field by field. */
  ghost predicate Resolves(m: MethodProto, config: MethodConfig) {
    && (config.event == Some(Flush) <==> m.event == Some(Some(true)))
    && (config.event == Some(Buffer) <==> m.event.Some? && m.event.value != Some(true))
    && (config.atom.Some? <==> m.atom.Some?)
    && (config.atom.Some? ==>
          && m.atom.value.atomId == Some(config.atom.value.atomId)
          && |config.atom.value.positions| == |m.atom.value.positions|
          && forall i :: 0 <= i < |m.atom.value.positions| ==>
               IsPosition(config.atom.value.positions[i], m.atom.value.positions[i]))
  }

  function EnumValueOrDefault(wire: int): AtomFieldPosition {
    match wire
    case 1 => CALLING_UID
    case 2 => INTERFACE_NAME
    case 3 => CODE
    case 4 => KTIME_NS
    case _ => UNKNOWN
  }

  function AtomOf(a: AtomProto): AtomConfig
    requires a.atomId.Some? && a.atomId.value > 0
  {
    AtomConfig(a.atomId.value, seq(|a.positions|, i requires 0 <= i < |a.positions| => EnumValueOrDefault(a.positions[i])))
  }

  function MethodOf(m: MethodProto): (config: MethodConfig)
    requires ValidMethod(m)
    ensures config.event.Some? || config.atom.Some?
  {
    MethodConfig(
      match m.event
      case None => None
      case Some(flush) => Some(if flush == Some(true) then Flush else Buffer),
      match m.atom
      case None => None
      case Some(a) => Some(AtomOf(a)))
  }

  lemma {:induction false} MethodOfResolves(m: MethodProto)
    requires ValidMethod(m)
    ensures Resolves(m, MethodOf(m))
  {
  }

  ghost predicate HoldsMethod(config: InterfaceConfig, m: MethodProto) {
    ValidMethod(m) && m.methodId.value in config && config[m.methodId.value] == MethodOf(m)
  }

  /** `config` holds the configs of `methods` under their ids, and nothing else. */
  ghost predicate HoldsMethods(config: InterfaceConfig, methods: seq<MethodProto>) {
    && (forall i :: 0 <= i < |methods| ==> HoldsMethod(config, methods[i]))
    && (forall id :: id in config ==> exists i :: 0 <= i < |methods| && methods[i].methodId == Some(id))
  }

  ghost predicate HoldsFilter(filters: Filters, f: FilterProto) {
    && f.interfaceName.Some? && f.interfaceName.value in filters
    && HoldsMethods(filters[f.interfaceName.value], f.methods)
  }

  /** `filters` maps each listed name to exactly its listed methods, and holds no other name. */
  ghost predicate HoldsFilters(filters: Filters, fs: seq<FilterProto>) {
    && (forall i :: 0 <= i < |fs| ==> HoldsFilter(filters, fs[i]))
    && (forall name :: name in filters ==> exists i :: 0 <= i < |fs| && fs[i].interfaceName == Some(name))
  }

  // ----- the resolver -----

  method ResolveAtom(a: AtomProto) returns (r: Result<AtomConfig>)
    ensures r.Ok? <==> a.atomId.Some? && a.atomId.value > 0
    ensures r.Ok? ==> r.value == AtomOf(a)
    ensures r.Ok? ==> a.atomId == Some(r.value.atomId) && |r.value.positions| == |a.positions|
    ensures r.Ok? ==> forall i :: 0 <= i < |a.positions| ==> IsPosition(r.value.positions[i], a.positions[i])
  {
    if a.atomId.None? || a.atomId.value <= 0 {
      return Err;
    }
    var positions: seq<AtomFieldPosition> := [];
    for i := 0 to |a.positions|
      invariant |positions| == i
      invariant forall k :: 0 <= k < i ==> positions[k] == EnumValueOrDefault(a.positions[k])
    {
      positions := positions + [EnumValueOrDefault(a.positions[i])];
    }
    assert positions == AtomOf(a).positions;
    r := Ok(AtomConfig(a.atomId.value, positions));
  }

  method ResolveMethod(m: MethodProto) returns (r: Result<(nat, MethodConfig)>)
    ensures r.Ok? <==> ValidMethod(m)
    ensures r.Ok? ==> r.value == (m.methodId.value, MethodOf(m)) && Resolves(m, r.value.1)
  {
    if m.methodId.None? || m.methodId.value <= 0 {
      return Err;
    }
    if m.event.None? && m.atom.None? {
      return Err;
    }
    var event := None;
    if m.event.Some? {
      event := Some(if m.event.value == Some(true) then Flush else Buffer);
    }
    var atom := None;
    if m.atom.Some? {
      var a := ResolveAtom(m.atom.value);
      if a.Err? {
        return Err;
      }
      atom := Some(a.value);
    }
    r := Ok((m.methodId.value, MethodConfig(event, atom)));
    MethodOfResolves(m);
  }

  method ResolveInterface(f: FilterProto) returns (r: Result<(Name, InterfaceConfig)>)
    ensures r.Ok? <==> ValidFilter(f)
    ensures r.Ok? ==> r.value.0 == f.interfaceName.value && HoldsMethods(r.value.1, f.methods)
  {
    if f.interfaceName.None? || f.interfaceName.value == [] || f.methods == [] {
      return Err;
    }
    var config: InterfaceConfig := map[];
    var i := 0;
    while i < |f.methods|
      invariant 0 <= i <= |f.methods|
      invariant HoldsMethods(config, f.methods[..i])
      invariant forall j, k :: 0 <= j < k < i ==> f.methods[j].methodId != f.methods[k].methodId
    {
      var m := ResolveMethod(f.methods[i]);
      if m.Err? {
        return Err;
      }
      var (id, methodConfig) := m.value;
      if id in config {
        // a duplicate id: `insert_method` has overwritten the earlier entry and fails
        ghost var j :| 0 <= j < i && f.methods[..i][j].methodId == Some(id);
        assert f.methods[j].methodId == f.methods[i].methodId;
        return Err;
      }
      ExtendMethods(config, f.methods, i);
      config := config[id := methodConfig];
      i := i + 1;
    }
    assert f.methods[..i] == f.methods;
    r := Ok((f.interfaceName.value, config));
  }

  lemma {:induction false} ExtendMethods(config: InterfaceConfig, methods: seq<MethodProto>, i: nat)
    requires i < |methods| && HoldsMethods(config, methods[..i]) && ValidMethod(methods[i])
    requires methods[i].methodId.value !in config
    ensures HoldsMethods(config[methods[i].methodId.value := MethodOf(methods[i])], methods[..i + 1])
    ensures forall j :: 0 <= j < i ==> methods[j].methodId != methods[i].methodId
  {
    var id := methods[i].methodId.value;
    var config' := config[id := MethodOf(methods[i])];
    var done := methods[..i + 1];
    forall j | 0 <= j < i
      ensures methods[j].methodId != methods[i].methodId && HoldsMethod(config', methods[j])
    {
      assert methods[..i][j] == methods[j];
      assert HoldsMethod(config, methods[j]);
    }
    forall k | k in config'
      ensures exists j :: 0 <= j < i + 1 && done[j].methodId == Some(k)
    {
      if k == id {
        assert done[i].methodId == Some(k);
      } else {
        var j :| 0 <= j < i && methods[..i][j].methodId == Some(k);
        assert done[j] == methods[..i][j];
      }
    }
  }

  lemma {:induction false} ExtendFilters(filters: Filters, fs: seq<FilterProto>, i: nat, config: InterfaceConfig)
    requires i < |fs| && HoldsFilters(filters, fs[..i]) && ValidFilter(fs[i])
    requires HoldsMethods(config, fs[i].methods)
    requires fs[i].interfaceName.value !in filters
    ensures HoldsFilters(filters[fs[i].interfaceName.value := config], fs[..i + 1])
    ensures forall j :: 0 <= j < i ==> fs[j].interfaceName != fs[i].interfaceName
  {
    var name := fs[i].interfaceName.value;
    var filters' := filters[name := config];
    var done := fs[..i + 1];
    forall j | 0 <= j < i
      ensures fs[j].interfaceName != fs[i].interfaceName && HoldsFilter(filters', fs[j])
    {
      assert fs[..i][j] == fs[j];
      assert HoldsFilter(filters, fs[j]);
    }
    forall n | n in filters'
      ensures exists j :: 0 <= j < i + 1 && done[j].interfaceName == Some(n)
    {
      if n == name {
        assert done[i].interfaceName == Some(n);
      } else {
        var j :| 0 <= j < i && fs[..i][j].interfaceName == Some(n);
        assert done[j] == fs[..i][j];
      }
    }
  }

  /**
  Resolution succeeds exactly on the valid filter lists of the binder program and on empty lists of
  any other, and keeps every listed method under its own name and id.
  */
  method ResolveBinderTransactionFilters(fs: seq<FilterProto>, bpfName: string) returns (r: Result<Filters>)
    ensures bpfName == BINDER_BPF_PROGRAM_NAME ==> (r.Ok? <==> fs != [] && ValidFilters(fs))
    ensures bpfName != BINDER_BPF_PROGRAM_NAME ==> (r.Ok? <==> fs == [])
    ensures r.Ok? ==> HoldsFilters(r.value, fs)
  {
    if bpfName != BINDER_BPF_PROGRAM_NAME {
      return if fs == [] then Ok(map[]) else Err;
    }
    if fs == [] {
      return Err;
    }
    var filters: Filters := map[];
    var i := 0;
    while i < |fs|
      invariant 0 <= i <= |fs|
      invariant HoldsFilters(filters, fs[..i]) && ValidFilters(fs[..i])
    {
      var f := ResolveInterface(fs[i]);
      if f.Err? {
        return Err;
      }
      var (name, config) := f.value;
      if name in filters {
        DuplicateName(filters, fs, i);
        return Err;
      }
      ExtendFilters(filters, fs, i, config);
      ValidOneMore(fs, i);
      filters := filters[name := config];
      i := i + 1;
    }
    assert fs[..i] == fs;
    r := Ok(filters);
  }

  lemma {:induction false} DuplicateName(filters: Filters, fs: seq<FilterProto>, i: nat)
    requires i < |fs| && HoldsFilters(filters, fs[..i])
    requires fs[i].interfaceName.Some? && fs[i].interfaceName.value in filters
    ensures !ValidFilters(fs)
  {
    var j :| 0 <= j < i && fs[..i][j].interfaceName == fs[i].interfaceName;
    assert fs[j].interfaceName == fs[i].interfaceName;
  }

  lemma {:induction false} ValidOneMore(fs: seq<FilterProto>, i: nat)
    requires i < |fs| && ValidFilters(fs[..i]) && ValidFilter(fs[i])
    requires forall j :: 0 <= j < i ==> fs[j].interfaceName != fs[i].interfaceName
    ensures ValidFilters(fs[..i + 1])
  {
    assert forall j :: 0 <= j < i ==> fs[..i][j] == fs[..i + 1][j];
  }
}
