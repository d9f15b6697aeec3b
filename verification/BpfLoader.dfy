/**
Linking of a BPF object: one file descriptor slot per map name, and every 64-bit immediate load (RFC
9669, section 5.4) that names a map patched to carry that map's descriptor. Kernel calls are answers
given with the input.
*/
module BpfLoader {
  import opened Common
  import opened ElfSymbols
  import opened Sorting

  const MAP_DEF_SIZE: nat := 120
  const PROG_DEF_SIZE: nat := 92

  const BPF_MAP_TYPE_HASH: nat := 1
  const BPF_MAP_TYPE_DEVMAP: nat := 14
  const BPF_MAP_TYPE_DEVMAP_HASH: nat := 25
  const BPF_MAP_TYPE_RINGBUF: nat := 27
  const BPF_F_RDONLY_PROG: bv32 := 128
  const KVER_5_4_0: nat := 0x50400

  /** No descriptor: the slot of a skipped map. */
  const NO_FD: int := -1

  datatype MapDef = MapDef(
    mapType: nat,
    keySize: nat,
    valueSize: nat,
    maxEntries: nat,
    mapFlags: bv32,
    zero: nat,
    minKver: nat,
    maxKver: nat)

  datatype Attributes = Attributes(mapType: nat, keySize: nat, valueSize: nat, maxEntries: nat, mapFlags: bv32)

  /** Opening or creating a map: `settled` says that pinning, chmod and chown of a new map succeed. */
  datatype Answer = OpenFailed | Opened(fd: nat, attributes: Attributes, reused: bool, settled: bool)

  datatype Creation = Created(fds: seq<int>) | Failed | Aborted

  predicate Skipped(def: MapDef, kvers: nat) {
    kvers < def.minKver || kvers >= def.maxKver
  }

  /** The attributes that a map made from this definition must have. */
  function Expected(def: MapDef, kvers: nat, pageSize: nat): Attributes {
    var mapType := if def.mapType == BPF_MAP_TYPE_DEVMAP_HASH && kvers < KVER_5_4_0 then BPF_MAP_TYPE_HASH else def.mapType;
    var flags := if mapType == BPF_MAP_TYPE_DEVMAP || mapType == BPF_MAP_TYPE_DEVMAP_HASH
                 then def.mapFlags | BPF_F_RDONLY_PROG else def.mapFlags;
    var entries := if mapType == BPF_MAP_TYPE_RINGBUF && def.maxEntries < pageSize then pageSize else def.maxEntries;
    Attributes(mapType, def.keySize, def.valueSize, entries, flags)
  }

  predicate IsDevmap(mapType: nat) {
    mapType == BPF_MAP_TYPE_DEVMAP || mapType == BPF_MAP_TYPE_DEVMAP_HASH
  }

  /**
  A created map has the sizes of its definition and at least its entries. The type differs only for a
  device hash on a kernel without one, and the entries only for a ring smaller than a page.
  */
  lemma {:induction false} ExpectedKeeps(def: MapDef, kvers: nat, pageSize: nat)
    ensures var e := Expected(def, kvers, pageSize);
      && e.keySize == def.keySize && e.valueSize == def.valueSize
      && (e.mapType != def.mapType <==> def.mapType == BPF_MAP_TYPE_DEVMAP_HASH && kvers < KVER_5_4_0)
      && (e.mapType != def.mapType ==> e.mapType == BPF_MAP_TYPE_HASH)
      && (e.maxEntries != def.maxEntries <==> e.mapType == BPF_MAP_TYPE_RINGBUF && def.maxEntries < pageSize)
      && (e.maxEntries != def.maxEntries ==> e.maxEntries == pageSize > def.maxEntries)
  {
  }

  /** It has all flags of its definition. */
  lemma {:induction false} ExpectedHasFlags(def: MapDef, kvers: nat, pageSize: nat)
    ensures Expected(def, kvers, pageSize).mapFlags & def.mapFlags == def.mapFlags
  {
    HasFlags(def.mapFlags, BPF_F_RDONLY_PROG);
    HasFlags(def.mapFlags, def.mapFlags);
    assert def.mapFlags | def.mapFlags == def.mapFlags;
  }

  /** And the read-only one if it is a device map, but no further one. */
  lemma {:induction false} ExpectedAddsReadOnly(def: MapDef, kvers: nat, pageSize: nat)
    ensures var e := Expected(def, kvers, pageSize);
      if IsDevmap(e.mapType) then e.mapFlags & BPF_F_RDONLY_PROG == BPF_F_RDONLY_PROG else e.mapFlags == def.mapFlags
  {
    HasFlags(BPF_F_RDONLY_PROG, def.mapFlags);
    EitherOrder(def.mapFlags, BPF_F_RDONLY_PROG);
  }

  lemma {:induction false} ExpectedAddsNoOther(def: MapDef, kvers: nat, pageSize: nat, flag: bv32)
    requires flag & BPF_F_RDONLY_PROG == 0
    ensures Expected(def, kvers, pageSize).mapFlags & flag == def.mapFlags & flag
  {
    OtherFlag(def.mapFlags, BPF_F_RDONLY_PROG, flag);
  }

  lemma {:induction false} EitherOrder(x: bv32, y: bv32)
    ensures x | y == y | x
  {
  }

  lemma {:induction false} OtherFlag(x: bv32, y: bv32, flag: bv32)
    requires flag & y == 0
    ensures (x | y) & flag == x & flag
  {
  }

  lemma {:induction false} HasFlags(x: bv32, y: bv32)
    ensures (x | y) & x == x
  {
  }

  predicate Usable(def: MapDef, kvers: nat, pageSize: nat, answer: Answer) {
    answer.Opened? && answer.attributes == Expected(def, kvers, pageSize) && (answer.reused || answer.settled)
  }

  /** The descriptor for a definition: none when the kernel version rules it out, else one onto a map of its own attributes. */
  ghost predicate IsFdFor(fd: int, def: MapDef, kvers: nat, pageSize: nat, answer: Answer) {
    if Skipped(def, kvers) then fd == NO_FD else Usable(def, kvers, pageSize, answer) && fd == answer.fd
  }

  /** One slot for each of the first `n` definitions, skipped ones included. */
  ghost predicate AreFdsFor(fds: seq<int>, n: nat, defs: seq<MapDef>, kvers: nat, pageSize: nat, answers: seq<Answer>) {
    && n <= |defs| && |answers| == n && |fds| == n
    && (forall i :: 0 <= i < n ==> IsFdFor(fds[i], defs[i], kvers, pageSize, answers[i]))
  }

  /** `createMaps`, whose loop reads one definition for each name: callers must have at least as many definitions. */
  method CreateMaps(names: seq<string>, defs: seq<MapDef>, kvers: nat, pageSize: nat, answers: seq<Answer>)
      returns (r: Creation)
    requires |names| <= |defs| && |answers| == |names|
    ensures r.Created? <==> forall i :: 0 <= i < |names| ==>
      defs[i].zero == 0 && (Skipped(defs[i], kvers) || Usable(defs[i], kvers, pageSize, answers[i]))
    ensures r.Created? ==> AreFdsFor(r.fds, |names|, defs, kvers, pageSize, answers)
  {
    var fds: seq<int> := [];
    var i := 0;
    while i < |names|
      invariant 0 <= i <= |names| && |fds| == i
      invariant forall k :: 0 <= k < i ==>
        defs[k].zero == 0 && (Skipped(defs[k], kvers) || Usable(defs[k], kvers, pageSize, answers[k]))
      invariant forall k :: 0 <= k < i ==> IsFdFor(fds[k], defs[k], kvers, pageSize, answers[k])
    {
      if defs[i].zero != 0 {
        return Aborted;
      }
      if kvers < defs[i].minKver || kvers >= defs[i].maxKver {
        fds := fds + [NO_FD];
      } else {
        var answer := answers[i];
        if answer.OpenFailed? {
          return Failed;
        }
        if answer.attributes != Expected(defs[i], kvers, pageSize) {
          return Failed;
        }
        if !answer.reused && !answer.settled {
          return Failed;
        }
        fds := fds + [answer.fd];
      }
      i := i + 1;
    }
    r := Created(fds);
  }

  // ----- relocation -----

  const BPF_INSN_SIZE: nat := 8
  const BPF_LD_IMM_DW: nat := 0x18
  const BPF_PSEUDO_MAP_FD: nat := 1

  datatype Insn = Insn(code: nat, dstReg: nat, srcReg: nat, off: int, imm: int)

  datatype Rel = Rel(offset: nat, symIndex: nat)

  /** A code section's instructions, patched in place, and its relocations. */
  datatype CodeSection = CodeSection(insns: array<Insn>, rels: seq<Rel>)

  function Patch(insn: Insn, fd: int): Insn {
    if insn.code == BPF_LD_IMM_DW then insn.(imm := fd, srcReg := BPF_PSEUDO_MAP_FD) else insn
  }

  method ApplyRelo(insns: array<Insn>, offset: nat, fd: int)
    requires offset / BPF_INSN_SIZE < insns.Length
    modifies insns
    ensures insns[..] == old(insns[..])[offset / BPF_INSN_SIZE := Patch(old(insns[offset / BPF_INSN_SIZE]), fd)]
  {
    var index := offset / BPF_INSN_SIZE;
    if insns[index].code != BPF_LD_IMM_DW {
      return;
    }
    insns[index] := insns[index].(imm := fd);
    insns[index] := insns[index].(srcReg := BPF_PSEUDO_MAP_FD);
  }

  function GetSymNameByIdx(elf: Elf, index: nat): Result<string> {
    if index >= |elf.symtab| then Err else GetSymName(elf, elf.symtab[index].nameOffset)
  }

  /** A name is read by index exactly when the unsorted table has that symbol, and it is its own. */
  lemma {:induction false} GetSymNameByIdxIff(elf: Elf, index: nat, name: string)
    ensures GetSymNameByIdx(elf, index) == Ok(name) <==>
      && index < |elf.symtab| && elf.symtab[index].nameOffset < |elf.strtab|
      && IsStringAt(elf.strtab, elf.symtab[index].nameOffset, name)
  {
    if index < |elf.symtab| {
      GetSymNameIff(elf, elf.symtab[index].nameOffset, name);
    }
  }

  /** The slot of the first map with this name. */
  function IndexOf(names: seq<string>, name: string): (r: Option<nat>)
    ensures r.Some? ==> r.value < |names| && names[r.value] == name && name !in names[..r.value]
    ensures r.None? ==> name !in names
  {
    if names == [] then None
    else if names[0] == name then Some(0)
    else match IndexOf(names[1..], name)
      case Some(j) =>
        assert names[..j + 1] == [names[0]] + names[1..][..j];
        Some(j + 1)
      case None => None
  }

  /** The descriptor a relocation asks for, if its symbol names a map. */
  function TargetFd(elf: Elf, names: seq<string>, fds: seq<int>, rel: Rel): Option<int>
    requires |fds| == |names|
  {
    match GetSymNameByIdx(elf, rel.symIndex)
    case Err => None
    case Ok(name) => match IndexOf(names, name) case Some(j) => Some(fds[j]) case None => None
  }

  /** Instruction `x` after the first `k` relocations: patched by the last one that is for it and names a map, else as it was. */
  function Linked(elf: Elf, names: seq<string>, fds: seq<int>, rels: seq<Rel>, k: nat, x: nat, insn: Insn): Insn
    requires |fds| == |names| && k <= |rels|
  {
    if k == 0 then insn
    else
      var fd := TargetFd(elf, names, fds, rels[k - 1]);
      if rels[k - 1].offset / BPF_INSN_SIZE == x && fd.Some? then Patch(insn, fd.value)
      else Linked(elf, names, fds, rels, k - 1, x, insn)
  }

  lemma {:induction false} PatchLast(elf: Elf, names: seq<string>, fds: seq<int>, rels: seq<Rel>, k: nat, x: nat, insn: Insn, fd: int)
    requires |fds| == |names| && k <= |rels|
    ensures Patch(Linked(elf, names, fds, rels, k, x, insn), fd) == Patch(insn, fd)
  {
    if k > 0 {
      PatchLast(elf, names, fds, rels, k - 1, x, insn, fd);
    }
  }

  /** The relocations before the first one whose symbol has no name; the loader stops there. */
  function ResolvedRels(elf: Elf, rels: seq<Rel>): (n: nat)
    ensures n <= |rels|
    ensures forall i :: 0 <= i < n ==> GetSymNameByIdx(elf, rels[i].symIndex).Ok?
    ensures n < |rels| ==> GetSymNameByIdx(elf, rels[n].symIndex).Err?
  {
    if rels == [] || GetSymNameByIdx(elf, rels[0].symIndex).Err? then 0
    else 1 + ResolvedRels(elf, rels[1..])
  }

  lemma {:induction false} ResolvedRelsIs(elf: Elf, rels: seq<Rel>, n: nat)
    requires n <= |rels| && forall i :: 0 <= i < n ==> GetSymNameByIdx(elf, rels[i].symIndex).Ok?
    requires n < |rels| ==> GetSymNameByIdx(elf, rels[n].symIndex).Err?
    ensures ResolvedRels(elf, rels) == n
  {
    if n > 0 {
      ResolvedRelsIs(elf, rels[1..], n - 1);
    }
  }

  /** A section's code after linking. */
  ghost predicate IsLinked(elf: Elf, names: seq<string>, fds: seq<int>, rels: seq<Rel>, k: nat, before: seq<Insn>, after: seq<Insn>)
    requires |fds| == |names| && k <= |rels|
  {
    |after| == |before| && forall x :: 0 <= x < |before| ==> after[x] == Linked(elf, names, fds, rels, k, x, before[x])
  }

  method RelocateSection(elf: Elf, names: seq<string>, fds: seq<int>, insns: array<Insn>, rels: seq<Rel>) returns (ok: bool)
    requires |fds| == |names|
    requires forall i :: 0 <= i < |rels| ==> rels[i].offset / BPF_INSN_SIZE < insns.Length
    modifies insns
    ensures ok <==> ResolvedRels(elf, rels) == |rels|
    ensures IsRelocated(elf, names, fds, rels, old(insns[..]), insns[..])
  {
    var i := 0;
    while i < |rels|
      invariant 0 <= i <= |rels|
      invariant forall k :: 0 <= k < i ==> GetSymNameByIdx(elf, rels[k].symIndex).Ok?
      invariant IsLinked(elf, names, fds, rels, i, old(insns[..]), insns[..])
    {
      var symName := GetSymNameByIdx(elf, rels[i].symIndex);
      if symName.Err? {
        ResolvedRelsIs(elf, rels, i);
        return false;
      }
      ghost var current := insns[..];
      var slot := IndexOf(names, symName.value);
      if slot.Some? {
        ApplyRelo(insns, rels[i].offset, fds[slot.value]);
      }
      LinkOne(elf, names, fds, rels, i, old(insns[..]), current, insns[..]);
      i := i + 1;
    }
    ResolvedRelsIs(elf, rels, i);
    ok := true;
  }

  lemma {:induction false} LinkOne(elf: Elf, names: seq<string>, fds: seq<int>, rels: seq<Rel>, i: nat, before: seq<Insn>, current: seq<Insn>, after: seq<Insn>)
    requires |fds| == |names| && i < |rels| && rels[i].offset / BPF_INSN_SIZE < |current|
    requires IsLinked(elf, names, fds, rels, i, before, current)
    requires var fd := TargetFd(elf, names, fds, rels[i]);
      var x := rels[i].offset / BPF_INSN_SIZE;
      after == if fd.Some? then current[x := Patch(current[x], fd.value)] else current
    ensures IsLinked(elf, names, fds, rels, i + 1, before, after)
  {
    var fd := TargetFd(elf, names, fds, rels[i]);
    forall x | 0 <= x < |before|
      ensures after[x] == Linked(elf, names, fds, rels, i + 1, x, before[x])
    {
      if fd.Some? {
        PatchLast(elf, names, fds, rels, i, x, before[x], fd.value);
      }
    }
  }

  ghost predicate Disjoint(cs: seq<CodeSection>) {
    forall i, j :: 0 <= i < j < |cs| ==> cs[i].insns != cs[j].insns
  }

  ghost predicate InBounds(c: CodeSection) {
    forall i :: 0 <= i < |c.rels| ==> c.rels[i].offset / BPF_INSN_SIZE < c.insns.Length
  }

  /** A section's code as the loader leaves it, if it gets to the section at all. */
  ghost predicate IsRelocated(elf: Elf, names: seq<string>, fds: seq<int>, rels: seq<Rel>, before: seq<Insn>, after: seq<Insn>)
    requires |fds| == |names|
  {
    IsLinked(elf, names, fds, rels, ResolvedRels(elf, rels), before, after)
  }

  /** `applyMapRelo`: sections in order, stopping for good at the first relocation whose symbol has no name. */
  method ApplyMapRelo(elf: Elf, names: seq<string>, fds: seq<int>, cs: seq<CodeSection>) returns (done: nat)
    requires |fds| == |names| && Disjoint(cs) && forall k :: 0 <= k < |cs| ==> InBounds(cs[k])
    modifies set k | 0 <= k < |cs| :: cs[k].insns
    ensures done <= |cs|
    ensures forall k :: 0 <= k < done ==> ResolvedRels(elf, cs[k].rels) == |cs[k].rels|
    ensures done < |cs| ==> ResolvedRels(elf, cs[done].rels) < |cs[done].rels|
    ensures forall k :: 0 <= k < |cs| && k <= done ==>
      IsRelocated(elf, names, fds, cs[k].rels, old(cs[k].insns[..]), cs[k].insns[..])
    ensures forall k :: done < k < |cs| ==> cs[k].insns[..] == old(cs[k].insns[..])
  {
    done := 0;
    while done < |cs|
      invariant 0 <= done <= |cs|
      invariant forall k :: 0 <= k < done ==> ResolvedRels(elf, cs[k].rels) == |cs[k].rels|
      invariant forall k :: 0 <= k < done ==>
        IsRelocated(elf, names, fds, cs[k].rels, old(cs[k].insns[..]), cs[k].insns[..])
      invariant forall k :: done <= k < |cs| ==> cs[k].insns[..] == old(cs[k].insns[..])
    {
      label before:
      assert InBounds(cs[done]);
      var ok := RelocateSection(elf, names, fds, cs[done].insns, cs[done].rels);
      assert forall k :: 0 <= k < |cs| && k != done ==> cs[k].insns[..] == old@before(cs[k].insns[..]);
      if !ok {
        return;
      }
      done := done + 1;
    }
  }

  // ----- linking, end to end -----

  /** The maps section: laid out, every symbol with a name of its own. */
  ghost predicate MapsSection(elf: Elf, section: nat, n: nat) {
    && LaidOut(elf.symtab, section, MAP_DEF_SIZE, n)
    && (forall i, j :: 0 <= i < j < |elf.symtab| && elf.symtab[i].section == elf.symtab[j].section == section ==>
          NameOf(elf, elf.symtab[i]) != NameOf(elf, elf.symtab[j]))
  }

  lemma {:induction false} IndexOfOnly(names: seq<string>, j: nat)
    requires j < |names| && forall k :: 0 <= k < |names| && k != j ==> names[k] != names[j]
    ensures IndexOf(names, names[j]) == Some(j)
  {
    if j > 0 {
      assert names[0] != names[j];
      assert names[1..][j - 1] == names[j];
      IndexOfOnly(names[1..], j - 1);
    }
  }

  /** Slot by name and slot by address agree, for any symbol order, for a symbol whose name no other in the section has. */
  lemma {:induction false} NameFindsSlot(elf: Elf, section: nat, size: nat, n: nat, syms: seq<Sym>, sym: Sym)
    requires LaidOut(elf.symtab, section, size, n) && InAddressOrder(elf, section, None, syms)
    requires sym in elf.symtab && sym.section == section
    requires forall i :: 0 <= i < |elf.symtab| && elf.symtab[i].section == section && elf.symtab[i] != sym ==>
      NameOf(elf, elf.symtab[i]) != NameOf(elf, sym)
    ensures Slot(sym, size) < n == |syms| && syms[Slot(sym, size)] == sym
    ensures IndexOf(NamesOf(elf, syms), NameOf(elf, sym)) == Some(Slot(sym, size))
  {
    IndexAlignment(elf, section, size, n, syms);
    SymbolAtSlot(elf, section, size, n, syms, sym);
    var names, j := NamesOf(elf, syms), Slot(sym, size);
    forall k | 0 <= k < |names| && k != j
      ensures names[k] != names[j]
    {
      assert syms[k] in elf.symtab && Slot(syms[k], size) == k;
    }
    IndexOfOnly(names, j);
  }

  /** The relocation asks for the map of symbol `m`: the maps section has it, and it has the name that the relocation's symbol has. */
  ghost predicate AsksFor(elf: Elf, section: nat, rel: Rel, m: int) {
    && 0 <= m < |elf.symtab| && elf.symtab[m].section == section
    && GetSymNameByIdx(elf, rel.symIndex) == Ok(NameOf(elf, elf.symtab[m]))
  }

  ghost predicate AsksForMap(elf: Elf, section: nat, rel: Rel) {
    exists m :: AsksFor(elf, section, rel, m)
  }

  /** A relocation against a map's own symbol asks for that map. */
  lemma {:induction false} OwnSymbolAsks(elf: Elf, section: nat, syms: seq<Sym>, rel: Rel)
    requires InAddressOrder(elf, section, None, syms) && AllNamed(elf, syms)
    requires rel.symIndex < |elf.symtab| && elf.symtab[rel.symIndex].section == section
    ensures AsksFor(elf, section, rel, rel.symIndex)
  {
    SectionMembers(elf, section, syms);
    var sym := elf.symtab[rel.symIndex];
    assert sym in multiset(elf.symtab);
    assert sym in multiset(syms);
  }

  lemma {:induction false} TargetOfMap(elf: Elf, section: nat, n: nat, syms: seq<Sym>, fds: seq<int>, rel: Rel, m: nat)
    requires MapsSection(elf, section, n) && InAddressOrder(elf, section, None, syms)
    requires |fds| == |syms| && AsksFor(elf, section, rel, m)
    ensures Slot(elf.symtab[m], MAP_DEF_SIZE) < |fds|
    ensures TargetFd(elf, NamesOf(elf, syms), fds, rel) == Some(fds[Slot(elf.symtab[m], MAP_DEF_SIZE)])
  {
    var sym := elf.symtab[m];
    forall i | 0 <= i < |elf.symtab| && elf.symtab[i].section == section && elf.symtab[i] != sym
      ensures NameOf(elf, elf.symtab[i]) != NameOf(elf, sym)
    {
      assert i < m || m < i;
    }
    NameFindsSlot(elf, section, MAP_DEF_SIZE, n, syms, sym);
  }

  lemma {:induction false} TargetOfNoMap(elf: Elf, section: nat, n: nat, syms: seq<Sym>, fds: seq<int>, rel: Rel)
    requires MapsSection(elf, section, n) && InAddressOrder(elf, section, None, syms)
    requires |fds| == |syms| && !AsksForMap(elf, section, rel)
    ensures TargetFd(elf, NamesOf(elf, syms), fds, rel) == None
  {
    IndexAlignment(elf, section, MAP_DEF_SIZE, n, syms);
    forall j | 0 <= j < |syms|
      ensures GetSymNameByIdx(elf, rel.symIndex) != Ok(NamesOf(elf, syms)[j])
    {
      assert syms[j] in elf.symtab;
      var m :| 0 <= m < |elf.symtab| && elf.symtab[m] == syms[j];
      assert !AsksFor(elf, section, rel, m);
    }
  }

  lemma {:induction false} LinkedBy(elf: Elf, names: seq<string>, fds: seq<int>, rels: seq<Rel>, k: nat, r: nat, x: nat, insn: Insn)
    requires |fds| == |names| && r < k <= |rels| && rels[r].offset / BPF_INSN_SIZE == x
    requires TargetFd(elf, names, fds, rels[r]).Some?
    requires forall q :: r < q < k && rels[q].offset / BPF_INSN_SIZE == x ==> TargetFd(elf, names, fds, rels[q]).None?
    ensures Linked(elf, names, fds, rels, k, x, insn) == Patch(insn, TargetFd(elf, names, fds, rels[r]).value)
  {
    if r < k - 1 {
      LinkedBy(elf, names, fds, rels, k - 1, r, x, insn);
    }
  }

  lemma {:induction false} LinkedByNone(elf: Elf, names: seq<string>, fds: seq<int>, rels: seq<Rel>, k: nat, x: nat, insn: Insn)
    requires |fds| == |names| && k <= |rels|
    requires forall q :: 0 <= q < k && rels[q].offset / BPF_INSN_SIZE == x ==> TargetFd(elf, names, fds, rels[q]).None?
    ensures Linked(elf, names, fds, rels, k, x, insn) == insn
  {
    if k > 0 {
      LinkedByNone(elf, names, fds, rels, k - 1, x, insn);
    }
  }

  /** Relocation `r` is the last one for instruction `x` that asks for a map. */
  ghost predicate IsLastFor(elf: Elf, section: nat, rels: seq<Rel>, r: int, x: nat) {
    && 0 <= r < |rels| && rels[r].offset / BPF_INSN_SIZE == x && AsksForMap(elf, section, rels[r])
    && (forall q :: r < q < |rels| && rels[q].offset / BPF_INSN_SIZE == x ==> !AsksForMap(elf, section, rels[q]))
  }

  ghost predicate NoneFor(elf: Elf, section: nat, rels: seq<Rel>, x: nat) {
    forall q :: 0 <= q < |rels| && rels[q].offset / BPF_INSN_SIZE == x ==> !AsksForMap(elf, section, rels[q])
  }

  /** The last of the first `n` relocations that is for instruction `x` and asks for a map, or -1. */
  lemma {:induction false} LastBefore(elf: Elf, section: nat, rels: seq<Rel>, n: nat, x: nat) returns (r: int)
    requires n <= |rels|
    ensures -1 <= r < n
    ensures r >= 0 ==> rels[r].offset / BPF_INSN_SIZE == x && AsksForMap(elf, section, rels[r])
    ensures forall q :: r < q < n && rels[q].offset / BPF_INSN_SIZE == x ==> !AsksForMap(elf, section, rels[q])
  {
    if n == 0 {
      r := -1;
    } else if rels[n - 1].offset / BPF_INSN_SIZE == x && AsksForMap(elf, section, rels[n - 1]) {
      r := n - 1;
    } else {
      r := LastBefore(elf, section, rels, n - 1, x);
    }
  }

  /** The load has become one from the map that definition `j` describes, and is otherwise the same. */
  ghost predicate LoadsMap(before: Insn, after: Insn, j: nat, defs: seq<MapDef>, kvers: nat, pageSize: nat, answers: seq<Answer>) {
    && j < |defs| && j < |answers|
    && after == before.(imm := after.imm, srcReg := BPF_PSEUDO_MAP_FD)
    && IsFdFor(after.imm, defs[j], kvers, pageSize, answers[j])
  }

  /**
  A correctly linked instruction, in all cases. A 64-bit immediate load with relocations that ask for
  maps loads the map that the last of them asks for, as that map's own definition describes it; any
  other instruction is unchanged.
  */
  ghost predicate CorrectInsn(elf: Elf, section: nat, defs: seq<MapDef>, kvers: nat, pageSize: nat, answers: seq<Answer>,
                              rels: seq<Rel>, x: nat, before: Insn, after: Insn) {
    if before.code != BPF_LD_IMM_DW || NoneFor(elf, section, rels, x) then after == before
    else exists r, m ::
      && IsLastFor(elf, section, rels, r, x) && AsksFor(elf, section, rels[r], m)
      && LoadsMap(before, after, Slot(elf.symtab[m], MAP_DEF_SIZE), defs, kvers, pageSize, answers)
  }

  lemma {:induction false} LoadLinked(elf: Elf, section: nat, defs: seq<MapDef>, kvers: nat, pageSize: nat, answers: seq<Answer>,
                                      syms: seq<Sym>, fds: seq<int>, rels: seq<Rel>, x: nat, before: Insn, r: nat, m: nat)
    requires MapsSection(elf, section, |defs|) && InAddressOrder(elf, section, None, syms)
    requires AreFdsFor(fds, |syms|, defs, kvers, pageSize, answers) && before.code == BPF_LD_IMM_DW
    requires IsLastFor(elf, section, rels, r, x) && AsksFor(elf, section, rels[r], m)
    ensures LoadsMap(before, Linked(elf, NamesOf(elf, syms), fds, rels, |rels|, x, before),
                     Slot(elf.symtab[m], MAP_DEF_SIZE), defs, kvers, pageSize, answers)
  {
    TargetOfMap(elf, section, |defs|, syms, fds, rels[r], m);
    forall q | r < q < |rels| && rels[q].offset / BPF_INSN_SIZE == x
      ensures TargetFd(elf, NamesOf(elf, syms), fds, rels[q]).None?
    {
      TargetOfNoMap(elf, section, |defs|, syms, fds, rels[q]);
    }
    LinkedBy(elf, NamesOf(elf, syms), fds, rels, |rels|, r, x, before);
  }

  /** Linking is correct end to end, for any symbol order: descriptors paired by index and found by name are the right ones. */
  lemma {:induction false} LinkingCorrect(elf: Elf, section: nat, defs: seq<MapDef>, kvers: nat, pageSize: nat, answers: seq<Answer>,
                                          syms: seq<Sym>, fds: seq<int>, rels: seq<Rel>, before: seq<Insn>, after: seq<Insn>, x: nat)
    requires MapsSection(elf, section, |defs|) && InAddressOrder(elf, section, None, syms)
    requires AreFdsFor(fds, |syms|, defs, kvers, pageSize, answers)
    requires IsLinked(elf, NamesOf(elf, syms), fds, rels, |rels|, before, after) && x < |before|
    ensures CorrectInsn(elf, section, defs, kvers, pageSize, answers, rels, x, before[x], after[x])
  {
    var names := NamesOf(elf, syms);
    if before[x].code != BPF_LD_IMM_DW {
      NonLoadUnchanged(elf, names, fds, rels, |rels|, x, before[x]);
    } else if NoneFor(elf, section, rels, x) {
      forall q | 0 <= q < |rels| && rels[q].offset / BPF_INSN_SIZE == x
        ensures TargetFd(elf, names, fds, rels[q]).None?
      {
        TargetOfNoMap(elf, section, |defs|, syms, fds, rels[q]);
      }
      LinkedByNone(elf, names, fds, rels, |rels|, x, before[x]);
    } else {
      var r := LastBefore(elf, section, rels, |rels|, x);
      var m :| AsksFor(elf, section, rels[r], m);
      LoadLinked(elf, section, defs, kvers, pageSize, answers, syms, fds, rels, x, before[x], r, m);
    }
  }

  ghost predicate CorrectCode(elf: Elf, section: nat, defs: seq<MapDef>, kvers: nat, pageSize: nat, answers: seq<Answer>,
                              rels: seq<Rel>, before: seq<Insn>, after: seq<Insn>) {
    && |after| == |before|
    && (forall x :: 0 <= x < |before| ==>
          CorrectInsn(elf, section, defs, kvers, pageSize, answers, rels, x, before[x], after[x]))
  }

  /** The relocations that the loader applies: those before the first whose symbol has no name. */
  function Reached(elf: Elf, rels: seq<Rel>): seq<Rel> {
    rels[..ResolvedRels(elf, rels)]
  }

  /** Later relocations do not matter to what the first `k` do. */
  lemma {:induction false} LinkedPrefix(elf: Elf, names: seq<string>, fds: seq<int>, rels: seq<Rel>, n: nat, k: nat, x: nat, insn: Insn)
    requires |fds| == |names| && k <= n <= |rels|
    ensures Linked(elf, names, fds, rels[..n], k, x, insn) == Linked(elf, names, fds, rels, k, x, insn)
  {
    if k > 0 {
      LinkedPrefix(elf, names, fds, rels, n, k - 1, x, insn);
    }
  }

  lemma {:induction false} CodeLinkedCorrectly(elf: Elf, section: nat, defs: seq<MapDef>, kvers: nat, pageSize: nat, answers: seq<Answer>,
                                               syms: seq<Sym>, fds: seq<int>, rels: seq<Rel>, before: seq<Insn>, after: seq<Insn>)
    requires MapsSection(elf, section, |defs|) && InAddressOrder(elf, section, None, syms)
    requires AreFdsFor(fds, |syms|, defs, kvers, pageSize, answers)
    requires IsRelocated(elf, NamesOf(elf, syms), fds, rels, before, after)
    ensures CorrectCode(elf, section, defs, kvers, pageSize, answers, Reached(elf, rels), before, after)
  {
    var reached, n := Reached(elf, rels), ResolvedRels(elf, rels);
    forall x | 0 <= x < |before|
      ensures CorrectInsn(elf, section, defs, kvers, pageSize, answers, reached, x, before[x], after[x])
    {
      forall y | 0 <= y < |before|
        ensures after[y] == Linked(elf, NamesOf(elf, syms), fds, reached, n, y, before[y])
      {
        LinkedPrefix(elf, NamesOf(elf, syms), fds, rels, n, n, y, before[y]);
      }
      LinkingCorrect(elf, section, defs, kvers, pageSize, answers, syms, fds, reached, before, after, x);
    }
  }

  /**
  The map half of `loadProg`: names are read and sorted once to create the maps and once more to link.
  If it gets to linking, every section up to and including `done` is linked correctly as far as its
  relocations have named symbols, `done` being the first section where one has not; nothing else
  changes. It gets there when maps are created and names are readable.
  */
  method LinkProgram(elf: Elf, ghost section: nat, defs: seq<MapDef>, kvers: nat, pageSize: nat, answers: seq<Answer>,
                     cs: seq<CodeSection>) returns (created: Creation, linking: bool, done: nat)
    requires MapsSection(elf, section, |defs|) && IsSection(elf, "maps", section) && |answers| == |defs|
    requires Disjoint(cs) && forall k :: 0 <= k < |cs| ==> InBounds(cs[k])
    modifies set k | 0 <= k < |cs| :: cs[k].insns
    ensures done <= |cs|
    ensures linking ==> created.Created?
    ensures created.Created? && WellNamed(elf) ==> linking
    ensures linking ==> forall k :: 0 <= k < done ==> Reached(elf, cs[k].rels) == cs[k].rels
    ensures linking && done < |cs| ==> Reached(elf, cs[done].rels) != cs[done].rels
    ensures linking ==> forall k :: 0 <= k < |cs| && k <= done ==>
      CorrectCode(elf, section, defs, kvers, pageSize, answers, Reached(elf, cs[k].rels), old(cs[k].insns[..]), cs[k].insns[..])
    ensures forall k :: 0 <= k < |cs| && (!linking || k > done) ==> cs[k].insns[..] == old(cs[k].insns[..])
  {
    done, linking := 0, false;
    var names, s1, syms := GetSectionSymNames(elf, "maps", None);
    if names.Err? {
      created := Failed;
      return;
    }
    OneSection(elf, "maps", section, s1);
    IndexAlignment(elf, section, MAP_DEF_SIZE, |defs|, syms);
    created := CreateMaps(names.value, defs, kvers, pageSize, answers);
    if !created.Created? {
      return;
    }
    var again, s2, syms' := GetSectionSymNames(elf, "maps", None);
    if again.Err? {
      return;
    }
    OneSection(elf, "maps", section, s2);
    IndexAlignment(elf, section, MAP_DEF_SIZE, |defs|, syms');
    linking := true;
    done := ApplyMapRelo(elf, again.value, created.fds, cs);
    forall k | 0 <= k < |cs| && k <= done
      ensures CorrectCode(elf, section, defs, kvers, pageSize, answers, Reached(elf, cs[k].rels), old(cs[k].insns[..]), cs[k].insns[..])
    {
      CodeLinkedCorrectly(elf, section, defs, kvers, pageSize, answers, syms', created.fds, cs[k].rels,
                          old(cs[k].insns[..]), cs[k].insns[..]);
    }
  }

  lemma {:induction false} OneSection(elf: Elf, name: string, i: nat, j: nat)
    requires IsSection(elf, name, i) && IsSection(elf, name, j)
    ensures i == j
  {
  }

  lemma {:induction false} NonLoadUnchanged(elf: Elf, names: seq<string>, fds: seq<int>, rels: seq<Rel>, k: nat, x: nat, insn: Insn)
    requires |fds| == |names| && k <= |rels|
    ensures insn.code != BPF_LD_IMM_DW ==> Linked(elf, names, fds, rels, k, x, insn) == insn
  {
    if k > 0 {
      NonLoadUnchanged(elf, names, fds, rels, k - 1, x, insn);
    }
  }

  // ----- program definitions -----

  datatype ProgDef = ProgDef(uid: nat, gid: nat, minKver: nat, maxKver: nat, isOptional: bool)

  /** The pairing loop of `readCodeSections` for one code section. */
  method PairProgDef(progDefNames: seq<string>, defs: seq<ProgDef>, functionName: string) returns (def: Option<ProgDef>)
    requires |progDefNames| <= |defs|
    ensures def == match IndexOf(progDefNames, functionName + "_def") case Some(j) => Some(defs[j]) case None => None
  {
    var j := 0;
    while j < |progDefNames|
      invariant 0 <= j <= |progDefNames|
      invariant IndexOf(progDefNames, functionName + "_def") ==
        match IndexOf(progDefNames[j..], functionName + "_def") case Some(k) => Some(k + j) case None => None
    {
      if progDefNames[j] == functionName + "_def" {
        return Some(defs[j]);
      }
      assert progDefNames[j..][1..] == progDefNames[j + 1..];
      j := j + 1;
    }
    def := None;
  }

  /** A code section is paired with the definition named after its function: the one at that symbol's address. */
  lemma {:induction false} PairedByName(elf: Elf, section: nat, defs: seq<ProgDef>, syms: seq<Sym>, functionName: string, sym: Sym)
    requires LaidOut(elf.symtab, section, PROG_DEF_SIZE, |defs|) && InAddressOrder(elf, section, None, syms)
    requires sym in elf.symtab && sym.section == section && NameOf(elf, sym) == functionName + "_def"
    requires forall i :: 0 <= i < |elf.symtab| && elf.symtab[i].section == section && elf.symtab[i] != sym ==>
      NameOf(elf, elf.symtab[i]) != NameOf(elf, sym)
    ensures |NamesOf(elf, syms)| == |defs| && Slot(sym, PROG_DEF_SIZE) < |defs|
    ensures IndexOf(NamesOf(elf, syms), functionName + "_def") == Some(Slot(sym, PROG_DEF_SIZE))
  {
    NameFindsSlot(elf, section, PROG_DEF_SIZE, |defs|, syms, sym);
  }

  /** The function a code section is paired by is its lowest one. */
  lemma {:induction false} FirstFunctionIsLowest(elf: Elf, section: nat, syms: seq<Sym>, sym: Sym)
    requires InAddressOrder(elf, section, Some(STT_FUNC), syms)
    requires sym in elf.symtab && sym.section == section && sym.kind == STT_FUNC
    ensures syms != [] && syms[0].section == section && syms[0].kind == STT_FUNC && syms[0].value <= sym.value
  {
    var sorted :| IsSortOf(sorted, elf.symtab, ValueOf) && syms == Select(sorted, section, Some(STT_FUNC));
    SelectSorted(sorted, section, Some(STT_FUNC));
    SelectMembers(sorted, section, Some(STT_FUNC), sym);
    assert sym in multiset(elf.symtab);
    assert sym in multiset(syms);
    var i :| 0 <= i < |syms| && syms[i] == sym;
    assert syms[0] in multiset(syms);
    SelectMembers(sorted, section, Some(STT_FUNC), syms[0]);
    assert ValueOf(syms[0]) <= ValueOf(syms[i]);
  }

  /** `sym` is the definition symbol named after the lowest function `f` of a code section. */
  ghost predicate NamedAfter(elf: Elf, progs: nat, code: nat, f: Sym, sym: Sym) {
    && IsLowestFunction(elf, code, f)
    && sym in elf.symtab && sym.section == progs && NameOf(elf, sym) == NameOf(elf, f) + "_def"
  }

  ghost predicate IsLowestFunction(elf: Elf, code: nat, f: Sym) {
    && f in elf.symtab && f.section == code && f.kind == STT_FUNC
    && (forall g :: g in elf.symtab && g.section == code && g.kind == STT_FUNC ==> f.value <= g.value)
  }

  /** The first selected function is the lowest, and there is one unless the section has none. */
  lemma {:induction false} FirstIsLowest(elf: Elf, code: nat, syms: seq<Sym>)
    requires InAddressOrder(elf, code, Some(STT_FUNC), syms)
    ensures syms == [] ==> forall g :: g in elf.symtab && g.section == code ==> g.kind != STT_FUNC
    ensures syms != [] ==> IsLowestFunction(elf, code, syms[0])
  {
    var sorted :| IsSortOf(sorted, elf.symtab, ValueOf) && syms == Select(sorted, code, Some(STT_FUNC));
    if syms != [] {
      SelectMembers(sorted, code, Some(STT_FUNC), syms[0]);
      assert syms[0] in multiset(syms);
    }
    forall g | g in elf.symtab && g.section == code && g.kind == STT_FUNC
      ensures syms != [] && syms[0].value <= g.value
    {
      FirstFunctionIsLowest(elf, code, syms, g);
    }
  }

  /** The definition found for a function is the one at the address of the symbol named after it, if there is such a symbol. */
  lemma {:induction false} PairedAfter(elf: Elf, progs: nat, code: nat, defs: seq<ProgDef>, syms: seq<Sym>, f: Sym)
    requires LaidOut(elf.symtab, progs, PROG_DEF_SIZE, |defs|)
    requires InAddressOrder(elf, progs, None, syms) && IsLowestFunction(elf, code, f)
    ensures |syms| == |defs|
    ensures match IndexOf(NamesOf(elf, syms), NameOf(elf, f) + "_def")
      case Some(j) => j < |defs| && exists sym :: NamedAfter(elf, progs, code, f, sym) && Slot(sym, PROG_DEF_SIZE) == j
      case None => forall sym :: !NamedAfter(elf, progs, code, f, sym)
  {
    IndexAlignment(elf, progs, PROG_DEF_SIZE, |defs|, syms);
    var found := IndexOf(NamesOf(elf, syms), NameOf(elf, f) + "_def");
    if found.Some? {
      assert NamedAfter(elf, progs, code, f, syms[found.value]);
    } else {
      forall sym | sym in elf.symtab && sym.section == progs
        ensures NameOf(elf, sym) != NameOf(elf, f) + "_def"
      {
        SymbolAtSlot(elf, progs, PROG_DEF_SIZE, |defs|, syms, sym);
        assert NamesOf(elf, syms)[Slot(sym, PROG_DEF_SIZE)] in NamesOf(elf, syms);
      }
    }
  }

  /** `def` is laid out at a symbol named after `f`; None if there is no such symbol. */
  ghost predicate IsDefFor(elf: Elf, progs: nat, code: nat, defs: seq<ProgDef>, f: Sym, def: Option<ProgDef>) {
    match def
    case None => forall sym :: !NamedAfter(elf, progs, code, f, sym)
    case Some(d) =>
      exists sym :: NamedAfter(elf, progs, code, f, sym) &&
                    Slot(sym, PROG_DEF_SIZE) < |defs| && d == defs[Slot(sym, PROG_DEF_SIZE)]
  }

  datatype Pairing = Paired(def: Option<ProgDef>) | NoFunction | Unreadable

  /**
  The pairing part of `readCodeSections` for the code section of this name, from reading the names to
  the definition: the one laid out at the symbol named after the section's lowest function.
  */
  method PairCodeSection(elf: Elf, ghost progs: nat, ghost code: nat, defs: seq<ProgDef>, sectionName: string)
      returns (r: Pairing)
    requires LaidOut(elf.symtab, progs, PROG_DEF_SIZE, |defs|)
    requires IsSection(elf, "progs", progs) && IsSection(elf, sectionName, code)
    ensures WellNamed(elf) ==> !r.Unreadable?
    ensures r.NoFunction? ==> forall f :: !IsLowestFunction(elf, code, f)
    ensures r.Paired? ==> exists f :: IsLowestFunction(elf, code, f) && IsDefFor(elf, progs, code, defs, f, r.def)
  {
    var read, s1, defSyms := GetSectionSymNames(elf, "progs", None);
    if defs != [] && read.Err? {
      return Unreadable;
    }
    var progDefNames := if read.Ok? then read.value else [];
    if read.Ok? {
      OneSection(elf, "progs", progs, s1);
      IndexAlignment(elf, progs, PROG_DEF_SIZE, |defs|, defSyms);
    }
    var csSymNames, s2, functions := GetSectionSymNames(elf, sectionName, Some(STT_FUNC));
    if csSymNames.Err? {
      return Unreadable;
    }
    OneSection(elf, sectionName, code, s2);
    FirstIsLowest(elf, code, functions);
    if |csSymNames.value| == 0 {
      return NoFunction;
    }
    if read.Ok? {
      PairedAfter(elf, progs, code, defs, defSyms, functions[0]);
    }
    var def := PairProgDef(progDefNames, defs, csSymNames.value[0]);
    r := Paired(def);
    assert IsDefFor(elf, progs, code, defs, functions[0], def);
  }
}
