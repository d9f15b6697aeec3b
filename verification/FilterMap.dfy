/**
The kernel map of binder filters as the daemon fills and drains it. Map calls are nondeterministic
within their contracts: `reliable` says that no call fails for a reason of the kernel's own (a full
table, a lost handle), so an insert fails only on an existing key.
*/
module FilterMap {
  import opened Common
  import opened BinderKeys
  import opened ConfigResolver

  type Entries = map<Key, Codes>

  /** The binder transaction filters of each resolved probe, in order. */
  type Probes = seq<Filters>

  ghost predicate Configured(probes: Probes, p: int, name: Name) {
    0 <= p < |probes| && name in probes[p]
  }

  /** The codes written for an interface: its method ids in some hash order, cut at ten. */
  ghost predicate CodesFor(codes: Codes, config: InterfaceConfig) {
    exists ids :: Enumerates(ids, config.Keys) && codes == ToCValue(ids)
  }

  /** No two configured interfaces, in one probe or in two, share a kernel key. */
  ghost predicate KeysDistinct(probes: Probes) {
    forall p, n, q, m :: Configured(probes, p, n) && Configured(probes, q, m) && ToCKey(n) == ToCKey(m) ==>
      p == q && n == m
  }

  ghost predicate HoldsAll(entries: Entries, probes: Probes) {
    forall p, n :: Configured(probes, p, n) ==>
      ToCKey(n) in entries && CodesFor(entries[ToCKey(n)], probes[p][n])
  }

  ghost predicate IsConfiguredKey(probes: Probes, key: Key) {
    exists p, n :: Configured(probes, p, n) && ToCKey(n) == key
  }

  /** What a probe that configures an interface with this key writes under it. */
  ghost predicate WrittenFor(probes: Probes, key: Key, codes: Codes) {
    exists p, n :: Configured(probes, p, n) && ToCKey(n) == key && CodesFor(codes, probes[p][n])
  }

  /** Nothing but what was in `base` and what the probes configure. */
  ghost predicate HoldsOnly(entries: Entries, base: Entries, probes: Probes) {
    forall key :: key in entries ==> WrittenFor(probes, key, entries[key]) || (key in base && entries[key] == base[key])
  }

  ghost predicate Keeps(entries: Entries, base: Entries) {
    forall key :: key in base ==> key in entries && entries[key] == base[key]
  }

  /** Every filter has a key of its own, and none of them is taken in `base`. */
  ghost predicate Writable(base: Entries, probes: Probes) {
    KeysDistinct(probes) && forall p, n :: Configured(probes, p, n) ==> ToCKey(n) !in base
  }

  /** The disjoint union of `base` and all probes' encoded filters. */
  ghost predicate HoldsOver(entries: Entries, base: Entries, probes: Probes) {
    && HoldsAll(entries, probes) && HoldsOnly(entries, base, probes) && Keeps(entries, base)
    && Writable(base, probes)
  }

  /** The disjoint union of all probes' encoded filters. */
  ghost predicate HoldsExactly(entries: Entries, probes: Probes) {
    HoldsOver(entries, map[], probes)
  }

  ghost predicate AllCanonical(entries: Entries) {
    forall key :: key in entries ==> CanonicalKey(key)
  }

  /** `left` are some of the entries, among them all whose key does not survive decoding. */
  ghost predicate Remains(entries: Entries, left: Entries) {
    && (forall key :: key in left ==> key in entries && left[key] == entries[key])
    && StuckKept(entries, left)
  }

  ghost predicate StuckKept(before: Entries, after: Entries) {
    forall key :: key in before && !CanonicalKey(key) ==> key in after && after[key] == before[key]
  }

  /** Every configured name's key survives decoding; see RestorableKeysIff for the names this is true of. */
  ghost predicate RestorableKeys(probes: Probes) {
    forall p, n :: Configured(probes, p, n) ==> CanonicalKey(ToCKey(n))
  }

  predicate UsesFilters(probes: Probes) {
    exists p :: 0 <= p < |probes| && probes[p] != map[]
  }

  /** Names are Rust strings, hence UTF-8: their keys survive exactly when each name is restorable. */
  lemma {:induction false} RestorableKeysIff(probes: Probes)
    requires forall p, n :: Configured(probes, p, n) ==> ValidUtf8(n)
    ensures RestorableKeys(probes) <==> forall p, n :: Configured(probes, p, n) ==> Restorable(n)
  {
    forall p, n | Configured(probes, p, n)
      ensures CanonicalKey(ToCKey(n)) <==> Restorable(n)
    {
      RestorableIff(n);
    }
  }

  class BinderInterfaceMap {
    var entries: Entries

    constructor ()
      ensures entries == map[]
    {
      entries := map[];
    }

    /** `put` with UpdateMapElemFlags::Insert. */
    method Put(name: Name, ids: seq<nat>, reliable: bool) returns (ok: bool)
      modifies this
      ensures ok ==> ToCKey(name) !in old(entries) && entries == old(entries)[ToCKey(name) := ToCValue(ids)]
      ensures !ok ==> entries == old(entries)
      ensures reliable ==> (ok <==> ToCKey(name) !in old(entries))
    {
      var fault: bool := *;
      ok := ToCKey(name) !in entries && (reliable || !fault);
      if ok {
        entries := entries[ToCKey(name) := ToCValue(ids)];
      }
    }

    method GetFirstKey(reliable: bool) returns (r: Result<Option<Name>>)
      ensures r.Ok? && r.value.None? ==> entries == map[]
      ensures r.Ok? && r.value.Some? ==> exists key :: key in entries && r.value.value == FromCKey(key)
      ensures reliable ==> r.Ok?
    {
      var fault: bool := *;
      if !reliable && fault {
        return Err;
      }
      if entries == map[] {
        return Ok(None);
      }
      assert entries.Keys != {};
      var key :| key in entries.Keys;
      r := Ok(Some(FromCKey(key)));
    }

    method Delete(name: Name, reliable: bool) returns (r: Result<bool>)
      modifies this
      ensures r == Ok(true) ==> ToCKey(name) in old(entries) && entries == old(entries) - {ToCKey(name)}
      ensures r != Ok(true) ==> entries == old(entries)
      ensures reliable ==> r.Ok? && (r.value <==> ToCKey(name) in old(entries))
    {
      var fault: bool := *;
      if !reliable && fault {
        return Err;
      }
      r := Ok(ToCKey(name) in entries);
      entries := entries - {ToCKey(name)};
    }

    /**
    Deletes by decoded name until the map is empty. It terminates on every map, never removes a key
    that does not survive decoding, and, when map calls succeed, empties the map exactly when every
    key is canonical; `choices` are the keys that the kernel offered.
    */
    method Drain(reliable: bool) returns (ok: bool, ghost choices: seq<Key>)
      modifies this
      ensures ok ==> entries == map[]
      ensures Remains(old(entries), entries)
      ensures reliable ==> (ok <==> AllCanonical(old(entries)))
      ensures reliable ==> DrainRun(old(entries), choices, entries)
    {
      choices := [];
      while true
        invariant Deleted(old(entries), choices, entries)
        decreases |entries.Keys|
      {
        DeletedRemains(old(entries), choices, entries);
        var first := GetFirstKey(reliable);
        if first.Err? {
          return false, choices;
        }
        if first.value.None? {
          DeletedAll(old(entries), choices);
          return true, choices;
        }
        ghost var key :| key in entries && first.value.value == FromCKey(key);
        ghost var before := entries;
        var deleted := Delete(first.value.value, reliable);
        if deleted != Ok(true) {
          if reliable {
            assert !CanonicalKey(key);
            DeletedThenStuck(old(entries), choices, before, key);
          }
          return false, choices + [key];
        }
        DeletedOneMore(old(entries), choices, before, key);
        choices := choices + [key];
      }
    }

    /** Writes one probe's filters in some hash order, over `base` and the probes already `written`. */
    method WriteFilters(ghost base: Entries, ghost written: Probes, filters: Filters, reliable: bool) returns (ok: bool)
      requires HoldsOver(entries, base, written)
      modifies this
      ensures ok ==> HoldsOver(entries, base, written + [filters])
      ensures HoldsOnly(entries, base, written + [filters]) && Keeps(entries, base)
      ensures reliable ==> (ok <==> Writable(base, written + [filters]))
    {
      var rest := filters.Keys;
      ghost var part: Filters := map[];
      NothingWritten(entries, base, written);
      while rest != {}
        invariant rest <= filters.Keys
        invariant part == filters - rest
        invariant HoldsOver(entries, base, written + [part])
        decreases rest
      {
        var name :| name in rest;
        var ids := MethodIds(filters[name]);
        PartIsConfigured(entries, base, written, part, filters);
        ghost var before := entries;
        ok := Put(name, ids, reliable);
        if !ok {
          if ToCKey(name) in entries {
            Collision(entries, base, written, part, filters, name);
          }
          return false;
        }
        OneMoreHeld(before, written, part, name, filters[name], ids);
        OneMoreWritable(before, base, written, part, name, filters[name]);
        OneMoreOnly(before, base, written, part, name, filters[name], ids);
        rest := rest - {name};
        part := part[name := filters[name]];
        assert part == filters - rest;
      }
      assert part == filters;
      ok := true;
    }

    /**
    Step 3a, over whatever earlier tasks left behind. Success leaves exactly the disjoint union of
    that and all probes' filters, whatever the hash order; a failed write leaves the map empty when
    draining succeeds on everything in it. Keys that do not survive decoding stay in any case.
    */
    method SetUpFilters(probes: Probes, opens: bool, reliableWrites: bool, reliableDrain: bool)
        returns (ok: bool, isOpen: bool)
      modifies this
      ensures ok ==> HoldsOver(entries, old(entries), probes) && (isOpen <==> UsesFilters(probes))
      ensures isOpen ==> UsesFilters(probes)
      ensures !isOpen ==> entries == old(entries)
      ensures StuckKept(old(entries), entries)
      ensures !ok && isOpen && reliableDrain && AllCanonical(old(entries)) && RestorableKeys(probes) ==> entries == map[]
      ensures !ok && opens ==> isOpen
      ensures opens && reliableWrites ==> (ok <==> Writable(old(entries), probes))
      ensures HoldsOnly(entries, old(entries), probes)
    {
      ghost var base := entries;
      isOpen := false;
      var p := 0;
      while p < |probes|
        invariant 0 <= p <= |probes|
        invariant HoldsOver(entries, base, probes[..p])
        invariant !isOpen ==> entries == base && forall q :: 0 <= q < p ==> probes[q] == map[]
        invariant isOpen ==> UsesFilters(probes)
      {
        assert probes[..p + 1] == probes[..p] + [probes[p]];
        if probes[p] == map[] {
          NothingWritten(entries, base, probes[..p]);
        } else {
          if !isOpen {
            if !opens {
              return false, false;
            }
            isOpen := true;
          }
          var wrote := WriteFilters(base, probes[..p], probes[p], reliableWrites);
          PrefixWritable(base, probes, p + 1);
          if !wrote {
            ghost var partial := entries;
            var drained, choices := Drain(reliableDrain);
            DrainedPart(base, partial, entries, probes, p + 1);
            return false, true;
          }
        }
        p := p + 1;
      }
      assert probes[..p] == probes;
      ok := true;
    }

    /**
    Step 3: set up, attach and poll with any outcome, and drain. What survives decoding is gone
    again on every outcome, if drain calls work and no key blocks them; what does not is there for good.
    */
    method Execute(probes: Probes, opens: bool, reliableWrites: bool, reliableDrain: bool)
        returns (setUp: bool, pollSucceeded: bool, ghost filled: Entries)
      modifies this
      ensures opens && reliableWrites ==> (setUp <==> Writable(old(entries), probes))
      ensures setUp ==> HoldsOver(filled, old(entries), probes)
      ensures setUp && reliableDrain ==> DrainsTo(filled, entries) || (entries == old(entries) && !UsesFilters(probes))
      ensures reliableDrain && AllCanonical(old(entries)) && RestorableKeys(probes) ==>
        entries == map[] || (entries == old(entries) && !(opens && UsesFilters(probes)))
      ensures !UsesFilters(probes) ==> entries == old(entries)
      ensures opens && reliableWrites && reliableDrain && Writable(old(entries), probes) && UsesFilters(probes) ==>
        (entries == map[] <==> AllCanonical(old(entries)) && RestorableKeys(probes))
      ensures StuckKept(old(entries), entries)
      ensures setUp ==> StuckAdded(probes, entries)
      ensures HoldsOnly(entries, old(entries), probes)
    {
      pollSucceeded := false;
      ghost var base := entries;
      var isOpen;
      setUp, isOpen := SetUpFilters(probes, opens, reliableWrites, reliableDrain);
      filled := entries;
      if setUp {
        pollSucceeded := *;
        if isOpen {
          var drained, choices := Drain(reliableDrain);
          DrainedWhole(base, filled, entries, probes);
        } else {
          NoFilters(probes);
        }
      }
    }

    /**
    Tasks with filters one after another, from an empty map, when map calls work: each finds the map
    as the one before it left it. What follows from that is said of every history below.
    */
    method ExecuteAll(tasks: seq<Probes>) returns (ghost rounds: seq<Round>)
      requires entries == map[]
      modifies this
      ensures |rounds| == |tasks| && IsHistory(tasks, rounds) && entries == Before(rounds, |tasks|)
    {
      rounds := [];
      var i := 0;
      while i < |tasks|
        invariant 0 <= i <= |tasks| && |rounds| == i
        invariant IsHistory(tasks, rounds) && entries == Before(rounds, i)
      {
        ghost var found := entries;
        var setUp, pollSucceeded, filled := Execute(tasks[i], true, true, true);
        ghost var round := Round(setUp, found, filled, entries);
        ChainedOneMore(rounds, round);
        SetUpOneMore(tasks, rounds, round);
        CleanUpOneMore(tasks, rounds, round);
        LeaveStuckOneMore(tasks, rounds, round);
        AddOneMore(tasks, rounds, round);
        DrainOneMore(tasks, rounds, round);
        rounds := rounds + [round];
        i := i + 1;
      }
    }
  }

  // ----- drain runs -----

  /** A run of `Drain` when map calls work: the kernel's choices of a first key, and the map it leaves. */
  ghost predicate DrainRun(entries: Entries, choices: seq<Key>, left: Entries)
    decreases |choices|
  {
    if choices == [] then entries == map[] == left
    else
      var deleted := ToCKey(FromCKey(choices[0]));
      && choices[0] in entries
      && if deleted in entries then DrainRun(entries - {deleted}, choices[1..], left) else left == entries
  }

  /** The kernel's choices so far have each deleted an entry, and `left` are there still. */
  ghost predicate Deleted(entries: Entries, choices: seq<Key>, left: Entries)
    decreases |choices|
  {
    if choices == [] then left == entries
    else
      var deleted := ToCKey(FromCKey(choices[0]));
      choices[0] in entries && deleted in entries && Deleted(entries - {deleted}, choices[1..], left)
  }

  lemma {:induction false} DeletedOneMore(entries: Entries, choices: seq<Key>, left: Entries, key: Key)
    requires Deleted(entries, choices, left) && key in left && ToCKey(FromCKey(key)) in left
    ensures Deleted(entries, choices + [key], left - {ToCKey(FromCKey(key))})
    decreases |choices|
  {
    if choices == [] {
      assert choices + [key] == [key] && [key][1..] == [];
      assert Deleted(entries - {ToCKey(FromCKey(key))}, [], left - {ToCKey(FromCKey(key))});
    } else {
      assert (choices + [key])[1..] == choices[1..] + [key];
      DeletedOneMore(entries - {ToCKey(FromCKey(choices[0]))}, choices[1..], left, key);
    }
  }

  lemma {:induction false} RemainsLess(entries: Entries, key: Key, left: Entries)
    requires key in entries && CanonicalKey(key) && Remains(entries - {key}, left)
    ensures Remains(entries, left)
  {
  }

  /** What is deleted is a key that survives decoding. */
  lemma {:induction false} DeletedRemains(entries: Entries, choices: seq<Key>, left: Entries)
    requires Deleted(entries, choices, left)
    ensures Remains(entries, left)
    decreases |choices|
  {
    if choices != [] {
      var deleted := ToCKey(FromCKey(choices[0]));
      DeletedRemains(entries - {deleted}, choices[1..], left);
      DecodedIsCanonical(choices[0]);
      NameRoundTrip(FromCKey(choices[0]));
      RemainsLess(entries, deleted, left);
    }
  }

  lemma {:induction false} DeletedAll(entries: Entries, choices: seq<Key>)
    requires Deleted(entries, choices, map[])
    ensures DrainRun(entries, choices, map[])
    decreases |choices|
  {
    if choices != [] {
      DeletedAll(entries - {ToCKey(FromCKey(choices[0]))}, choices[1..]);
    }
  }

  lemma {:induction false} DeletedThenStuck(entries: Entries, choices: seq<Key>, left: Entries, key: Key)
    requires Deleted(entries, choices, left) && key in left && ToCKey(FromCKey(key)) !in left
    ensures DrainRun(entries, choices + [key], left)
    decreases |choices|
  {
    if choices == [] {
      assert choices + [key] == [key];
    } else {
      assert (choices + [key])[1..] == choices[1..] + [key];
      DeletedThenStuck(entries - {ToCKey(FromCKey(choices[0]))}, choices[1..], left, key);
    }
  }

  ghost predicate DrainsTo(entries: Entries, left: Entries) {
    exists choices :: DrainRun(entries, choices, left)
  }

  /** The kernel may offer a stuck key first; if its re-encoded form is not there, nothing at all is drained. */
  lemma {:induction false} StuckKeyStopsDrain(entries: Entries, key: Key)
    requires key in entries && ToCKey(FromCKey(key)) !in entries
    ensures DrainsTo(entries, entries)
  {
    assert DrainRun(entries, [key], entries);
  }

  // ----- sequences of tasks -----

  /** One task: whether it was set up, and the map before it, while it polls and after it. */
  datatype Round = Round(setUp: bool, found: Entries, filled: Entries, left: Entries)

  /** Keys of the probes that do not survive decoding are there. */
  ghost predicate StuckAdded(probes: Probes, entries: Entries) {
    forall key :: IsConfiguredKey(probes, key) && !CanonicalKey(key) ==> key in entries
  }

  ghost function Before(rounds: seq<Round>, k: nat): Entries
    requires k <= |rounds|
  {
    if k == 0 then map[] else rounds[k - 1].left
  }

  // What one execution does when map calls work, in parts.

  ghost predicate SetsUpExactly(probes: Probes, r: Round) {
    && (r.setUp <==> Writable(r.found, probes))
    && (r.setUp ==> HoldsOver(r.filled, r.found, probes))
  }

  ghost predicate CleansUp(probes: Probes, r: Round) {
    r.found == map[] && RestorableKeys(probes) ==> r.left == map[]
  }

  ghost predicate LeavesStuck(probes: Probes, r: Round) {
    StuckKept(r.found, r.left) && (r.setUp ==> StuckAdded(probes, r.left))
  }

  ghost predicate AddsOnlyItsOwn(probes: Probes, r: Round) {
    HoldsOnly(r.left, r.found, probes)
  }

  ghost predicate DrainsAfter(probes: Probes, r: Round) {
    r.setUp && UsesFilters(probes) ==> DrainsTo(r.filled, r.left)
  }

  /** Each task finds what the one before it left. */
  ghost predicate Chained(rounds: seq<Round>) {
    forall k {:trigger Before(rounds, k)} :: 0 <= k < |rounds| ==> rounds[k].found == Before(rounds, k)
  }

  ghost predicate AllSetUp(tasks: seq<Probes>, rounds: seq<Round>)
    requires |rounds| <= |tasks|
  {
    forall k {:trigger SetsUpExactly(tasks[k], rounds[k])} :: 0 <= k < |rounds| ==> SetsUpExactly(tasks[k], rounds[k])
  }

  ghost predicate AllCleanUp(tasks: seq<Probes>, rounds: seq<Round>)
    requires |rounds| <= |tasks|
  {
    forall k {:trigger CleansUp(tasks[k], rounds[k])} :: 0 <= k < |rounds| ==> CleansUp(tasks[k], rounds[k])
  }

  ghost predicate AllLeaveStuck(tasks: seq<Probes>, rounds: seq<Round>)
    requires |rounds| <= |tasks|
  {
    forall k {:trigger LeavesStuck(tasks[k], rounds[k])} :: 0 <= k < |rounds| ==> LeavesStuck(tasks[k], rounds[k])
  }

  ghost predicate AllAddTheirOwn(tasks: seq<Probes>, rounds: seq<Round>)
    requires |rounds| <= |tasks|
  {
    forall k {:trigger AddsOnlyItsOwn(tasks[k], rounds[k])} :: 0 <= k < |rounds| ==> AddsOnlyItsOwn(tasks[k], rounds[k])
  }

  ghost predicate AllDrain(tasks: seq<Probes>, rounds: seq<Round>)
    requires |rounds| <= |tasks|
  {
    forall k {:trigger DrainsAfter(tasks[k], rounds[k])} :: 0 <= k < |rounds| ==> DrainsAfter(tasks[k], rounds[k])
  }

  /** The tasks one after another, as many as there are rounds. */
  ghost predicate IsHistory(tasks: seq<Probes>, rounds: seq<Round>) {
    && |rounds| <= |tasks| && Chained(rounds)
    && AllSetUp(tasks, rounds) && AllCleanUp(tasks, rounds) && AllLeaveStuck(tasks, rounds)
    && AllAddTheirOwn(tasks, rounds) && AllDrain(tasks, rounds)
  }

  lemma {:induction false} SetUpOneMore(tasks: seq<Probes>, rounds: seq<Round>, round: Round)
    requires |rounds| < |tasks| && AllSetUp(tasks, rounds) && SetsUpExactly(tasks[|rounds|], round)
    ensures AllSetUp(tasks, rounds + [round])
  {
    assert forall k :: 0 <= k < |rounds| ==> (rounds + [round])[k] == rounds[k];
  }

  lemma {:induction false} CleanUpOneMore(tasks: seq<Probes>, rounds: seq<Round>, round: Round)
    requires |rounds| < |tasks| && AllCleanUp(tasks, rounds) && CleansUp(tasks[|rounds|], round)
    ensures AllCleanUp(tasks, rounds + [round])
  {
    assert forall k :: 0 <= k < |rounds| ==> (rounds + [round])[k] == rounds[k];
  }

  lemma {:induction false} LeaveStuckOneMore(tasks: seq<Probes>, rounds: seq<Round>, round: Round)
    requires |rounds| < |tasks| && AllLeaveStuck(tasks, rounds) && LeavesStuck(tasks[|rounds|], round)
    ensures AllLeaveStuck(tasks, rounds + [round])
  {
    assert forall k :: 0 <= k < |rounds| ==> (rounds + [round])[k] == rounds[k];
  }

  lemma {:induction false} AddOneMore(tasks: seq<Probes>, rounds: seq<Round>, round: Round)
    requires |rounds| < |tasks| && AllAddTheirOwn(tasks, rounds) && AddsOnlyItsOwn(tasks[|rounds|], round)
    ensures AllAddTheirOwn(tasks, rounds + [round])
  {
    assert forall k :: 0 <= k < |rounds| ==> (rounds + [round])[k] == rounds[k];
  }

  lemma {:induction false} DrainOneMore(tasks: seq<Probes>, rounds: seq<Round>, round: Round)
    requires |rounds| < |tasks| && AllDrain(tasks, rounds) && DrainsAfter(tasks[|rounds|], round)
    ensures AllDrain(tasks, rounds + [round])
  {
    assert forall k :: 0 <= k < |rounds| ==> (rounds + [round])[k] == rounds[k];
  }

  lemma {:induction false} ChainedOneMore(rounds: seq<Round>, round: Round)
    requires Chained(rounds) && round.found == Before(rounds, |rounds|)
    ensures Chained(rounds + [round])
  {
    var all := rounds + [round];
    forall k | 0 <= k < |all|
      ensures all[k].found == Before(all, k)
    {
      assert Before(all, k) == Before(rounds, k);
    }
  }

  ghost predicate AllRestorable(tasks: seq<Probes>, n: nat)
    requires n <= |tasks|
  {
    forall k :: 0 <= k < n ==> RestorableKeys(tasks[k])
  }

  /** As long as every name is restorable, each task finds an empty map. */
  lemma {:induction false} FoundEmpty(tasks: seq<Probes>, rounds: seq<Round>, k: nat)
    requires |rounds| <= |tasks| && Chained(rounds) && AllCleanUp(tasks, rounds)
    requires k <= |rounds| && AllRestorable(tasks, k)
    ensures Before(rounds, k) == map[]
  {
    if k > 0 {
      FoundEmpty(tasks, rounds, k - 1);
      assert rounds[k - 1].found == Before(rounds, k - 1) && CleansUp(tasks[k - 1], rounds[k - 1]);
    }
  }

  /** And is set up exactly if its own keys are distinct. */
  lemma {:induction false} SetUpIff(tasks: seq<Probes>, rounds: seq<Round>, k: nat)
    requires IsHistory(tasks, rounds) && k < |rounds| && AllRestorable(tasks, k)
    ensures rounds[k].setUp <==> KeysDistinct(tasks[k])
  {
    FoundEmpty(tasks, rounds, k);
    assert rounds[k].found == Before(rounds, k) && SetsUpExactly(tasks[k], rounds[k]);
  }

  /** Whatever a task finds is as some earlier task wrote it. */
  lemma {:induction false} FoundIsLeft(tasks: seq<Probes>, rounds: seq<Round>, k: nat, key: Key) returns (t: nat)
    requires |rounds| <= |tasks| && Chained(rounds) && AllAddTheirOwn(tasks, rounds)
    requires k <= |rounds| && key in Before(rounds, k)
    ensures t < k && WrittenFor(tasks[t], key, Before(rounds, k)[key])
  {
    var r := rounds[k - 1];
    assert r.found == Before(rounds, k - 1) && AddsOnlyItsOwn(tasks[k - 1], r);
    if WrittenFor(tasks[k - 1], key, r.left[key]) {
      t := k - 1;
    } else {
      t := FoundIsLeft(tasks, rounds, k - 1, key);
    }
  }

  /** A key that does not survive decoding stays once it is written. */
  lemma {:induction false} StuckStays(tasks: seq<Probes>, rounds: seq<Round>, j: nat, k: nat, key: Key)
    requires |rounds| <= |tasks| && Chained(rounds) && AllLeaveStuck(tasks, rounds)
    requires j < k <= |rounds| && rounds[j].setUp && IsConfiguredKey(tasks[j], key) && !CanonicalKey(key)
    ensures key in Before(rounds, k)
  {
    assert rounds[k - 1].found == Before(rounds, k - 1) && LeavesStuck(tasks[k - 1], rounds[k - 1]);
    if j < k - 1 {
      StuckStays(tasks, rounds, j, k - 1, key);
    }
  }

  /** And no later task that configures it can be set up. */
  lemma {:induction false} StuckBlocks(tasks: seq<Probes>, rounds: seq<Round>, j: nat, k: nat, key: Key)
    requires IsHistory(tasks, rounds) && j < k < |rounds|
    requires rounds[j].setUp && IsConfiguredKey(tasks[j], key) && !CanonicalKey(key) && IsConfiguredKey(tasks[k], key)
    ensures !rounds[k].setUp
  {
    StuckStays(tasks, rounds, j, k, key);
    assert rounds[k].found == Before(rounds, k) && SetsUpExactly(tasks[k], rounds[k]);
    var p, n :| Configured(tasks[k], p, n) && ToCKey(n) == key;
  }

  /** If all tasks have distinct keys, the map is empty in the end exactly if all names are restorable. */
  lemma {:induction false} EmptyInTheEndIff(tasks: seq<Probes>, rounds: seq<Round>, n: nat)
    requires IsHistory(tasks, rounds) && n <= |rounds|
    requires forall k :: 0 <= k < n ==> KeysDistinct(tasks[k])
    ensures Before(rounds, n) == map[] <==> AllRestorable(tasks, n)
  {
    if AllRestorable(tasks, n) {
      FoundEmpty(tasks, rounds, n);
    } else {
      var k, key := FirstStuck(tasks, n);
      SetUpIff(tasks, rounds, k);
      StuckStays(tasks, rounds, k, n, key);
    }
  }

  lemma {:induction false} FirstStuck(tasks: seq<Probes>, n: nat) returns (k: nat, key: Key)
    requires n <= |tasks| && !AllRestorable(tasks, n)
    ensures k < n && AllRestorable(tasks, k) && IsConfiguredKey(tasks[k], key) && !CanonicalKey(key)
  {
    if AllRestorable(tasks, n - 1) {
      k := n - 1;
      var p, name :| Configured(tasks[k], p, name) && !CanonicalKey(ToCKey(name));
      key := ToCKey(name);
    } else {
      k, key := FirstStuck(tasks, n - 1);
    }
  }

  /** The ids of an interface in some hash order. */
  method MethodIds(config: InterfaceConfig) returns (ids: seq<nat>)
    ensures Enumerates(ids, config.Keys)
  {
    ids := [];
    var rest := config.Keys;
    while rest != {}
      invariant rest <= config.Keys
      invariant Enumerates(ids, config.Keys - rest)
      decreases rest
    {
      var id :| id in rest;
      ids := ids + [id];
      rest := rest - {id};
    }
    assert config.Keys - rest == config.Keys;
  }

  // ----- lemmas about partial writes -----

  lemma {:induction false} ConfiguredAppend(written: Probes, filters: Filters, p: int, n: Name)
    ensures Configured(written + [filters], p, n) <==>
      Configured(written, p, n) || (p == |written| && n in filters)
    ensures Configured(written, p, n) ==> (written + [filters])[p] == written[p]
  {
  }

  lemma {:induction false} NothingWritten(entries: Entries, base: Entries, written: Probes)
    requires HoldsOver(entries, base, written)
    ensures HoldsOver(entries, base, written + [map[]])
  {
    var all := written + [map[]];
    forall p, n
      ensures Configured(all, p, n) <==> Configured(written, p, n)
      ensures Configured(written, p, n) ==> all[p] == written[p]
    {
      ConfiguredAppend(written, map[], p, n);
    }
    forall key | key in entries && WrittenFor(written, key, entries[key])
      ensures WrittenFor(all, key, entries[key])
    {
      var p, n :| Configured(written, p, n) && ToCKey(n) == key && CodesFor(entries[key], written[p][n]);
      assert Configured(all, p, n);
    }
  }

  /** The probes of `part`, and perhaps more, with the same configs. */
  ghost predicate Extends(probes: Probes, part: Probes) {
    forall p, n :: Configured(part, p, n) ==> Configured(probes, p, n) && probes[p][n] == part[p][n]
  }

  lemma {:induction false} ExtendsOnly(entries: Entries, base: Entries, part: Probes, probes: Probes)
    requires HoldsOnly(entries, base, part) && Extends(probes, part)
    ensures HoldsOnly(entries, base, probes)
  {
    forall key | key in entries && WrittenFor(part, key, entries[key])
      ensures WrittenFor(probes, key, entries[key])
    {
      var p, n :| Configured(part, p, n) && ToCKey(n) == key && CodesFor(entries[key], part[p][n]);
      assert Configured(probes, p, n);
    }
  }

  lemma {:induction false} PartIsConfigured(entries: Entries, base: Entries, written: Probes, part: Filters, filters: Filters)
    requires HoldsOnly(entries, base, written + [part])
    requires forall n :: n in part ==> n in filters && part[n] == filters[n]
    ensures HoldsOnly(entries, base, written + [filters])
  {
    forall p, n | Configured(written + [part], p, n)
      ensures Configured(written + [filters], p, n) && (written + [filters])[p][n] == (written + [part])[p][n]
    {
      ConfiguredAppend(written, part, p, n);
      ConfiguredAppend(written, filters, p, n);
    }
    ExtendsOnly(entries, base, written + [part], written + [filters]);
  }

  lemma {:induction false} PrefixOnly(entries: Entries, base: Entries, probes: Probes, k: nat)
    requires k <= |probes| && HoldsOnly(entries, base, probes[..k])
    ensures HoldsOnly(entries, base, probes)
  {
    assert Extends(probes, probes[..k]);
    ExtendsOnly(entries, base, probes[..k], probes);
  }

  lemma {:induction false} Collision(entries: Entries, base: Entries, written: Probes, part: Filters, filters: Filters, name: Name)
    requires HoldsOnly(entries, base, written + [part]) && part.Keys <= filters.Keys
    requires name in filters && name !in part && ToCKey(name) in entries
    ensures !Writable(base, written + [filters])
  {
    var key := ToCKey(name);
    assert Configured(written + [filters], |written|, name);
    if WrittenFor(written + [part], key, entries[key]) {
      var p, n :| Configured(written + [part], p, n) && ToCKey(n) == key && CodesFor(entries[key], (written + [part])[p][n]);
      assert Configured(written + [filters], p, n);
    }
  }

  lemma {:induction false} OneMoreConfigured(written: Probes, part: Filters, name: Name, config: InterfaceConfig, p: int, n: Name)
    requires name !in part
    ensures Configured(written + [part[name := config]], p, n) <==>
      Configured(written + [part], p, n) || (p == |written| && n == name)
    ensures Configured(written + [part], p, n) ==>
      (written + [part[name := config]])[p][n] == (written + [part])[p][n]
    ensures Configured(written + [part], p, n) ==> !(p == |written| && n == name)
  {
    ConfiguredAppend(written, part, p, n);
    ConfiguredAppend(written, part[name := config], p, n);
  }

  lemma {:induction false} OneMoreHeld(entries: Entries, written: Probes, part: Filters, name: Name, config: InterfaceConfig, ids: seq<nat>)
    requires HoldsAll(entries, written + [part]) && name !in part && ToCKey(name) !in entries
    requires Enumerates(ids, config.Keys)
    ensures HoldsAll(entries[ToCKey(name) := ToCValue(ids)], written + [part[name := config]])
  {
    var before, after := written + [part], written + [part[name := config]];
    var entries' := entries[ToCKey(name) := ToCValue(ids)];
    forall p, n | Configured(after, p, n)
      ensures ToCKey(n) in entries' && CodesFor(entries'[ToCKey(n)], after[p][n])
    {
      OneMoreConfigured(written, part, name, config, p, n);
      if Configured(before, p, n) {
        assert ToCKey(n) in entries && CodesFor(entries[ToCKey(n)], before[p][n]);
      } else {
        assert after[p][n] == config;
      }
    }
  }

  lemma {:induction false} OneMoreWritable(entries: Entries, base: Entries, written: Probes, part: Filters, name: Name, config: InterfaceConfig)
    requires HoldsAll(entries, written + [part]) && Keeps(entries, base) && Writable(base, written + [part])
    requires name !in part && ToCKey(name) !in entries
    ensures Writable(base, written + [part[name := config]])
  {
    var before, after := written + [part], written + [part[name := config]];
    forall p, n | Configured(after, p, n)
      ensures ToCKey(n) !in base
    {
      OneMoreConfigured(written, part, name, config, p, n);
    }
    forall p, n, q, m | Configured(after, p, n) && Configured(after, q, m) && ToCKey(n) == ToCKey(m)
      ensures p == q && n == m
    {
      OneMoreConfigured(written, part, name, config, p, n);
      OneMoreConfigured(written, part, name, config, q, m);
      assert Configured(before, p, n) ==> ToCKey(n) in entries;
      assert Configured(before, q, m) ==> ToCKey(m) in entries;
    }
  }

  lemma {:induction false} OneMoreOnly(entries: Entries, base: Entries, written: Probes, part: Filters,
                                       name: Name, config: InterfaceConfig, ids: seq<nat>)
    requires HoldsOnly(entries, base, written + [part]) && name !in part && Enumerates(ids, config.Keys)
    ensures HoldsOnly(entries[ToCKey(name) := ToCValue(ids)], base, written + [part[name := config]])
  {
    var before, after := written + [part], written + [part[name := config]];
    OneMoreConfigured(written, part, name, config, |written|, name);
    assert after[|written|][name] == config;
    assert WrittenFor(after, ToCKey(name), ToCValue(ids));
    forall p, n | Configured(before, p, n)
      ensures Configured(after, p, n) && after[p][n] == before[p][n]
    {
      OneMoreConfigured(written, part, name, config, p, n);
    }
    ExtendsOnly(entries, base, before, after);
  }

  lemma {:induction false} PrefixWritable(base: Entries, probes: Probes, k: nat)
    requires k <= |probes|
    ensures Writable(base, probes) ==> Writable(base, probes[..k])
  {
    assert forall p, n :: Configured(probes[..k], p, n) ==> Configured(probes, p, n);
  }

  lemma {:induction false} OnlyCanonical(entries: Entries, base: Entries, probes: Probes, k: nat)
    requires k <= |probes| && HoldsOnly(entries, base, probes[..k]) && AllCanonical(base) && RestorableKeys(probes)
    ensures AllCanonical(entries)
  {
    PrefixOnly(entries, base, probes, k);
    forall key | key in entries && WrittenFor(probes, key, entries[key])
      ensures CanonicalKey(key)
    {
      var p, n :| Configured(probes, p, n) && ToCKey(n) == key && CodesFor(entries[key], probes[p][n]);
    }
  }

  /** What is left of a partly or wholly written map after any drain of it. */
  lemma {:induction false} DrainedPart(base: Entries, partial: Entries, left: Entries, probes: Probes, k: nat)
    requires k <= |probes| && HoldsOnly(partial, base, probes[..k]) && Keeps(partial, base) && Remains(partial, left)
    ensures StuckKept(base, left) && HoldsOnly(left, base, probes)
    ensures AllCanonical(base) && RestorableKeys(probes) ==> AllCanonical(partial)
  {
    PrefixOnly(partial, base, probes, k);
    if AllCanonical(base) && RestorableKeys(probes) {
      OnlyCanonical(partial, base, probes, k);
    }
  }

  lemma {:induction false} AddedStay(base: Entries, filled: Entries, left: Entries, probes: Probes)
    requires HoldsAll(filled, probes) && StuckKept(filled, left)
    ensures StuckAdded(probes, left)
  {
    forall key | IsConfiguredKey(probes, key) && !CanonicalKey(key)
      ensures key in left
    {
      var p, n :| Configured(probes, p, n) && ToCKey(n) == key;
    }
  }

  lemma {:induction false} CanonicalParts(base: Entries, filled: Entries, probes: Probes)
    requires HoldsAll(filled, probes) && Keeps(filled, base) && AllCanonical(filled)
    ensures AllCanonical(base) && RestorableKeys(probes)
  {
    forall p, n | Configured(probes, p, n)
      ensures CanonicalKey(ToCKey(n))
    {
      assert ToCKey(n) in filled;
    }
  }

  /** What is left of a wholly written map after any drain of it. */
  lemma {:induction false} DrainedWhole(base: Entries, filled: Entries, left: Entries, probes: Probes)
    requires HoldsOver(filled, base, probes) && Remains(filled, left)
    ensures StuckKept(base, left) && HoldsOnly(left, base, probes) && StuckAdded(probes, left)
    ensures AllCanonical(filled) <==> AllCanonical(base) && RestorableKeys(probes)
    ensures left == map[] ==> AllCanonical(filled)
  {
    assert probes[..|probes|] == probes;
    DrainedPart(base, filled, left, probes, |probes|);
    AddedStay(base, filled, left, probes);
    if AllCanonical(filled) {
      CanonicalParts(base, filled, probes);
    }
  }

  lemma {:induction false} NoFilters(probes: Probes)
    requires !UsesFilters(probes)
    ensures RestorableKeys(probes) && forall key :: !IsConfiguredKey(probes, key)
  {
    forall p, n
      ensures !Configured(probes, p, n)
    {
    }
  }
}
