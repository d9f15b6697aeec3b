/**
The BPF program that matches binder transactions against the filter map, the handler that looks the
emitted transactions up again, and the agreement between the two.
*/
module BinderProgram {
  import opened Common
  import opened BinderKeys
  import opened ConfigResolver
  import opened FilterMap

  // ----- recordString -----

  /** A Java string in user memory: `count` is twice its length, `memory` the readable bytes from its content on. */
  datatype JString = Null | Unreadable | JString(count: nat, memory: seq<Byte>)

  function CopySize(count: nat): (size: nat)
    ensures 1 <= size <= MAX_STRING_LENGTH
  {
    if MAX_STRING_LENGTH < count / 2 + 1 then MAX_STRING_LENGTH else count / 2 + 1
  }

  /** The string that ends up in a zeroed buffer: up to the first NUL or the size limit; nothing if the read faults. */
  function RecordedName(j: JString): (w: Name)
    ensures |w| < MAX_STRING_LENGTH && NulFree(w)
  {
    match j
    case Null => []
    case Unreadable => []
    case JString(count, memory) =>
      var size := CopySize(count);
      var end := FirstNul(memory);
      if size - 1 <= end then
        assert memory[..size - 1] <= memory[..end];
        memory[..size - 1]
      else if end < |memory| then memory[..end]
      else []
  }

  /**
  The record of a string of this length: its content up to the first NUL, its own end or the limit,
  or nothing if memory ends before any of these.
  */
  ghost predicate IsRecord(count: nat, memory: seq<Byte>, w: Name) {
    var limit := Min(count / 2, MAX_STRING_LENGTH - 1);
    if NulFree(memory) && |memory| < limit then w == []
    else
      && w <= memory && NulFree(w) && |w| <= limit
      && (|w| < limit ==> |w| < |memory| && memory[|w|] == 0)
  }

  lemma {:induction false} RecordIsUnique(count: nat, memory: seq<Byte>, v: Name, w: Name)
    requires IsRecord(count, memory, v) && IsRecord(count, memory, w) && |v| <= |w|
    ensures v == w
  {
    assert forall i :: 0 <= i < |w| ==> w[i] == memory[i];
  }

  /** The recorded name is exactly that. */
  lemma {:induction false} RecordedIff(count: nat, memory: seq<Byte>, w: Name)
    ensures w == RecordedName(JString(count, memory)) <==> IsRecord(count, memory, w)
  {
    var r := RecordedName(JString(count, memory));
    var end := FirstNul(memory);
    assert memory[..end] <= memory;
    assert IsRecord(count, memory, r);
    if IsRecord(count, memory, w) {
      if |r| <= |w| {
        RecordIsUnique(count, memory, r, w);
      } else {
        RecordIsUnique(count, memory, w, r);
      }
    }
  }

  /** Java strings carry no terminator: what is recorded depends on the string's own bytes only. */
  lemma {:induction false} RecordsOwnBytesOnly(count: nat, a: seq<Byte>, b: seq<Byte>)
    requires count / 2 <= |a| && count / 2 <= |b| && a[..count / 2] == b[..count / 2]
    ensures RecordedName(JString(count, a)) == RecordedName(JString(count, b))
    ensures |RecordedName(JString(count, a))| <= count / 2
  {
    var w, n := RecordedName(JString(count, a)), count / 2;
    RecordedIff(count, a, w);
    assert w == a[..n][..|w|] == b[..n][..|w|];
    if |w| < Min(n, MAX_STRING_LENGTH - 1) {
      assert a[..n][|w|] == b[..n][|w|];
    }
    RecordedIff(count, b, w);
  }

  /** Copies a user string of at most `size` bytes, NUL included, and zeroes the buffer if it runs into unreadable memory. */
  method ProbeReadUserStr(dest: array<Byte>, size: nat, memory: seq<Byte>)
    requires 1 <= size <= dest.Length
    requires forall k :: 0 <= k < dest.Length ==> dest[k] == 0
    modifies dest
    ensures var n := if size - 1 <= FirstNul(memory) then size - 1
                     else if FirstNul(memory) < |memory| then FirstNul(memory) else 0;
      forall k :: 0 <= k < dest.Length ==> dest[k] == if k < n then memory[k] else 0
  {
    var i := 0;
    while i < size - 1
      invariant 0 <= i <= size - 1 && i <= FirstNul(memory)
      invariant forall k :: 0 <= k < dest.Length ==> dest[k] == if k < i then memory[k] else 0
    {
      if i >= |memory| {
        forall k | 0 <= k < dest.Length {
          dest[k] := 0;
        }
        return;
      }
      if memory[i] == 0 {
        return;
      }
      assert i < FirstNul(memory);
      dest[i] := memory[i];
      i := i + 1;
    }
  }

  method RecordString(j: JString, dest: array<Byte>)
    requires dest.Length == MAX_STRING_LENGTH
    requires forall k :: 0 <= k < dest.Length ==> dest[k] == 0
    modifies dest
    ensures dest[..] == ToCKey(RecordedName(j))
  {
    if j.Null? {
      dest[0] := 0;
    } else if j.JString? {
      ProbeReadUserStr(dest, CopySize(j.count), j.memory);
    }
  }

  // ----- exec_transact_internal -----

  datatype BinderTransaction = BinderTransaction(descriptor: Key, code: nat, callingUid: int, timestampNs: nat)

  /** The code is listed before the zero that ends the list. */
  ghost predicate MatchesCode(codes: Codes, code: nat) {
    exists i :: 0 <= i < MAX_CODES && codes[i] == code && forall k :: 0 <= k <= i ==> codes[k] != 0
  }

  /** The transaction passes the filter (a record appears if the ring has space). */
  ghost predicate Matches(entries: Entries, descriptor: JString, code: nat) {
    var key := ToCKey(RecordedName(descriptor));
    key in entries && MatchesCode(entries[key], code)
  }

  method ExecTransactInternal(entries: Entries, descriptor: JString, code: nat, uid: int, now: nat, ringHasSpace: bool)
      returns (ret: int, output: Option<BinderTransaction>)
    ensures output.Some? <==> Matches(entries, descriptor, code) && ringHasSpace
    ensures output.Some? ==>
      output.value == BinderTransaction(ToCKey(RecordedName(descriptor)), code, uid, now)
    ensures ret == if Matches(entries, descriptor, code) && !ringHasSpace then 1 else 0
  {
    var buffer := new Byte[MAX_STRING_LENGTH](_ => 0);
    RecordString(descriptor, buffer);
    var key: Key := buffer[..];
    if key !in entries {
      return 0, None;
    }
    var codes := entries[key];
    var i := 0;
    while i < MAX_CODES
      invariant 0 <= i <= MAX_CODES
      invariant forall k :: 0 <= k < i ==> codes[k] != 0 && codes[k] != code
    {
      if codes[i] == 0 {
        break;
      }
      if codes[i] != code {
        i := i + 1;
        continue;
      }
      assert MatchesCode(codes, code);
      if !ringHasSpace {
        return 1, None;
      }
      return 0, Some(BinderTransaction(key, code, uid, now));
    }
    assert !MatchesCode(codes, code);
    return 0, None;
  }

  // ----- the handler's lookup -----

  function LookupConfig(probes: Probes, name: Name, code: nat): Option<MethodConfig> {
    if probes == [] then None
    else if name in probes[0] && code in probes[0][name] then Some(probes[0][name][code])
    else LookupConfig(probes[1..], name, code)
  }

  /** The method config that `on_item` finds, or None where it returns an error instead. */
  function HandlerConfig(probes: Probes, descriptor: Key, code: nat): Option<MethodConfig> {
    match BytesAsNonemptyStr(descriptor)
    case Err => None
    case Ok(name) => LookupConfig(probes, name, code)
  }

  lemma {:induction false} LookupFinds(probes: Probes, p: nat, name: Name, code: nat)
    requires p < |probes| && name in probes[p] && code in probes[p][name]
    requires forall q :: 0 <= q < |probes| && name in probes[q] ==> q == p
    ensures LookupConfig(probes, name, code) == Some(probes[p][name][code])
  {
    if p > 0 {
      assert name !in probes[0];
      LookupFinds(probes[1..], p - 1, name, code);
    }
  }

  lemma {:induction false} LookupMisses(probes: Probes, name: Name, code: nat)
    requires forall q :: 0 <= q < |probes| ==> name !in probes[q]
    ensures LookupConfig(probes, name, code) == None
  {
    if probes != [] {
      LookupMisses(probes[1..], name, code);
    }
  }

  // ----- agreement -----

  /** What resolution guarantees of every probe: well-formed names, and at least one method, all with positive ids. */
  ghost predicate WellResolved(probes: Probes) {
    forall p, n :: Configured(probes, p, n) ==>
      && ValidUtf8(n)
      && probes[p][n].Keys != {}
      && (forall id :: id in probes[p][n] ==> id > 0)
  }

  /** A name whose key reads back as a shorter name: empty, or ending in NULs as far as the key shows. */
  predicate NulPadded(name: Name) {
    Restorable(name) && (FirstNul(name) < |name| || name == [])
  }

  lemma {:induction false} CodesAreIds(codes: Codes, config: InterfaceConfig, code: nat)
    requires CodesFor(codes, config) && MatchesCode(codes, code)
    ensures code in config
  {
    var ids :| Enumerates(ids, config.Keys) && codes == ToCValue(ids);
    var i :| 0 <= i < MAX_CODES && codes[i] == code && forall k :: 0 <= k <= i ==> codes[k] != 0;
    assert codes[i] != 0;
    assert ids[i] == code;
  }

  /** A recorded key is the key of a configured name only if they are the same name, or the name is padded. */
  lemma {:induction false} SameKey(n: Name, w: Name)
    requires |w| < MAX_STRING_LENGTH && NulFree(w) && ToCKey(n) == ToCKey(w) && !NulPadded(n)
    ensures n == w && w != []
  {
    var f := FirstNul(n);
    forall i | 0 <= i < |w|
      ensures i < |n| && n[i] == w[i]
    {
      assert ToCKey(n)[i] == ToCKey(w)[i];
    }
    assert |w| > 0 ==> w[|w| - 1] != 0 && |w| - 1 < |n|;
    assert n[..|w|] == w;
    assert ToCKey(n)[|w|] == 0;
    if |w| < |n| {
      assert n[|w|] == 0;
      FirstNulIs(n, |w|);
      assert false;
    }
  }

  /** A match of a key that this task wrote finds the config of the one probe that wrote it, unless that name is padded. */
  lemma {:induction false} MatchHasItsConfig(probes: Probes, base: Entries, entries: Entries, j: JString, code: nat)
    requires HoldsOver(entries, base, probes) && WellResolved(probes)
    requires forall p, n :: Configured(probes, p, n) ==> !NulPadded(n)
    requires Matches(entries, j, code) && ToCKey(RecordedName(j)) !in base
    ensures var w := RecordedName(j);
      exists p :: Configured(probes, p, w) && code in probes[p][w] &&
        HandlerConfig(probes, ToCKey(w), code) == Some(probes[p][w][code])
  {
    var w := RecordedName(j);
    var key := ToCKey(w);
    assert WrittenFor(probes, key, entries[key]);
    var p, n :| Configured(probes, p, n) && ToCKey(n) == key && CodesFor(entries[key], probes[p][n]);
    SameKey(n, w);
    CodesAreIds(entries[key], probes[p][w], code);
    DecodePadded(w);
    assert forall q :: 0 <= q < |probes| && w in probes[q] ==> Configured(probes, q, w);
    LookupFinds(probes, p, w, code);
  }

  /** A match of a key that was there before the task finds no config. */
  lemma {:induction false} LeftOverMisses(probes: Probes, base: Entries, j: JString, code: nat)
    requires Writable(base, probes) && ToCKey(RecordedName(j)) in base
    ensures HandlerConfig(probes, ToCKey(RecordedName(j)), code) == None
  {
    var w := RecordedName(j);
    DecodePadded(w);
    forall q | 0 <= q < |probes|
      ensures w !in probes[q]
    {
      assert !Configured(probes, q, w);
    }
    LookupMisses(probes, w, code);
  }

  /** The Java string whose content is `w`. */
  ghost function Latin1(w: Name): JString {
    JString(2 * |w|, w + [0])
  }

  lemma {:induction false} RecordsWhole(w: Name)
    requires |w| < MAX_STRING_LENGTH && NulFree(w)
    ensures RecordedName(Latin1(w)) == w
  {
    assert (w + [0])[..|w|] == w;
    FirstNulIs(w + [0], |w|);
  }

  lemma {:induction false} FirstCodeIsSet(codes: Codes, config: InterfaceConfig)
    requires CodesFor(codes, config) && config.Keys != {} && forall id :: id in config ==> id > 0
    ensures codes[0] != 0
  {
    var code := FirstIdMatches(codes, config);
    var i :| 0 <= i < MAX_CODES && codes[i] == code && forall k :: 0 <= k <= i ==> codes[k] != 0;
  }

  lemma {:induction false} FirstIdMatches(codes: Codes, config: InterfaceConfig) returns (code: nat)
    requires CodesFor(codes, config) && config.Keys != {} && forall id :: id in config ==> id > 0
    ensures MatchesCode(codes, code)
  {
    var ids :| Enumerates(ids, config.Keys) && codes == ToCValue(ids);
    var id :| id in config.Keys;
    assert id in ids;
    code := ids[0];
    assert ids[0] in ids;
    assert codes[0] == code;
  }

  /** No other name shares its key with a configured one, so the shorter name is not configured at all. */
  lemma {:induction false} ShorterNameUnconfigured(probes: Probes, p: nat, n: Name, w: Name, code: nat)
    requires KeysDistinct(probes) && Configured(probes, p, n) && ToCKey(w) == ToCKey(n) && w != n
    ensures LookupConfig(probes, w, code) == None
  {
    forall q | 0 <= q < |probes|
      ensures w !in probes[q]
    {
      assert !Configured(probes, q, w);
    }
    LookupMisses(probes, w, code);
  }

  lemma {:induction false} PaddedNameMisses(probes: Probes, entries: Entries, p: nat, n: Name) returns (j: JString, code: nat)
    requires HoldsAll(entries, probes) && KeysDistinct(probes) && WellResolved(probes)
    requires Configured(probes, p, n) && NulPadded(n)
    ensures Matches(entries, j, code) && HandlerConfig(probes, ToCKey(RecordedName(j)), code) == None
  {
    var w := n[..FirstNul(n)];
    j := Latin1(w);
    RecordsWhole(w);
    assert ToCKey(w) == ToCKey(n);
    code := FirstIdMatches(entries[ToCKey(n)], probes[p][n]);
    DecodePadded(w);
    if w != [] {
      ShorterNameUnconfigured(probes, p, n, w, code);
    }
  }

  /** The keys were written for Rust strings. */
  ghost predicate Utf8Keys(base: Entries) {
    forall key :: key in base ==> IsUtf8Key(key)
  }

  ghost predicate IsUtf8Key(key: Key) {
    exists n :: ValidUtf8(n) && ToCKey(n) == key
  }

  /** A left-over entry that a transaction can still match: its key survives decoding and its codes are not empty. */
  predicate Alive(base: Entries, key: Key) {
    key in base && CanonicalKey(key) && base[key][0] != 0
  }

  /** Every transaction that passes the filter has a config that the handler finds. */
  ghost predicate Agrees(probes: Probes, entries: Entries) {
    forall j, code :: Matches(entries, j, code) ==> HandlerConfig(probes, ToCKey(RecordedName(j)), code).Some?
  }

  /** A left-over entry matches only if it is alive. */
  lemma {:induction false} MatchIsAlive(base: Entries, j: JString, code: nat)
    requires Utf8Keys(base) && Matches(base, j, code)
    ensures Alive(base, ToCKey(RecordedName(j)))
  {
    var key := ToCKey(RecordedName(j));
    assert IsUtf8Key(key);
    var n :| ValidUtf8(n) && ToCKey(n) == key;
    RecordableIff(n);
    var i :| 0 <= i < MAX_CODES && base[key][i] == code && forall k :: 0 <= k <= i ==> base[key][k] != 0;
    assert base[key][0] != 0;
  }

  /** And if it is, some transaction matches it. */
  lemma {:induction false} AliveMatches(base: Entries, key: Key) returns (j: JString, code: nat)
    requires Alive(base, key)
    ensures ToCKey(RecordedName(j)) == key && Matches(base, j, code)
  {
    var w := FromCKey(key);
    DecodedIsCanonical(key);
    j, code := Latin1(w), base[key][0];
    RecordsWhole(w);
    assert MatchesCode(base[key], code);
  }

  lemma {:induction false} AliveBreaksAgreement(probes: Probes, base: Entries, entries: Entries, key: Key)
    requires Writable(base, probes) && Keeps(entries, base) && Alive(base, key)
    ensures !Agrees(probes, entries)
  {
    var j, code := AliveMatches(base, key);
    LeftOverMisses(probes, base, j, code);
    assert Matches(entries, j, code);
  }

  lemma {:induction false} AgreesOverDead(probes: Probes, base: Entries, entries: Entries)
    requires HoldsOver(entries, base, probes) && WellResolved(probes) && Utf8Keys(base)
    requires forall p, n :: Configured(probes, p, n) ==> !NulPadded(n)
    requires forall key :: !Alive(base, key)
    ensures Agrees(probes, entries)
  {
    forall j, code | Matches(entries, j, code)
      ensures HandlerConfig(probes, ToCKey(RecordedName(j)), code).Some?
    {
      if ToCKey(RecordedName(j)) in base {
        MatchIsAlive(base, j, code);
      } else {
        MatchHasItsConfig(probes, base, entries, j, code);
      }
    }
  }

  /**
  Filter agreement, over whatever the map held before setup. Every transaction the program can emit
  has a config that the handler finds, if and only if no configured name is empty or NUL-padded and
  no left-over entry is alive.
  */
  lemma {:induction false} FilterAgreementIff(probes: Probes, base: Entries, entries: Entries)
    requires HoldsOver(entries, base, probes) && WellResolved(probes) && Utf8Keys(base)
    ensures Agrees(probes, entries) <==>
      (forall p, n :: Configured(probes, p, n) ==> !NulPadded(n)) && forall key :: !Alive(base, key)
  {
    if p, n :| Configured(probes, p, n) && NulPadded(n) {
      var j, code := PaddedNameMisses(probes, entries, p, n);
    } else if key :| Alive(base, key) {
      AliveBreaksAgreement(probes, base, entries, key);
    } else {
      AgreesOverDead(probes, base, entries);
    }
  }

  // ----- agreement across tasks -----

  ghost predicate AllWellResolved(tasks: seq<Probes>, n: nat)
    requires n <= |tasks|
  {
    forall k :: 0 <= k < n ==> WellResolved(tasks[k])
  }

  /** What tasks leave behind has UTF-8 keys, and is alive exactly if its key survives decoding. */
  lemma {:induction false} LeftIsAliveIff(probes: Probes, base: Entries, key: Key)
    requires WellResolved(probes) && key in base && WrittenFor(probes, key, base[key])
    ensures IsUtf8Key(key) && (Alive(base, key) <==> CanonicalKey(key))
  {
    var p, n :| Configured(probes, p, n) && ToCKey(n) == key && CodesFor(base[key], probes[p][n]);
    assert ValidUtf8(n);
    FirstCodeIsSet(base[key], probes[p][n]);
  }

  /**
  In every history of tasks, one that is set up agrees with its handler if and only if none of its
  names is NUL-padded and no drain before it has left a key that survives decoding. The latter is so
  whenever all names of the earlier tasks are restorable.
  */
  lemma {:induction false} AgreementAcrossTasks(tasks: seq<Probes>, rounds: seq<Round>, k: nat)
    requires IsHistory(tasks, rounds) && k < |rounds| && rounds[k].setUp && AllWellResolved(tasks, k + 1)
    ensures Agrees(tasks[k], rounds[k].filled) <==>
      && (forall p, n :: Configured(tasks[k], p, n) ==> !NulPadded(n))
      && (forall key :: key in rounds[k].found ==> !CanonicalKey(key))
    ensures AllRestorable(tasks, k) ==> rounds[k].found == map[]
  {
    var found := rounds[k].found;
    assert found == Before(rounds, k) && SetsUpExactly(tasks[k], rounds[k]);
    if AllRestorable(tasks, k) {
      FoundEmpty(tasks, rounds, k);
    }
    forall key | key in found
      ensures IsUtf8Key(key) && (Alive(found, key) <==> CanonicalKey(key))
    {
      var t := FoundIsLeft(tasks, rounds, k, key);
      LeftIsAliveIff(tasks[t], found, key);
    }
    FilterAgreementIff(tasks[k], found, rounds[k].filled);
  }

  /**
  NUL-free names are not enough: a first task with a name that can be drained and one that cannot may
  end with its map undrained, and then no later task that is set up over it agrees, whatever its names.
  */
  lemma {:induction false} BlockedDrainBreaksAgreement(first: Probes, p: nat, x: Name, q: nat, long: Name, filled: Entries,
                                                       second: Probes, filled': Entries)
    requires HoldsExactly(filled, first) && WellResolved(first)
    requires forall r, n :: Configured(first, r, n) ==> NulFree(n) && n != []
    requires Configured(first, p, x) && |x| < MAX_STRING_LENGTH
    requires Configured(first, q, long) && |long| >= MAX_STRING_LENGTH
    requires HoldsOver(filled', filled, second)
    ensures DrainsTo(filled, filled) && !Agrees(second, filled')
  {
    LongDecodesToNothing(long);
    EmptyKeyIsAbsent(first, filled);
    StuckKeyStopsDrain(filled, ToCKey(long));
    NameRoundTrip(x);
    FirstCodeIsSet(filled[ToCKey(x)], first[p][x]);
    AliveBreaksAgreement(second, filled, filled', ToCKey(x));
  }

  lemma {:induction false} EmptyKeyIsAbsent(probes: Probes, entries: Entries)
    requires HoldsOnly(entries, map[], probes) && forall p, n :: Configured(probes, p, n) ==> NulFree(n) && n != []
    ensures ToCKey([]) !in entries
  {
    forall p, n | Configured(probes, p, n)
      ensures ToCKey(n) != ToCKey([])
    {
      assert ToCKey(n)[0] == n[0] && ToCKey([])[0] == 0;
    }
  }

  lemma {:induction false} LongDecodesToNothing(long: Name)
    requires NulFree(long) && |long| >= MAX_STRING_LENGTH
    ensures FromCKey(ToCKey(long)) == []
  {
    var key := ToCKey(long);
    assert forall i :: 0 <= i < |key| ==> key[i] == long[i] != 0;
    assert FirstNul(key) == |key|;
  }

  lemma {:induction false} NulFreeIsNotPadded(n: Name)
    requires NulFree(n) && n != []
    ensures !NulPadded(n)
  {
  }

  // ----- completeness -----

  lemma {:induction false} EnumerationSize<T>(s: seq<T>, elements: set<T>)
    requires NoDuplicates(s) && (forall x :: x in s ==> x in elements) && (forall x :: x in elements ==> x in s)
    ensures |s| == |elements|
  {
    if s != [] {
      var n := |s| - 1;
      EnumerationSize(s[..n], elements - {s[n]});
    }
  }

  /**
  Completeness of one interface: all its configured methods pass the filter if and only if there are
  at most ten of them; from the eleventh on, in hash order, methods are silently never reported.
  */
  lemma {:induction false} FilterCompleteIff(probes: Probes, base: Entries, entries: Entries, p: nat, n: Name)
    requires HoldsOver(entries, base, probes) && WellResolved(probes)
    requires Configured(probes, p, n) && CanonicalName(n)
    ensures (forall j, code :: RecordedName(j) == n && code in probes[p][n] ==> Matches(entries, j, code)) <==>
            |probes[p][n]| <= MAX_CODES
  {
    var config, codes := probes[p][n], entries[ToCKey(n)];
    CodesCompleteIff(codes, config);
    RecordsWhole(n);
    if code :| code in config && !MatchesCode(codes, code) {
      assert !Matches(entries, Latin1(n), code);
    }
  }

  /** Ten codes hold all ids of an interface if and only if there are at most ten. */
  lemma {:induction false} CodesCompleteIff(codes: Codes, config: InterfaceConfig)
    requires CodesFor(codes, config) && forall id :: id in config ==> id > 0
    ensures (forall code :: code in config ==> MatchesCode(codes, code)) <==> |config| <= MAX_CODES
  {
    var ids :| Enumerates(ids, config.Keys) && codes == ToCValue(ids);
    EnumerationSize(ids, config.Keys);
    if |ids| <= MAX_CODES {
      forall code | code in config
        ensures MatchesCode(codes, code)
      {
        assert code in ids;
        var i :| 0 <= i < |ids| && ids[i] == code;
        assert codes[i] == code;
        assert forall k :: 0 <= k <= i ==> codes[k] == ids[k] && ids[k] in ids;
      }
    } else {
      var code := ids[MAX_CODES];
      assert code in ids;
      assert forall i :: 0 <= i < MAX_CODES ==> codes[i] == ids[i] != code;
      assert !MatchesCode(codes, code);
    }
  }

  /** A configured method of an interface with at most ten of them passes the filter and is handled with its own config. */
  lemma {:induction false} ConfiguredIsReported(probes: Probes, base: Entries, entries: Entries, p: nat, j: JString, code: nat)
    requires HoldsOver(entries, base, probes) && WellResolved(probes)
    requires Configured(probes, p, RecordedName(j)) && RecordedName(j) != []
    requires code in probes[p][RecordedName(j)] && |probes[p][RecordedName(j)]| <= MAX_CODES
    ensures Matches(entries, j, code)
    ensures HandlerConfig(probes, ToCKey(RecordedName(j)), code) == Some(probes[p][RecordedName(j)][code])
  {
    var w := RecordedName(j);
    FilterCompleteIff(probes, base, entries, p, w);
    DecodePadded(w);
    assert forall q :: 0 <= q < |probes| && w in probes[q] ==> Configured(probes, q, w);
    LookupFinds(probes, p, w, code);
  }

  /** Exactly the names whose keys cannot be drained are those that no descriptor is ever recorded as. */
  lemma {:induction false} RecordableIff(n: Name)
    requires ValidUtf8(n)
    ensures (exists j :: ToCKey(RecordedName(j)) == ToCKey(n)) <==> CanonicalKey(ToCKey(n))
  {
    var w := FromCKey(ToCKey(n));
    DecodedIsCanonical(ToCKey(n));
    RecordsWhole(w);
    if CanonicalKey(ToCKey(n)) {
      assert ToCKey(RecordedName(Latin1(w))) == ToCKey(n);
    }
    forall j | ToCKey(RecordedName(j)) == ToCKey(n)
      ensures CanonicalKey(ToCKey(n))
    {
      RecordedIsRestorable(n, RecordedName(j));
      RestorableIff(n);
    }
  }

  lemma {:induction false} RecordedIsRestorable(n: Name, w: Name)
    requires |w| < MAX_STRING_LENGTH && NulFree(w) && ToCKey(w) == ToCKey(n)
    ensures Restorable(n)
  {
    if !NulPadded(n) {
      SameKey(n, w);
    }
  }

  /** A NUL-free name of 128 bytes or more never matches any transaction, and cannot be drained. */
  lemma {:induction false} LongNameNeverRecorded(n: Name, j: JString)
    requires NulFree(n) && |n| >= MAX_STRING_LENGTH
    ensures ToCKey(RecordedName(j)) != ToCKey(n) && !CanonicalKey(ToCKey(n))
  {
    var w := RecordedName(j);
    assert ToCKey(w)[|w|] == 0 && ToCKey(n)[|w|] == n[|w|];
    LongNameIsStuck(n);
  }

  // ----- end to end -----

  /** Each probe's filters are what its proto lists. */
  ghost predicate ResolvedFrom(probes: Probes, protos: seq<seq<FilterProto>>) {
    && |probes| == |protos|
    && (forall p :: 0 <= p < |probes| ==> ValidFilters(protos[p]) && HoldsFilters(probes[p], protos[p]))
  }

  lemma {:induction false} ResolvedIsWellResolved(probes: Probes, protos: seq<seq<FilterProto>>)
    requires ResolvedFrom(probes, protos)
    requires forall p, n :: Configured(probes, p, n) ==> ValidUtf8(n)
    ensures WellResolved(probes)
    ensures forall p, n :: Configured(probes, p, n) ==> n != []
  {
    forall p, n | Configured(probes, p, n)
      ensures probes[p][n].Keys != {} && (forall id :: id in probes[p][n] ==> id > 0) && n != []
    {
      var i :| 0 <= i < |protos[p]| && protos[p][i].interfaceName == Some(n);
      var f := protos[p][i];
      assert ValidFilter(f) && HoldsFilter(probes[p], f);
      assert HoldsMethod(probes[p][n], f.methods[0]);
      assert f.methods[0].methodId.value in probes[p][n].Keys;
    }
  }

  /** The proto lists a method with this interface name and id. */
  ghost predicate Lists(fs: seq<FilterProto>, name: Name, id: nat, config: MethodConfig) {
    exists i, k :: 0 <= i < |fs| && 0 <= k < |fs[i].methods| && fs[i].interfaceName == Some(name) &&
      fs[i].methods[k].methodId == Some(id) && Resolves(fs[i].methods[k], config)
  }

  /**
  From config to report, over whatever the map held before: for NUL-free names, a transaction that
  the program emits is handled if and only if its key is not a left-over one, and then with the very
  method config that the proto lists under the recorded interface name and transaction code.
  */
  lemma {:induction false} EmittedIsConfigured(protos: seq<seq<FilterProto>>, probes: Probes, base: Entries, entries: Entries,
                                               j: JString, code: nat)
    requires ResolvedFrom(probes, protos) && HoldsOver(entries, base, probes)
    requires forall p, n :: Configured(probes, p, n) ==> ValidUtf8(n) && NulFree(n)
    requires Matches(entries, j, code)
    ensures var found := HandlerConfig(probes, ToCKey(RecordedName(j)), code);
      && (found.Some? <==> ToCKey(RecordedName(j)) !in base)
      && (found.Some? ==> found.value.event.Some? || found.value.atom.Some?)
      && (found.Some? ==> exists p :: 0 <= p < |protos| && Lists(protos[p], RecordedName(j), code, found.value))
  {
    if ToCKey(RecordedName(j)) in base {
      LeftOverMisses(probes, base, j, code);
    } else {
      ResolvedIsWellResolved(probes, protos);
      forall p, n | Configured(probes, p, n)
        ensures !NulPadded(n)
      {
        NulFreeIsNotPadded(n);
      }
      MatchHasItsConfig(probes, base, entries, j, code);
      var p :| Configured(probes, p, RecordedName(j)) && code in probes[p][RecordedName(j)] &&
        HandlerConfig(probes, ToCKey(RecordedName(j)), code) == Some(probes[p][RecordedName(j)][code]);
      ResolvedIsListed(probes, protos, p, RecordedName(j), code);
    }
  }

  /** Every resolved method is one that the proto lists. */
  lemma {:induction false} ResolvedIsListed(probes: Probes, protos: seq<seq<FilterProto>>, p: nat, n: Name, code: nat)
    requires ResolvedFrom(probes, protos) && Configured(probes, p, n) && code in probes[p][n]
    ensures p < |protos| && Lists(protos[p], n, code, probes[p][n][code])
    ensures probes[p][n][code].event.Some? || probes[p][n][code].atom.Some?
  {
    var i :| 0 <= i < |protos[p]| && protos[p][i].interfaceName == Some(n);
    var f := protos[p][i];
    assert ValidFilter(f) && HoldsFilter(probes[p], f);
    var k :| 0 <= k < |f.methods| && f.methods[k].methodId == Some(code);
    assert HoldsMethod(probes[p][n], f.methods[k]);
    MethodOfResolves(f.methods[k]);
  }
}
