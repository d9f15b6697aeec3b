/** The V1 bitmap allocation handler: live bitmaps, a running total, its peak and the snapshot taken there. */
module BitmapHandler {
  import opened Common
  import opened BinderKeys

  const K_ALLOCATION: nat := 0
  const K_DEALLOCATION: nat := 1
  const K_ACTIVITY_START: nat := 2
  const K_BITMAP_SCALED: nat := 3

  const I32_MAX: nat := 0x7FFF_FFFF

  type U32 = x: int | 0 <= x < 0x1_0000_0000

  datatype BitmapEvent = BitmapEvent(
    kind: U32,
    width: U32,
    height: U32,
    scaledWidth: U32,
    scaledHeight: U32,
    pixelStorageType: U32,
    bitmapSize: U32,
    nativePtr: nat,
    activityName: seq<Byte>)

  datatype Metadata = Metadata(uid: int, width: nat, height: nat, pixelStorageType: nat, activityName: Name)

  datatype Atom =
    | Allocated(uid: int, width: nat, height: nat)
    | Scaled(metadata: Metadata, scaledWidth: nat, scaledHeight: nat)
    | Snapshot(metadata: Metadata, snapshotId: int, snapshotType: nat)

  /** `peak` is the live collection that the stored snapshot was taken from. */
  datatype State = State(
    bitmaps: map<nat, Metadata>,
    max: int,
    current: int,
    peak: map<nat, Metadata>,
    activity: Name)

  const INITIAL := State(map[], 0, 0, map[], [])

  predicate FitsI32(e: BitmapEvent) {
    e.width <= I32_MAX && e.height <= I32_MAX && e.pixelStorageType <= I32_MAX
  }

  function MetadataOf(uid: int, activity: Name, e: BitmapEvent): Metadata {
    Metadata(uid, e.width, e.height, e.pixelStorageType, activity)
  }

  /** The event is one that `on_item` takes without error, given that writing an atom succeeds. */
  predicate Accepted(e: BitmapEvent) {
    if e.kind == K_ALLOCATION then FitsI32(e)
    else if e.kind == K_ACTIVITY_START then BytesAsStr(e.activityName).Ok?
    else if e.kind == K_BITMAP_SCALED then FitsI32(e) && e.scaledWidth <= I32_MAX && e.scaledHeight <= I32_MAX
    else true
  }

  function Handle(s: State, uid: int, e: BitmapEvent): State
    requires Accepted(e)
  {
    if e.kind == K_ALLOCATION then
      var bitmaps := s.bitmaps[e.nativePtr := MetadataOf(uid, s.activity, e)];
      var current := s.current + e.bitmapSize;
      if current > s.max then State(bitmaps, current, current, bitmaps, s.activity)
      else s.(bitmaps := bitmaps, current := current)
    else if e.kind == K_DEALLOCATION then
      s.(bitmaps := s.bitmaps - {e.nativePtr}, current := s.current - e.bitmapSize)
    else if e.kind == K_ACTIVITY_START then
      s.(activity := BytesAsStr(e.activityName).value)
    else s
  }

  /** `values` are the values of `m` in some hash order. */
  ghost predicate ListsValues(values: seq<Metadata>, m: map<nat, Metadata>) {
    exists keys :: IsOrderOf(keys, values, m)
  }

  ghost predicate IsOrderOf(keys: seq<nat>, values: seq<Metadata>, m: map<nat, Metadata>) {
    && Enumerates(keys, m.Keys) && |keys| == |values|
    && (forall i :: 0 <= i < |keys| ==> values[i] == m[keys[i]])
  }

  method CollectValues(m: map<nat, Metadata>) returns (values: seq<Metadata>)
    ensures ListsValues(values, m)
  {
    values := [];
    ghost var keys: seq<nat> := [];
    var rest := m.Keys;
    while rest != {}
      invariant rest <= m.Keys
      invariant Enumerates(keys, m.Keys - rest) && |keys| == |values|
      invariant forall i :: 0 <= i < |keys| ==> keys[i] in m && values[i] == m[keys[i]]
      decreases rest
    {
      var key := AnyOf(rest);
      values := values + [m[key]];
      keys := keys + [key];
      rest := rest - {key};
    }
    assert m.Keys - rest == m.Keys;
    assert IsOrderOf(keys, values, m);
  }

  function SnapshotAtoms(values: seq<Metadata>, id: int, kind: nat): seq<Atom> {
    seq(|values|, i requires 0 <= i < |values| => Snapshot(values[i], id, kind))
  }

  class BitmapAllocationHandlerV1 {
    var bitmaps: map<nat, Metadata>
    var maxTotalBitmapSize: int
    var currentTotalBitmapSize: int
    var bitmapSnapshotAtMaxSize: seq<Metadata>
    var activityName: Name
    var written: seq<Atom>

    ghost predicate Represents(s: State)
      reads this
    {
      && bitmaps == s.bitmaps && maxTotalBitmapSize == s.max && currentTotalBitmapSize == s.current
      && ListsValues(bitmapSnapshotAtMaxSize, s.peak) && activityName == s.activity
    }

    constructor ()
      ensures Represents(INITIAL) && written == []
    {
      bitmaps, maxTotalBitmapSize, currentTotalBitmapSize := map[], 0, 0;
      bitmapSnapshotAtMaxSize, activityName, written := [], [], [];
      new;
      assert IsOrderOf([], [], map[]);
    }

    /** An error leaves the handler as it was. `writeOk` is the writer's answer. */
    method OnItem(ghost s: State, uid: int, e: BitmapEvent, writeOk: bool) returns (ok: bool)
      requires Represents(s)
      modifies this
      ensures ok <==> Accepted(e) && (writeOk || (e.kind != K_ALLOCATION && e.kind != K_BITMAP_SCALED))
      ensures if ok then Represents(Handle(s, uid, e)) else Represents(s)
      ensures written == old(written) + (
        if !ok then []
        else if e.kind == K_ALLOCATION then [Allocated(uid, e.width, e.height)]
        else if e.kind == K_BITMAP_SCALED then
          [Scaled(Metadata(uid := uid, width := e.width, height := e.height, pixelStorageType := e.pixelStorageType,
                           activityName := s.activity), e.scaledWidth, e.scaledHeight)]
        else [])
    {
      if e.kind == K_ALLOCATION {
        if e.width > I32_MAX || e.height > I32_MAX || e.pixelStorageType > I32_MAX || !writeOk {
          return false;
        }
        written := written + [Allocated(uid, e.width, e.height)];
        bitmaps := bitmaps[e.nativePtr := MetadataOf(uid, activityName, e)];
        currentTotalBitmapSize := currentTotalBitmapSize + e.bitmapSize;
        if currentTotalBitmapSize > maxTotalBitmapSize {
          maxTotalBitmapSize := currentTotalBitmapSize;
          bitmapSnapshotAtMaxSize := CollectValues(bitmaps);
        }
      } else if e.kind == K_DEALLOCATION {
        bitmaps := bitmaps - {e.nativePtr};
        currentTotalBitmapSize := currentTotalBitmapSize - e.bitmapSize;
      } else if e.kind == K_ACTIVITY_START {
        var name := BytesAsStr(e.activityName);
        if name.Err? {
          return false;
        }
        activityName := name.value;
      } else if e.kind == K_BITMAP_SCALED {
        if !FitsI32(e) || e.scaledWidth > I32_MAX || e.scaledHeight > I32_MAX || !writeOk {
          return false;
        }
        written := written + [Scaled(MetadataOf(uid, activityName, e), e.scaledWidth, e.scaledHeight)];
      }
      ok := true;
    }

    method WriteSnapshot(values: seq<Metadata>, id: int, kind: nat)
      modifies this`written
      ensures written == old(written) + SnapshotAtoms(values, id, kind)
    {
      var i := 0;
      while i < |values|
        invariant 0 <= i <= |values|
        invariant written == old(written) + SnapshotAtoms(values[..i], id, kind)
      {
        SnapshotAtomsExtend(values, i, id, kind);
        written := written + [Snapshot(values[i], id, kind)];
        i := i + 1;
      }
      assert values[..i] == values;
    }

    /** Reports the snapshot taken at the peak and the bitmaps still live, each bitmap once. */
    method OnFinished(ghost s: State, peakId: int, finalId: int) returns (ghost live: seq<Metadata>)
      requires Represents(s)
      modifies this`written
      ensures ListsValues(live, s.bitmaps)
      ensures written == old(written) + SnapshotAtoms(bitmapSnapshotAtMaxSize, peakId, 1) + SnapshotAtoms(live, finalId, 2)
    {
      WriteSnapshot(bitmapSnapshotAtMaxSize, peakId, 1);
      var values := CollectValues(bitmaps);
      live := values;
      WriteSnapshot(values, finalId, 2);
    }
  }

  lemma {:induction false} SnapshotAtomsExtend(values: seq<Metadata>, i: nat, id: int, kind: nat)
    requires i < |values|
    ensures SnapshotAtoms(values[..i + 1], id, kind) == SnapshotAtoms(values[..i], id, kind) + [Snapshot(values[i], id, kind)]
  {
  }

  // ----- whole runs -----

  ghost predicate AllAccepted(events: seq<BitmapEvent>) {
    forall i :: 0 <= i < |events| ==> Accepted(events[i])
  }

  /** The state after the first `n` events. */
  ghost function After(uid: int, events: seq<BitmapEvent>, n: nat): State
    requires n <= |events| && AllAccepted(events)
  {
    if n == 0 then INITIAL else Handle(After(uid, events, n - 1), uid, events[n - 1])
  }

  function Delta(e: BitmapEvent): int {
    if e.kind == K_ALLOCATION then e.bitmapSize else if e.kind == K_DEALLOCATION then -(e.bitmapSize as int) else 0
  }

  /** The sizes allocated minus the sizes freed by the first `n` events. */
  function Total(events: seq<BitmapEvent>, n: nat): int
    requires n <= |events|
  {
    if n == 0 then 0 else Total(events, n - 1) + Delta(events[n - 1])
  }

  /** Prefix `p` is the first at which the total reaches its maximum over the first `n` events. */
  ghost predicate FirstPeak(events: seq<BitmapEvent>, n: nat, p: nat)
    requires p <= n <= |events|
  {
    && (forall k :: 0 <= k <= n ==> Total(events, k) <= Total(events, p))
    && (forall k :: 0 <= k < p ==> Total(events, k) < Total(events, p))
  }

  /**
  Snapshot at peak: the recorded maximum is the largest prefix total (the empty prefix included), and
  the snapshot is the live collection at the earliest prefix that reaches it.
  */
  lemma {:induction false} SnapshotAtPeak(uid: int, events: seq<BitmapEvent>, n: nat) returns (p: nat)
    requires n <= |events| && AllAccepted(events)
    ensures p <= n && FirstPeak(events, n, p)
    ensures var s := After(uid, events, n);
      s.current == Total(events, n) && s.max == Total(events, p) && s.peak == After(uid, events, p).bitmaps
  {
    if n == 0 {
      p := 0;
    } else {
      p := SnapshotAtPeak(uid, events, n - 1);
      if Total(events, n) > Total(events, p) {
        p := n;
      }
    }
  }

  /** The name of the last activity started among the first `n` events. */
  function ActivityAt(events: seq<BitmapEvent>, n: nat): Name
    requires n <= |events|
  {
    if n == 0 then []
    else if events[n - 1].kind == K_ACTIVITY_START && BytesAsStr(events[n - 1].activityName).Ok?
    then BytesAsStr(events[n - 1].activityName).value
    else ActivityAt(events, n - 1)
  }

  /** Event `a` allocates `ptr`, and nothing after it among the first `n` events allocates or frees it. */
  ghost predicate LatestFor(events: seq<BitmapEvent>, n: nat, ptr: nat, a: int)
    requires n <= |events|
  {
    && 0 <= a < n && events[a].kind == K_ALLOCATION && events[a].nativePtr == ptr
    && (forall i :: a < i < n && (events[i].kind == K_ALLOCATION || events[i].kind == K_DEALLOCATION) ==>
          events[i].nativePtr != ptr)
  }

  lemma {:induction false} ActivityIsLatest(uid: int, events: seq<BitmapEvent>, n: nat)
    requires n <= |events| && AllAccepted(events)
    ensures After(uid, events, n).activity == ActivityAt(events, n)
  {
    if n > 0 {
      ActivityIsLatest(uid, events, n - 1);
    }
  }

  /** An event of another pointer or another kind leaves the latest allocation where it is. */
  lemma {:induction false} LatestUntouched(events: seq<BitmapEvent>, n: nat, ptr: nat, a: int)
    requires 0 < n <= |events|
    requires events[n - 1].nativePtr != ptr || (events[n - 1].kind != K_ALLOCATION && events[n - 1].kind != K_DEALLOCATION)
    ensures LatestFor(events, n, ptr, a) <==> LatestFor(events, n - 1, ptr, a)
  {
  }

  lemma {:induction false} LiveIfLatest(uid: int, events: seq<BitmapEvent>, n: nat, ptr: nat, a: int)
    requires n <= |events| && AllAccepted(events) && LatestFor(events, n, ptr, a)
    ensures var s := After(uid, events, n);
      ptr in s.bitmaps && s.bitmaps[ptr] == MetadataOf(uid, ActivityAt(events, a), events[a])
  {
    ActivityIsLatest(uid, events, n - 1);
    if a < n - 1 {
      LatestUntouched(events, n, ptr, a);
      LiveIfLatest(uid, events, n - 1, ptr, a);
    }
  }

  lemma {:induction false} LatestIfLive(uid: int, events: seq<BitmapEvent>, n: nat, ptr: nat) returns (a: int)
    requires n <= |events| && AllAccepted(events) && ptr in After(uid, events, n).bitmaps
    ensures LatestFor(events, n, ptr, a)
  {
    if events[n - 1].kind == K_ALLOCATION && events[n - 1].nativePtr == ptr {
      a := n - 1;
    } else {
      a := LatestIfLive(uid, events, n - 1, ptr);
      LatestUntouched(events, n, ptr, a);
    }
  }

  /** Each live bitmap is described by its latest allocation, and by the activity that was running then. */
  lemma {:induction false} LiveMetadata(uid: int, events: seq<BitmapEvent>, n: nat, ptr: nat)
    requires n <= |events| && AllAccepted(events)
    ensures After(uid, events, n).activity == ActivityAt(events, n)
    ensures ptr in After(uid, events, n).bitmaps <==> exists a :: LatestFor(events, n, ptr, a)
    ensures forall a :: LatestFor(events, n, ptr, a) ==>
      var m := After(uid, events, n).bitmaps[ptr];
      && m.uid == uid && m.width == events[a].width && m.height == events[a].height
      && m.pixelStorageType == events[a].pixelStorageType && m.activityName == ActivityAt(events, a)
  {
    ActivityIsLatest(uid, events, n);
    if ptr in After(uid, events, n).bitmaps {
      var a := LatestIfLive(uid, events, n, ptr);
    }
    forall a | LatestFor(events, n, ptr, a)
      ensures ptr in After(uid, events, n).bitmaps
      ensures After(uid, events, n).bitmaps[ptr] == MetadataOf(uid, ActivityAt(events, a), events[a])
    {
      LiveIfLatest(uid, events, n, ptr, a);
    }
  }

  // ----- sizes -----

  /** The running total cannot overflow an i64 before 2^31 events. */
  lemma {:induction false} TotalFits(events: seq<BitmapEvent>, n: nat)
    requires n <= |events|
    ensures -(n * 0xFFFF_FFFF) <= Total(events, n) <= n * 0xFFFF_FFFF
    ensures n < 0x8000_0000 ==> -I64_MAX <= Total(events, n) <= I64_MAX
  {
    if n > 0 {
      TotalFits(events, n - 1);
    }
  }

  /** The size each live bitmap was last allocated with. */
  ghost function Sizes(events: seq<BitmapEvent>, n: nat): map<nat, nat>
    requires n <= |events|
  {
    if n == 0 then map[]
    else
      var e, before := events[n - 1], Sizes(events, n - 1);
      if e.kind == K_ALLOCATION then before[e.nativePtr := e.bitmapSize]
      else if e.kind == K_DEALLOCATION then before - {e.nativePtr}
      else before
  }

  ghost function SumOf(m: map<nat, nat>): nat
    decreases m.Keys
  {
    if m.Keys == {} then 0
    else
      var k :| k in m.Keys;
      m[k] + SumOf(m - {k})
  }

  lemma {:induction false} SumRemove(m: map<nat, nat>, k: nat)
    requires k in m
    ensures SumOf(m) == m[k] + SumOf(m - {k})
    decreases m.Keys
  {
    var c :| c in m.Keys && SumOf(m) == m[c] + SumOf(m - {c});
    if c != k {
      SumRemove(m - {c}, k);
      SumRemove(m - {k}, c);
      assert m - {c} - {k} == m - {k} - {c};
    }
  }

  lemma {:induction false} SumInsert(m: map<nat, nat>, k: nat, v: nat)
    ensures SumOf(m[k := v]) == v + SumOf(m - {k})
  {
    SumRemove(m[k := v], k);
    assert m[k := v] - {k} == m - {k};
  }

  function SizeIn(m: map<nat, nat>, k: nat): nat {
    if k in m then m[k] else 0
  }

  lemma {:induction false} SumWithout(m: map<nat, nat>, k: nat)
    ensures SumOf(m) == SizeIn(m, k) + SumOf(m - {k})
  {
    if k in m {
      SumRemove(m, k);
    } else {
      assert m - {k} == m;
    }
  }

  /** What the total gains beyond the live sizes: sizes replaced unfreed, and sizes misreported when freed. */
  ghost function Drift(events: seq<BitmapEvent>, n: nat): int
    requires n <= |events|
  {
    if n == 0 then 0
    else
      var e, before := events[n - 1], Drift(events, n - 1);
      var known := SizeIn(Sizes(events, n - 1), e.nativePtr);
      if e.kind == K_ALLOCATION then before + known
      else if e.kind == K_DEALLOCATION then before + known - e.bitmapSize
      else before
  }

  /** On every run the running total is the sum of the live sizes plus the drift. */
  lemma {:induction false} TotalIsLiveSizesPlusDrift(events: seq<BitmapEvent>, n: nat)
    requires n <= |events|
    ensures Total(events, n) == SumOf(Sizes(events, n)) + Drift(events, n)
  {
    if n > 0 {
      TotalIsLiveSizesPlusDrift(events, n - 1);
      var e, before := events[n - 1], Sizes(events, n - 1);
      SumWithout(before, e.nativePtr);
      SumInsert(before, e.nativePtr, e.bitmapSize);
    }
  }

  /** Event `i` replaces no size in an allocation, and takes back exactly the known size in a free. */
  ghost predicate Balanced(events: seq<BitmapEvent>, i: int)
    requires 0 <= i < |events|
  {
    var known := SizeIn(Sizes(events, i), events[i].nativePtr);
    && (events[i].kind == K_ALLOCATION ==> known == 0)
    && (events[i].kind == K_DEALLOCATION ==> events[i].bitmapSize == known)
  }

  /** The total has been the sum of the live sizes at every prefix up to `n`. */
  ghost predicate Conserved(events: seq<BitmapEvent>, n: nat)
    requires n <= |events|
  {
    forall k :: 0 <= k <= n ==> Total(events, k) == SumOf(Sizes(events, k))
  }

  /**
  The total is the sum of the live sizes throughout if and only if every event is balanced: a size
  is never allocated over another, and each free carries the size that its allocation did.
  */
  lemma {:induction false} ConservedIff(events: seq<BitmapEvent>, n: nat)
    requires n <= |events|
    ensures Conserved(events, n) <==> forall i :: 0 <= i < n ==> Balanced(events, i)
  {
    if n > 0 {
      ConservedIff(events, n - 1);
      TotalIsLiveSizesPlusDrift(events, n - 1);
      TotalIsLiveSizesPlusDrift(events, n);
      assert Conserved(events, n) <==> Conserved(events, n - 1) && Total(events, n) == SumOf(Sizes(events, n));
      if Drift(events, n - 1) == 0 {
        assert Drift(events, n) == 0 <==> Balanced(events, n - 1);
      }
    }
  }

  /** A bitmap allocated and freed, the free's record with another size: nothing is live and the total is not zero. */
  lemma {:induction false} MisreportedFreeDrifts(uid: int, alloc: BitmapEvent, free: BitmapEvent)
    requires alloc.kind == K_ALLOCATION && free.kind == K_DEALLOCATION && alloc.nativePtr == free.nativePtr
    requires FitsI32(alloc) && alloc.bitmapSize != free.bitmapSize
    ensures AllAccepted([alloc, free])
    ensures var s := After(uid, [alloc, free], 2);
      s.bitmaps == map[] && s.current == alloc.bitmapSize - free.bitmapSize != 0
  {
    var events := [alloc, free];
    assert After(uid, events, 0) == INITIAL;
    assert After(uid, events, 1) == Handle(INITIAL, uid, alloc);
    assert After(uid, events, 2) == Handle(After(uid, events, 1), uid, free);
  }

  /** No bitmap is allocated while live, and each free is of a live bitmap with the size it was allocated with. */
  ghost predicate SizesFaithful(events: seq<BitmapEvent>) {
    forall i :: 0 <= i < |events| ==>
      && (events[i].kind == K_ALLOCATION ==> events[i].nativePtr !in Sizes(events, i))
      && (events[i].kind == K_DEALLOCATION ==>
            events[i].nativePtr in Sizes(events, i) && Sizes(events, i)[events[i].nativePtr] == events[i].bitmapSize)
  }

  /** Size conservation: on faithful traces the running total is the sum of the live sizes. */
  lemma {:induction false} SizeConservation(uid: int, events: seq<BitmapEvent>, n: nat)
    requires n <= |events| && AllAccepted(events) && SizesFaithful(events)
    ensures After(uid, events, n).current == SumOf(Sizes(events, n))
    ensures After(uid, events, n).bitmaps.Keys == Sizes(events, n).Keys
    ensures Drift(events, n) == 0
  {
    if n > 0 {
      SizeConservation(uid, events, n - 1);
      TotalIsLiveSizesPlusDrift(events, n);
      var p := SnapshotAtPeak(uid, events, n);
    }
  }
}
