/**
The BPF side of bitmap tracking. `bitmap_creation_for_snapshot` reserves its record, then updates
`active_bitmaps`; `apply_free_function` looks up and deletes, then reserves. Ring records are consumed
in the order they were reserved, so each program is two steps here, and steps of any number of
programs interleave. What is claimed of a pointer rests on `SerialFor` that pointer alone: the process
frees a bitmap only after its creation probe has returned and reuses the address only after the free
probe has. Creations may overlap each other, and other pointers may do as they like.
*/
module BitmapKernel {
  import opened BitmapHandler

  datatype Program =
    | AllocReserved(ptr: nat)  // record reserved, table not yet updated
    | FreeDeleted(ptr: nat)    // entry deleted, record not yet reserved
    | Finished

  datatype KernelState = KernelState(active: set<nat>, ring: seq<BitmapEvent>, running: seq<Program>)

  const BOOT := KernelState({}, [], [])

  datatype Step =
    | AllocBegin(event: BitmapEvent, reserved: bool)
    | AllocEnd(i: nat, stored: bool)          // BPF_NOEXIST update; may fail on a full table
    | FreeBegin(ptr: nat)
    | FreeEnd(i: nat, event: BitmapEvent, reserved: bool)  // the record's size field is whatever the ring memory held
    | Other(event: BitmapEvent)

  predicate Enabled(k: KernelState, step: Step) {
    match step
    case AllocBegin(event, _) => event.kind == K_ALLOCATION
    case AllocEnd(i, _) => i < |k.running| && k.running[i].AllocReserved?
    case FreeBegin(_) => true
    case FreeEnd(i, event, _) =>
      i < |k.running| && k.running[i].FreeDeleted? &&
      event.kind == K_DEALLOCATION && event.nativePtr == k.running[i].ptr
    case Other(event) => event.kind != K_ALLOCATION && event.kind != K_DEALLOCATION
  }

  function Apply(k: KernelState, step: Step): KernelState
    requires Enabled(k, step)
  {
    match step
    case AllocBegin(event, reserved) =>
      if reserved then k.(ring := k.ring + [event], running := k.running + [AllocReserved(event.nativePtr)]) else k
    case AllocEnd(i, stored) =>
      k.(active := if stored then k.active + {k.running[i].ptr} else k.active, running := k.running[i := Finished])
    case FreeBegin(ptr) =>
      if ptr in k.active then k.(active := k.active - {ptr}, running := k.running + [FreeDeleted(ptr)]) else k
    case FreeEnd(i, event, reserved) =>
      k.(ring := if reserved then k.ring + [event] else k.ring, running := k.running[i := Finished])
    case Other(event) => k.(ring := k.ring + [event])
  }

  /** Program `i` is at work on the pointer. */
  ghost predicate RunsOn(k: KernelState, i: int, ptr: nat) {
    0 <= i < |k.running| && !k.running[i].Finished? && k.running[i].ptr == ptr
  }

  ghost predicate Busy(k: KernelState, ptr: nat) {
    exists i :: RunsOn(k, i, ptr)
  }

  ghost predicate BeingFreed(k: KernelState, ptr: nat) {
    exists i :: RunsOn(k, i, ptr) && k.running[i].FreeDeleted?
  }

  /** A free of this pointer overlaps no other program on it. */
  ghost predicate SerialStep(k: KernelState, step: Step, ptr: nat) {
    match step
    case AllocBegin(event, _) => event.nativePtr == ptr ==> !BeingFreed(k, ptr)
    case FreeBegin(p) => p == ptr ==> !Busy(k, ptr)
    case _ => true
  }

  /** The step loses what the handler or the table should have learnt about this pointer. */
  ghost predicate Loses(k: KernelState, step: Step, ptr: nat)
    requires Enabled(k, step)
  {
    match step
    case AllocEnd(i, stored) => k.running[i].ptr == ptr && !stored && ptr !in k.active
    case FreeEnd(i, _, reserved) => k.running[i].ptr == ptr && !reserved
    case _ => false
  }

  ghost predicate IsRun(k: KernelState, run: seq<Step>)
    decreases |run|
  {
    run == [] || (Enabled(k, run[0]) && IsRun(Apply(k, run[0]), run[1..]))
  }

  ghost predicate SerialFor(k: KernelState, run: seq<Step>, ptr: nat)
    requires IsRun(k, run)
    decreases |run|
  {
    run == [] || (SerialStep(k, run[0], ptr) && SerialFor(Apply(k, run[0]), run[1..], ptr))
  }

  ghost predicate LosslessFor(k: KernelState, run: seq<Step>, ptr: nat)
    requires IsRun(k, run)
    decreases |run|
  {
    run == [] || (!Loses(k, run[0], ptr) && LosslessFor(Apply(k, run[0]), run[1..], ptr))
  }

  ghost function Exec(k: KernelState, run: seq<Step>): KernelState
    requires IsRun(k, run)
    decreases |run|
  {
    if run == [] then k else Exec(Apply(k, run[0]), run[1..])
  }

  // ----- what the ring says is live -----

  function Live(ring: seq<BitmapEvent>): set<nat> {
    if ring == [] then {}
    else
      var e, before := ring[|ring| - 1], Live(ring[..|ring| - 1]);
      if e.kind == K_ALLOCATION then before + {e.nativePtr}
      else if e.kind == K_DEALLOCATION then before - {e.nativePtr}
      else before
  }

  lemma {:induction false} LiveAppend(ring: seq<BitmapEvent>, e: BitmapEvent)
    ensures Live(ring + [e]) ==
      if e.kind == K_ALLOCATION then Live(ring) + {e.nativePtr}
      else if e.kind == K_DEALLOCATION then Live(ring) - {e.nativePtr}
      else Live(ring)
  {
    assert (ring + [e])[..|ring|] == ring;
  }

  /** The allocation at `a` is of `ptr` and nothing after it frees `ptr`. */
  ghost predicate LastAllocated(ring: seq<BitmapEvent>, ptr: nat, a: int) {
    && 0 <= a < |ring| && ring[a].kind == K_ALLOCATION && ring[a].nativePtr == ptr
    && (forall j :: a < j < |ring| ==> !(ring[j].kind == K_DEALLOCATION && ring[j].nativePtr == ptr))
  }

  lemma {:induction false} LiveIff(ring: seq<BitmapEvent>, ptr: nat)
    ensures ptr in Live(ring) <==> exists a :: LastAllocated(ring, ptr, a)
  {
    if ring != [] {
      var n := |ring| - 1;
      var front := ring[..n];
      LiveIff(front, ptr);
      if a :| LastAllocated(front, ptr, a) {
        assert ptr in Live(ring) ==> LastAllocated(ring, ptr, a);
      }
      if a :| LastAllocated(ring, ptr, a) {
        assert a < n ==> LastAllocated(front, ptr, a);
      }
      if ring[n].kind == K_ALLOCATION && ring[n].nativePtr == ptr {
        assert LastAllocated(ring, ptr, n);
      }
    }
  }

  /** Every deallocation record of the pointer follows an allocation of it with no deallocation between. */
  ghost predicate FreesArePaired(ring: seq<BitmapEvent>, ptr: nat) {
    forall d :: 0 <= d < |ring| && ring[d].kind == K_DEALLOCATION && ring[d].nativePtr == ptr ==> ptr in Live(ring[..d])
  }

  lemma {:induction false} PairedAppend(ring: seq<BitmapEvent>, e: BitmapEvent, ptr: nat)
    requires FreesArePaired(ring, ptr)
    requires e.kind == K_DEALLOCATION && e.nativePtr == ptr ==> ptr in Live(ring)
    ensures FreesArePaired(ring + [e], ptr)
  {
    var ring' := ring + [e];
    assert ring[..|ring|] == ring;
    forall d | 0 <= d < |ring'| && ring'[d].kind == K_DEALLOCATION && ring'[d].nativePtr == ptr
      ensures ptr in Live(ring'[..d])
    {
      assert ring'[..d] == ring[..d];
    }
  }

  // ----- the invariant -----

  /** Programs at work on the pointer have it live, and one that frees it has it to itself, deleted. */
  ghost predicate RunningConsistent(k: KernelState, ptr: nat) {
    && (Busy(k, ptr) ==> ptr in Live(k.ring))
    && (BeingFreed(k, ptr) ==> ptr !in k.active)
    && (forall i, j :: RunsOn(k, i, ptr) && k.running[i].FreeDeleted? && RunsOn(k, j, ptr) ==> i == j)
  }

  ghost predicate Inv(k: KernelState, ptr: nat) {
    && (ptr in k.active ==> ptr in Live(k.ring))
    && FreesArePaired(k.ring, ptr)
    && RunningConsistent(k, ptr)
  }

  /** Live in the ring, and neither active nor in the hands of a running program. */
  ghost predicate Forgotten(k: KernelState, ptr: nat) {
    ptr in Live(k.ring) && ptr !in k.active && !Busy(k, ptr)
  }

  /** Starting a program leaves the others as they are. */
  lemma {:induction false} BeginRuns(k: KernelState, step: Step, ptr: nat, i: int)
    requires Enabled(k, step) && (step.AllocBegin? || step.FreeBegin? || step.Other?)
    ensures var k' := Apply(k, step);
      && (RunsOn(k', i, ptr) <==> RunsOn(k, i, ptr) || (i == |k.running| < |k'.running| && k'.running[i].ptr == ptr))
      && (RunsOn(k, i, ptr) ==> k'.running[i] == k.running[i])
  {
  }

  /** Ending a program leaves the others as they are. */
  lemma {:induction false} EndRuns(k: KernelState, step: Step, ptr: nat, i: int)
    requires Enabled(k, step) && (step.AllocEnd? || step.FreeEnd?)
    ensures var k' := Apply(k, step);
      && (RunsOn(k', i, ptr) <==> RunsOn(k, i, ptr) && i != step.i)
      && (RunsOn(k', i, ptr) ==> k'.running[i] == k.running[i])
  {
  }

  lemma {:induction false} RecordKeepsInv(k: KernelState, e: BitmapEvent, ptr: nat)
    requires Inv(k, ptr) && e.kind != K_DEALLOCATION
    ensures Inv(k.(ring := k.ring + [e]), ptr)
  {
    var k' := k.(ring := k.ring + [e]);
    LiveAppend(k.ring, e);
    PairedAppend(k.ring, e, ptr);
    assert forall i :: RunsOn(k', i, ptr) <==> RunsOn(k, i, ptr);
  }

  lemma {:induction false} BeginKeepsInv(k: KernelState, step: Step, ptr: nat)
    requires Inv(k, ptr) && Enabled(k, step) && SerialStep(k, step, ptr)
    requires step.AllocBegin? || step.FreeBegin? || step.Other?
    ensures Inv(Apply(k, step), ptr)
  {
    var k' := Apply(k, step);
    if step.AllocBegin? || step.Other? {
      LiveAppend(k.ring, step.event);
      RecordKeepsInv(k, step.event, ptr);
    }
    forall i
      ensures RunsOn(k', i, ptr) <==> RunsOn(k, i, ptr) || (i == |k.running| < |k'.running| && k'.running[i].ptr == ptr)
      ensures RunsOn(k, i, ptr) ==> k'.running[i] == k.running[i]
    {
      BeginRuns(k, step, ptr, i);
    }
  }

  lemma {:induction false} BeginForgetsNone(k: KernelState, step: Step, ptr: nat)
    requires Enabled(k, step) && (step.AllocBegin? || step.FreeBegin? || step.Other?)
    requires Forgotten(Apply(k, step), ptr)
    ensures Forgotten(k, ptr)
  {
    var k' := Apply(k, step);
    if step.AllocBegin? || step.Other? {
      LiveAppend(k.ring, step.event);
    }
    forall i
      ensures !RunsOn(k, i, ptr)
    {
      BeginRuns(k, step, ptr, i);
    }
    BeginRuns(k, step, ptr, |k.running|);
  }

  lemma {:induction false} AllocEndKeepsInv(k: KernelState, step: Step, ptr: nat)
    requires Inv(k, ptr) && Enabled(k, step) && step.AllocEnd?
    ensures Inv(Apply(k, step), ptr)
  {
    var k' := Apply(k, step);
    assert RunsOn(k, step.i, k.running[step.i].ptr);
    forall i
      ensures RunsOn(k', i, ptr) <==> RunsOn(k, i, ptr) && i != step.i
      ensures RunsOn(k', i, ptr) ==> k'.running[i] == k.running[i]
    {
      EndRuns(k, step, ptr, i);
    }
  }

  lemma {:induction false} FreeEndKeepsInv(k: KernelState, step: Step, ptr: nat)
    requires Inv(k, ptr) && Enabled(k, step) && step.FreeEnd?
    ensures Inv(Apply(k, step), ptr)
  {
    var k' := Apply(k, step);
    assert RunsOn(k, step.i, k.running[step.i].ptr);
    if step.reserved {
      LiveAppend(k.ring, step.event);
      PairedAppend(k.ring, step.event, ptr);
    }
    forall i
      ensures RunsOn(k', i, ptr) <==> RunsOn(k, i, ptr) && i != step.i
      ensures RunsOn(k', i, ptr) ==> k'.running[i] == k.running[i]
    {
      EndRuns(k, step, ptr, i);
    }
  }

  lemma {:induction false} EndForgetsNone(k: KernelState, step: Step, ptr: nat)
    requires Inv(k, ptr) && Enabled(k, step) && (step.AllocEnd? || step.FreeEnd?) && !Loses(k, step, ptr)
    requires Forgotten(Apply(k, step), ptr)
    ensures Forgotten(k, ptr)
  {
    if step.FreeEnd? && step.reserved {
      LiveAppend(k.ring, step.event);
    }
    assert k.running[step.i].ptr != ptr;
    forall i
      ensures !RunsOn(k, i, ptr)
    {
      EndRuns(k, step, ptr, i);
    }
  }

  lemma {:induction false} StepKeepsInv(k: KernelState, step: Step, ptr: nat)
    requires Inv(k, ptr) && Enabled(k, step) && SerialStep(k, step, ptr)
    ensures Inv(Apply(k, step), ptr)
    ensures !Loses(k, step, ptr) && Forgotten(Apply(k, step), ptr) ==> Forgotten(k, ptr)
  {
    if step.AllocEnd? || step.FreeEnd? {
      if step.AllocEnd? {
        AllocEndKeepsInv(k, step, ptr);
      } else {
        FreeEndKeepsInv(k, step, ptr);
      }
      if !Loses(k, step, ptr) && Forgotten(Apply(k, step), ptr) {
        EndForgetsNone(k, step, ptr);
      }
    } else {
      BeginKeepsInv(k, step, ptr);
      if Forgotten(Apply(k, step), ptr) {
        BeginForgetsNone(k, step, ptr);
      }
    }
  }

  lemma {:induction false} RunKeepsInv(k: KernelState, run: seq<Step>, ptr: nat)
    requires Inv(k, ptr) && IsRun(k, run) && SerialFor(k, run, ptr)
    ensures Inv(Exec(k, run), ptr)
    ensures LosslessFor(k, run, ptr) && Forgotten(Exec(k, run), ptr) ==> Forgotten(k, ptr)
    decreases |run|
  {
    if run != [] {
      StepKeepsInv(k, run[0], ptr);
      RunKeepsInv(Apply(k, run[0]), run[1..], ptr);
    }
  }

  // ----- kernel and handler -----

  lemma {:induction false} HandlerIsLive(uid: int, events: seq<BitmapEvent>, n: nat)
    requires n <= |events| && AllAccepted(events)
    ensures After(uid, events, n).bitmaps.Keys == Live(events[..n])
  {
    if n > 0 {
      HandlerIsLive(uid, events, n - 1);
      assert events[..n][..n - 1] == events[..n - 1];
    }
  }

  /** What the kernel table and the handler agree on about a pointer, once the ring is consumed. */
  ghost predicate Simulates(k: KernelState, live: set<nat>, ptr: nat) {
    && (ptr in k.active ==> ptr in live)
    && (forall d :: 0 <= d < |k.ring| && k.ring[d].kind == K_DEALLOCATION && k.ring[d].nativePtr == ptr ==>
          exists a :: LastAllocated(k.ring[..d], ptr, a))
  }

  /**
  Kernel/user simulation, pointer by pointer: in every run in which no free of the pointer overlaps
  another program on it, whatever fails, once the handler has consumed the ring the pointer is live in
  it if it is active, and every deallocation of it followed an allocation with no deallocation
  between. If no table update and no deallocation record of the pointer is lost, then whenever no
  program is at work on it, it is live exactly if it is active.
  */
  lemma {:induction false} KernelUserSimulation(run: seq<Step>, uid: int, ptr: nat)
    requires IsRun(BOOT, run) && AllAccepted(Exec(BOOT, run).ring) && SerialFor(BOOT, run, ptr)
    ensures var k := Exec(BOOT, run);
      var live := After(uid, k.ring, |k.ring|).bitmaps.Keys;
      && Simulates(k, live, ptr)
      && (LosslessFor(BOOT, run, ptr) && !Busy(k, ptr) ==> (ptr in k.active <==> ptr in live))
  {
    var k := Exec(BOOT, run);
    RunKeepsInv(BOOT, run, ptr);
    HandlerIsLive(uid, k.ring, |k.ring|);
    assert k.ring[..|k.ring|] == k.ring;
    forall d | 0 <= d < |k.ring| && k.ring[d].kind == K_DEALLOCATION && k.ring[d].nativePtr == ptr
      ensures exists a :: LastAllocated(k.ring[..d], ptr, a)
    {
      LiveIff(k.ring[..d], ptr);
    }
  }

  /** The sets themselves: if all pointers are serial and nothing is lost, the two are equal when no program runs. */
  lemma {:induction false} TablesAgree(run: seq<Step>, uid: int)
    requires IsRun(BOOT, run) && AllAccepted(Exec(BOOT, run).ring)
    requires forall ptr :: SerialFor(BOOT, run, ptr)
    ensures var k := Exec(BOOT, run);
      var live := After(uid, k.ring, |k.ring|).bitmaps.Keys;
      && k.active <= live
      && ((forall ptr :: LosslessFor(BOOT, run, ptr) && !Busy(k, ptr)) ==> k.active == live)
  {
    forall ptr: nat
      ensures var k := Exec(BOOT, run);
        var live := After(uid, k.ring, |k.ring|).bitmaps.Keys;
        && Simulates(k, live, ptr)
        && (LosslessFor(BOOT, run, ptr) && !Busy(k, ptr) ==> (ptr in k.active <==> ptr in live))
    {
      KernelUserSimulation(run, uid, ptr);
    }
  }

  /** Serialisation is needed: reuse of an address before its free probe has reserved leaves an active pointer that is not live. */
  lemma {:induction false} OverlapForgets(alloc: BitmapEvent, free: BitmapEvent)
    requires alloc.kind == K_ALLOCATION && free.kind == K_DEALLOCATION && alloc.nativePtr == free.nativePtr
    ensures
      var k1 := Apply(BOOT, AllocBegin(alloc, true));
      var k2 := Apply(k1, AllocEnd(0, true));
      var k3 := Apply(k2, FreeBegin(alloc.nativePtr));
      var k4 := Apply(k3, AllocBegin(alloc, true));
      var k5 := Apply(k4, AllocEnd(2, true));
      var k6 := Apply(k5, FreeEnd(1, free, true));
      alloc.nativePtr in k6.active && alloc.nativePtr !in Live(k6.ring)
  {
    LiveAppend([alloc, alloc], free);
    assert [alloc, alloc] + [free] == [alloc, alloc, free];
  }
}
