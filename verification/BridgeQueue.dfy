/**
The event buffer of the bridge service. Binder threads append under the lock and post a flush
outside it; the handler thread runs flushes and binds the consumer; each connection drains batches
until it sees an empty one. `EventBuffer` is the code that runs under the lock; `Apply` is the step
system over every interleaving of the lock regions, posts, binds and deliveries.
*/
module BridgeQueue {
  import opened Common
  import opened EventCodec

  const EVENT_BUFFER_CAPACITY: nat := 128

  // ----- code under mLock -----

  class EventBuffer {
    var events: seq<Event>

    constructor ()
      ensures events == []
    {
      events := [];
    }

    method Add(event: Event) returns (size: nat)
      modifies this
      ensures events == old(events) + [event]
      ensures size == |events|
    {
      events := events + [event];
      size := |events|;
    }

    method GetNextBatch() returns (batch: seq<Event>)
      modifies this
      ensures batch == NextBatch(old(events))
      ensures batch + events == old(events)
    {
      batch := [];
      if events == [] {
        return;
      }
      var i := 0;
      while i < EVENT_BUFFER_CAPACITY && events != []
        invariant i <= EVENT_BUFFER_CAPACITY
        invariant i <= |old(events)| && batch == old(events)[..i] && events == old(events)[i..]
      {
        batch := batch + [events[0]];
        events := events[1..];
        i := i + 1;
      }
    }
  }

  /** The longest prefix of at most EVENT_BUFFER_CAPACITY events. */
  function NextBatch(buffer: seq<Event>): (batch: seq<Event>)
    ensures batch <= buffer && |batch| <= EVENT_BUFFER_CAPACITY
    ensures batch == buffer || |batch| == EVENT_BUFFER_CAPACITY
  {
    buffer[..Min(EVENT_BUFFER_CAPACITY, |buffer|)]
  }

  datatype Posting = Immediate | Delayed | Nothing

  function PostingFor(flush: bool, size: nat): Posting {
    if flush || size >= EVENT_BUFFER_CAPACITY then Immediate
    else if size == 1 then Delayed
    else Nothing
  }

  // ----- the step system -----

  /** A thread inside `enqueueEvent`. */
  datatype Enqueuer =
    | Arrived(event: Event, flush: bool)  // before the consumer check and the lock
    | Added(flush: bool, size: nat)       // past the lock, not yet posted
    | Returned

  /** The handler thread: between runnables, or at one of the three points of `bindConsumerIfNeeded`. */
  datatype Looper = Idle | AtConsumerCheck | AtEmptyCheck | AtBind

  datatype Connection =
    | Bound                        // bind accepted, callback not yet run
    | Polling                      // about to call getNextBatch
    | Sending(batch: seq<Event>)   // extracted a batch, about to deliver it
    | Closed

  /** What an `enqueueEvent` asked for, and the size of the buffer just after its event was added. */
  datatype Request = Request(flush: bool, size: nat)

  /**
  `added`, `requests`, `immediates`, `delays`, `extracted`, `delivered`, `lost` and `bindFaults` record
  history: every event added and its request, how many flushes were ever posted and how many delayed,
  and what became of the batches.
  */
  datatype State = State(
    buffer: seq<Event>,
    enqueuers: seq<Enqueuer>,
    posted: nat,
    delayed: nat,
    looper: Looper,
    connections: seq<Connection>,
    added: seq<Event>,
    requests: seq<Request>,
    immediates: nat,
    delays: nat,
    extracted: seq<seq<Event>>,
    delivered: seq<seq<Event>>,
    lost: seq<seq<Event>>,
    bindFaults: nat)

  const INITIAL := State([], [], 0, 0, Idle, [], [], [], 0, 0, [], [], [], 0)

  datatype Step =
    | Arrive(event: Event, flush: bool)
    | Decline(i: nat)                    // no consumer configured: the event is not added
    | Add(i: nat)
    | Post(i: nat)
    | TakePosted
    | TakeDelayed
    | CheckConsumer(configured: bool)
    | CheckEmpty
    | Bind(success: bool)
    | Connect(c: nat)
    | NullBinding(c: nat)
    | Poll(c: nat)
    | Send(c: nat, success: bool)

  /** A step in which the consumer turns out unset, or a bind is refused or null. */
  predicate IsBindFault(step: Step) {
    match step
    case CheckConsumer(configured) => !configured
    case Bind(success) => !success
    case NullBinding(_) => true
    case _ => false
  }

  /** A bind fault, or a delivery that throws. */
  predicate IsFault(step: Step) {
    IsBindFault(step) || (step.Send? && !step.success)
  }

  predicate Enabled(s: State, step: Step) {
    match step
    case Arrive(_, _) => true
    case Decline(i) => i < |s.enqueuers| && s.enqueuers[i].Arrived?
    case Add(i) => i < |s.enqueuers| && s.enqueuers[i].Arrived?
    case Post(i) => i < |s.enqueuers| && s.enqueuers[i].Added?
    case TakePosted => s.looper.Idle? && s.posted > 0
    case TakeDelayed => s.looper.Idle? && s.delayed > 0
    case CheckConsumer(_) => s.looper.AtConsumerCheck?
    case CheckEmpty => s.looper.AtEmptyCheck?
    case Bind(_) => s.looper.AtBind?
    case Connect(c) => c < |s.connections| && s.connections[c].Bound?
    case NullBinding(c) => c < |s.connections| && s.connections[c].Bound?
    case Poll(c) => c < |s.connections| && s.connections[c].Polling?
    case Send(c, _) => c < |s.connections| && s.connections[c].Sending?
  }

  function Apply(s: State, step: Step): State
    requires Enabled(s, step)
  {
    Act(s, step).(bindFaults := if IsBindFault(step) then s.bindFaults + 1 else s.bindFaults)
  }

  function Act(s: State, step: Step): State
    requires Enabled(s, step)
  {
    match step
    case Arrive(event, flush) =>
      s.(enqueuers := s.enqueuers + [Arrived(event, flush)])
    case Decline(i) =>
      s.(enqueuers := s.enqueuers[i := Returned])
    case Add(i) =>
      var buffer := s.buffer + [s.enqueuers[i].event];
      s.(buffer := buffer,
         added := s.added + [s.enqueuers[i].event],
         requests := s.requests + [Request(s.enqueuers[i].flush, |buffer|)],
         enqueuers := s.enqueuers[i := Added(s.enqueuers[i].flush, |buffer|)])
    case Post(i) =>
      var s' := s.(enqueuers := s.enqueuers[i := Returned]);
      (match PostingFor(s.enqueuers[i].flush, s.enqueuers[i].size)
       case Immediate => s'.(posted := s.posted + 1, immediates := s.immediates + 1)
       case Delayed => s'.(delayed := s.delayed + 1, delays := s.delays + 1)
       case Nothing => s')
    case TakePosted => s.(posted := s.posted - 1, looper := AtConsumerCheck)
    case TakeDelayed => s.(delayed := s.delayed - 1, looper := AtConsumerCheck)
    case CheckConsumer(configured) => s.(looper := if configured then AtEmptyCheck else Idle)
    case CheckEmpty => s.(looper := if s.buffer == [] then Idle else AtBind)
    case Bind(success) =>
      s.(looper := Idle, connections := if success then s.connections + [Bound] else s.connections)
    case Connect(c) => s.(connections := s.connections[c := Polling])
    case NullBinding(c) => s.(connections := s.connections[c := Closed])
    case Poll(c) =>
      if s.buffer == [] then
        s.(connections := s.connections[c := Closed])
      else
        var batch := NextBatch(s.buffer);
        s.(buffer := s.buffer[|batch|..],
           extracted := s.extracted + [batch],
           connections := s.connections[c := Sending(batch)])
    case Send(c, success) =>
      var batch := s.connections[c].batch;
      if success then
        s.(delivered := s.delivered + [batch], connections := s.connections[c := Polling])
      else
        s.(lost := s.lost + [batch], connections := s.connections[c := Closed])
  }

  ghost predicate IsRun(s: State, run: seq<Step>)
    decreases |run|
  {
    run == [] || (Enabled(s, run[0]) && IsRun(Apply(s, run[0]), run[1..]))
  }

  ghost function Exec(s: State, run: seq<Step>): State
    requires IsRun(s, run)
    decreases |run|
  {
    if run == [] then s else Exec(Apply(s, run[0]), run[1..])
  }

  ghost predicate FaultFree(run: seq<Step>) {
    forall i :: 0 <= i < |run| ==> !IsFault(run[i])
  }

  ghost predicate BindsSucceed(run: seq<Step>) {
    forall i :: 0 <= i < |run| ==> !IsBindFault(run[i])
  }

  ghost predicate NoArrivals(run: seq<Step>) {
    forall i :: 0 <= i < |run| ==> !run[i].Arrive?
  }

  // ----- invariants -----

  predicate WillPost(e: Enqueuer) {
    e.Added? && PostingFor(e.flush, e.size) != Nothing
  }

  /** Something already under way will look at the buffer again. */
  ghost predicate Armed(s: State) {
    || s.posted > 0
    || s.delayed > 0
    || !s.looper.Idle?
    || (exists c :: 0 <= c < |s.connections| && !s.connections[c].Closed?)
    || (exists i :: 0 <= i < |s.enqueuers| && WillPost(s.enqueuers[i]))
  }

  /** Events wait in the buffer and nothing will come for them. */
  ghost predicate Stranded(s: State) {
    s.buffer != [] && !Armed(s)
  }

  function PostWeight(e: Enqueuer): nat {
    if WillPost(e) then 1 else 0
  }

  function PollWeight(c: Connection): nat {
    if c.Bound? || c.Polling? then 1 else 0
  }

  /** How many flushes are pending, running or about to be posted, or have become a connection that is about to poll. */
  ghost function Wakeups(s: State): nat {
    s.posted + s.delayed + (if s.looper.Idle? then 0 else 1) +
    SumBy(s.enqueuers, PostWeight) + SumBy(s.connections, PollWeight)
  }

  /**
  One wakeup for a buffer in use, and one more for each event from the one that fills it on. A
  connection that takes a batch and leaves events behind may never come back, since delivery may
  throw; it leaves at least one wakeup less needed than before.
  */
  function Needed(size: nat): nat {
    if size < EVENT_BUFFER_CAPACITY then 1 else size - EVENT_BUFFER_CAPACITY + 2
  }

  /** A buffer in use has the wakeups it needs, but for one at most for each bind fault so far. */
  ghost predicate Covered(s: State) {
    s.buffer != [] ==> Wakeups(s) + s.bindFaults >= Needed(|s.buffer|)
  }

  // A wakeup is prompt if it does not wait for the delayed flush.

  /** The add asked for a flush or filled the buffer. */
  predicate IsUrgent(r: Request) {
    r.flush || r.size >= EVENT_BUFFER_CAPACITY
  }

  /** The add was of the first event, and not urgent. */
  predicate IsFirstAdd(r: Request) {
    !r.flush && r.size == 1
  }

  function UrgentWeight(r: Request): nat {
    if IsUrgent(r) then 1 else 0
  }

  function FirstWeight(r: Request): nat {
    if IsFirstAdd(r) then 1 else 0
  }

  /** An urgent add that has not posted yet. */
  function UrgentPending(e: Enqueuer): nat {
    if e.Added? then UrgentWeight(Request(e.flush, e.size)) else 0
  }

  function FirstPending(e: Enqueuer): nat {
    if e.Added? then FirstWeight(Request(e.flush, e.size)) else 0
  }

  ghost function PromptWakeups(s: State): nat {
    s.posted + (if s.looper.Idle? then 0 else 1) +
    SumBy(s.enqueuers, UrgentPending) + SumBy(s.connections, PollWeight)
  }

  /** Something other than the delayed flush is under way. */
  ghost predicate PromptlyArmed(s: State) {
    || s.posted > 0
    || !s.looper.Idle?
    || (exists c :: 0 <= c < |s.connections| && (s.connections[c].Bound? || s.connections[c].Polling?))
    || (exists i :: 0 <= i < |s.enqueuers| && s.enqueuers[i].Added? &&
                    (s.enqueuers[i].flush || s.enqueuers[i].size >= EVENT_BUFFER_CAPACITY))
  }

  /** An event in the buffer was enqueued with a flush; the buffer holds the last of all events added. */
  ghost predicate FlushWaits(s: State) {
    exists i :: 0 <= i < |s.requests| && |s.requests| - |s.buffer| <= i && s.requests[i].flush
  }

  ghost function PromptNeeded(s: State): nat {
    if |s.buffer| >= EVENT_BUFFER_CAPACITY then |s.buffer| - EVENT_BUFFER_CAPACITY + 1
    else if FlushWaits(s) then 1
    else 0
  }

  ghost predicate PromptlyCovered(s: State) {
    PromptWakeups(s) + s.bindFaults >= PromptNeeded(s)
  }

  /** The posts of each kind, made and about to be made, are those that the adds call for. */
  ghost predicate PostsMatch(s: State) {
    && |s.requests| == |s.added|
    && s.immediates + SumBy(s.enqueuers, UrgentPending) == SumBy(s.requests, UrgentWeight)
    && s.delays + SumBy(s.enqueuers, FirstPending) == SumBy(s.requests, FirstWeight)
  }

  /** How many connections have extracted `batch` and not yet delivered it. */
  ghost function InFlight(connections: seq<Connection>, batch: seq<Event>): nat {
    if connections == [] then 0
    else (if connections[0] == Sending(batch) then 1 else 0) + InFlight(connections[1..], batch)
  }

  /** What went into the buffer is what came out of it, in order, followed by what is still there. */
  ghost predicate InOrder(s: State) {
    && s.added == Flatten(s.extracted) + s.buffer
    && (forall k :: 0 <= k < |s.extracted| ==> 1 <= |s.extracted[k]| <= EVENT_BUFFER_CAPACITY)
  }

  ghost predicate BatchAccounted(s: State, batch: seq<Event>) {
    multiset(s.extracted)[batch] ==
    multiset(s.delivered)[batch] + multiset(s.lost)[batch] + InFlight(s.connections, batch)
  }

  /** Every extracted batch was delivered, was lost in a fault, or is in a connection's hands. */
  ghost predicate Accounted(s: State) {
    forall batch :: BatchAccounted(s, batch)
  }

  ghost predicate Inv(s: State) {
    && InOrder(s)
    && Accounted(s)
    && Covered(s)
  }

  lemma {:induction false} InFlightUpdate(cs: seq<Connection>, c: nat, x: Connection, batch: seq<Event>)
    requires c < |cs|
    ensures InFlight(cs[c := x], batch) + InFlight([cs[c]], batch) == InFlight(cs, batch) + InFlight([x], batch)
  {
    if c == 0 {
      assert cs[0 := x][1..] == cs[1..];
    } else {
      assert cs[c := x][1..] == cs[1..][c - 1 := x];
      InFlightUpdate(cs[1..], c - 1, x, batch);
    }
  }

  lemma {:induction false} InFlightAppend(cs: seq<Connection>, x: Connection, batch: seq<Event>)
    ensures InFlight(cs + [x], batch) == InFlight(cs, batch) + InFlight([x], batch)
  {
    if cs == [] {
      assert cs + [x] == [x];
    } else {
      assert (cs + [x])[1..] == cs[1..] + [x];
      InFlightAppend(cs[1..], x, batch);
    }
  }

  lemma {:induction false} InFlightNone(cs: seq<Connection>, batch: seq<Event>)
    requires forall c :: 0 <= c < |cs| ==> cs[c].Closed?
    ensures InFlight(cs, batch) == 0
  {
    if cs != [] {
      InFlightNone(cs[1..], batch);
    }
  }

  lemma {:induction false} AddKeepsOrder(s: State, i: nat)
    requires InOrder(s) && Enabled(s, Add(i))
    ensures InOrder(Apply(s, Add(i)))
  {
  }

  lemma {:induction false} PollKeepsOrder(s: State, c: nat)
    requires InOrder(s) && Enabled(s, Poll(c))
    ensures InOrder(Apply(s, Poll(c)))
  {
    if s.buffer != [] {
      var batch := NextBatch(s.buffer);
      FlattenAppend(s.extracted, batch);
      assert s.buffer == batch + s.buffer[|batch|..];
    }
  }

  lemma {:induction false} StepKeepsOrder(s: State, step: Step)
    requires InOrder(s) && Enabled(s, step)
    ensures InOrder(Apply(s, step))
  {
    if step.Add? {
      AddKeepsOrder(s, step.i);
    } else if step.Poll? {
      PollKeepsOrder(s, step.c);
    } else {
      var s' := Apply(s, step);
      assert s'.buffer == s.buffer && s'.added == s.added && s'.extracted == s.extracted;
    }
  }

  lemma {:induction false} PollAccounts(s: State, c: nat, batch: seq<Event>)
    requires BatchAccounted(s, batch) && Enabled(s, Poll(c))
    ensures BatchAccounted(Apply(s, Poll(c)), batch)
  {
    if s.buffer == [] {
      InFlightUpdate(s.connections, c, Closed, batch);
    } else {
      var next := NextBatch(s.buffer);
      InFlightUpdate(s.connections, c, Sending(next), batch);
      assert multiset(s.extracted + [next])[batch] == multiset(s.extracted)[batch] + InFlight([Sending(next)], batch);
    }
  }

  lemma {:induction false} SendAccounts(s: State, c: nat, success: bool, batch: seq<Event>)
    requires BatchAccounted(s, batch) && Enabled(s, Send(c, success))
    ensures BatchAccounted(Apply(s, Send(c, success)), batch)
  {
    var sent := s.connections[c].batch;
    var log := if success then s.delivered else s.lost;
    InFlightUpdate(s.connections, c, if success then Polling else Closed, batch);
    assert multiset(log + [sent])[batch] == multiset(log)[batch] + InFlight([Sending(sent)], batch);
  }

  lemma {:induction false} StepAccounts(s: State, step: Step, batch: seq<Event>)
    requires BatchAccounted(s, batch) && Enabled(s, step)
    ensures BatchAccounted(Apply(s, step), batch)
  {
    match step
    case Bind(_) => InFlightAppend(s.connections, Bound, batch);
    case Connect(c) => InFlightUpdate(s.connections, c, Polling, batch);
    case NullBinding(c) => InFlightUpdate(s.connections, c, Closed, batch);
    case Poll(c) => PollAccounts(s, c, batch);
    case Send(c, success) => SendAccounts(s, c, success, batch);
    case _ =>
      assert Apply(s, step).connections == s.connections;
  }

  lemma {:induction false} EnqueuerKeepsCovered(s: State, step: Step)
    requires Covered(s) && Enabled(s, step) && (step.Decline? || step.Add? || step.Post?)
    ensures Covered(Apply(s, step))
  {
    SumByUpdate(s.enqueuers, PostWeight, step.i, Apply(s, step).enqueuers[step.i]);
  }

  lemma {:induction false} ConnectionKeepsCovered(s: State, step: Step)
    requires Covered(s) && Enabled(s, step) && (step.Connect? || step.NullBinding? || step.Poll? || step.Send?)
    ensures Covered(Apply(s, step))
  {
    SumByUpdate(s.connections, PollWeight, step.c, Apply(s, step).connections[step.c]);
  }

  /** Every step leaves the wakeups that the buffer needs, a delivery that throws included; a bind fault costs one at most. */
  lemma {:induction false} StepKeepsCovered(s: State, step: Step)
    requires Covered(s) && Enabled(s, step)
    ensures Covered(Apply(s, step))
  {
    if step.Decline? || step.Add? || step.Post? {
      EnqueuerKeepsCovered(s, step);
    } else if step.Connect? || step.NullBinding? || step.Poll? || step.Send? {
      ConnectionKeepsCovered(s, step);
    } else if step.Bind? {
      SumByAppend(s.connections, PollWeight, Bound);
    } else if step.Arrive? {
      SumByAppend(s.enqueuers, PostWeight, Arrived(step.event, step.flush));
    }
  }

  lemma {:induction false} WakeupArms(s: State)
    requires Wakeups(s) > 0
    ensures Armed(s)
  {
    if s.posted == 0 && s.delayed == 0 && s.looper.Idle? {
      if SumBy(s.connections, PollWeight) > 0 {
        SumByPositive(s.connections, PollWeight);
      } else {
        SumByPositive(s.enqueuers, PostWeight);
      }
    }
  }

  lemma {:induction false} AddKeepsPosts(s: State, i: nat)
    requires PostsMatch(s) && Enabled(s, Add(i))
    ensures PostsMatch(Apply(s, Add(i)))
  {
    var s' := Apply(s, Add(i));
    var request := Request(s.enqueuers[i].flush, |s'.buffer|);
    SumByUpdate(s.enqueuers, UrgentPending, i, s'.enqueuers[i]);
    SumByUpdate(s.enqueuers, FirstPending, i, s'.enqueuers[i]);
    SumByAppend(s.requests, UrgentWeight, request);
    SumByAppend(s.requests, FirstWeight, request);
  }

  lemma {:induction false} LeaveKeepsPosts(s: State, step: Step)
    requires PostsMatch(s) && Enabled(s, step) && (step.Decline? || step.Post?)
    ensures PostsMatch(Apply(s, step))
  {
    SumByUpdate(s.enqueuers, UrgentPending, step.i, Returned);
    SumByUpdate(s.enqueuers, FirstPending, step.i, Returned);
  }

  lemma {:induction false} StepKeepsPosts(s: State, step: Step)
    requires PostsMatch(s) && Enabled(s, step)
    ensures PostsMatch(Apply(s, step))
  {
    if step.Add? {
      AddKeepsPosts(s, step.i);
    } else if step.Decline? || step.Post? {
      LeaveKeepsPosts(s, step);
    } else if step.Arrive? {
      SumByAppend(s.enqueuers, UrgentPending, Arrived(step.event, step.flush));
      SumByAppend(s.enqueuers, FirstPending, Arrived(step.event, step.flush));
    }
  }

  /** A flush waits after a step only if it did before, or the step added it. */
  lemma {:induction false} FlushComesFromAdd(s: State, step: Step)
    requires Enabled(s, step) && FlushWaits(Apply(s, step))
    ensures FlushWaits(s) || (step.Add? && s.enqueuers[step.i].flush)
  {
    var s' := Apply(s, step);
    var i :| 0 <= i < |s'.requests| && |s'.requests| - |s'.buffer| <= i && s'.requests[i].flush;
    if i < |s.requests| {
      assert s'.requests[i] == s.requests[i];
    }
  }

  lemma {:induction false} AddKeepsPrompt(s: State, i: nat)
    requires PromptlyCovered(s) && Enabled(s, Add(i))
    ensures PromptlyCovered(Apply(s, Add(i)))
  {
    SumByUpdate(s.enqueuers, UrgentPending, i, Apply(s, Add(i)).enqueuers[i]);
    if FlushWaits(Apply(s, Add(i))) {
      FlushComesFromAdd(s, Add(i));
    }
  }

  lemma {:induction false} LeaveKeepsPrompt(s: State, step: Step)
    requires PromptlyCovered(s) && Enabled(s, step) && (step.Decline? || step.Post?)
    ensures PromptlyCovered(Apply(s, step))
  {
    SumByUpdate(s.enqueuers, UrgentPending, step.i, Returned);
    if FlushWaits(Apply(s, step)) {
      FlushComesFromAdd(s, step);
    }
  }

  lemma {:induction false} PollKeepsPrompt(s: State, c: nat)
    requires PromptlyCovered(s) && Enabled(s, Poll(c))
    ensures PromptlyCovered(Apply(s, Poll(c)))
  {
    SumByUpdate(s.connections, PollWeight, c, Apply(s, Poll(c)).connections[c]);
  }

  lemma {:induction false} ConnectionKeepsPrompt(s: State, step: Step)
    requires PromptlyCovered(s) && Enabled(s, step) && (step.Connect? || step.NullBinding? || step.Send?)
    ensures PromptlyCovered(Apply(s, step))
  {
    SumByUpdate(s.connections, PollWeight, step.c, Apply(s, step).connections[step.c]);
    if FlushWaits(Apply(s, step)) {
      FlushComesFromAdd(s, step);
    }
  }

  /** As for Covered: only a bind fault costs a prompt wakeup that the buffer needs. */
  lemma {:induction false} StepKeepsPrompt(s: State, step: Step)
    requires PromptlyCovered(s) && Enabled(s, step)
    ensures PromptlyCovered(Apply(s, step))
  {
    if step.Add? {
      AddKeepsPrompt(s, step.i);
    } else if step.Decline? || step.Post? {
      LeaveKeepsPrompt(s, step);
    } else if step.Poll? {
      PollKeepsPrompt(s, step.c);
    } else if step.Connect? || step.NullBinding? || step.Send? {
      ConnectionKeepsPrompt(s, step);
    } else {
      if FlushWaits(Apply(s, step)) {
        FlushComesFromAdd(s, step);
      }
      if step.Bind? {
        SumByAppend(s.connections, PollWeight, Bound);
      } else if step.Arrive? {
        SumByAppend(s.enqueuers, UrgentPending, Arrived(step.event, step.flush));
      }
    }
  }

  lemma {:induction false} RunKeepsPosts(s: State, run: seq<Step>)
    requires PostsMatch(s) && PromptlyCovered(s) && IsRun(s, run)
    ensures PostsMatch(Exec(s, run)) && PromptlyCovered(Exec(s, run))
    decreases |run|
  {
    if run != [] {
      StepKeepsPosts(s, run[0]);
      StepKeepsPrompt(s, run[0]);
      RunKeepsPosts(Apply(s, run[0]), run[1..]);
    }
  }

  lemma {:induction false} PromptWakeupArms(s: State)
    requires PromptWakeups(s) > 0
    ensures PromptlyArmed(s)
  {
    if s.posted == 0 && s.looper.Idle? {
      if SumBy(s.connections, PollWeight) > 0 {
        SumByPositive(s.connections, PollWeight);
      } else {
        SumByPositive(s.enqueuers, UrgentPending);
      }
    }
  }

  lemma {:induction false} RunKeepsInv(s: State, run: seq<Step>)
    requires Inv(s) && IsRun(s, run)
    ensures Inv(Exec(s, run))
    decreases |run|
  {
    if run != [] {
      StepKeepsOrder(s, run[0]);
      forall batch
        ensures BatchAccounted(Apply(s, run[0]), batch)
      {
        StepAccounts(s, run[0], batch);
      }
      StepKeepsCovered(s, run[0]);
      RunKeepsInv(Apply(s, run[0]), run[1..]);
    }
  }

  lemma {:induction false} FaultsCount(s: State, run: seq<Step>)
    requires IsRun(s, run)
    ensures BindsSucceed(run) ==> Exec(s, run).bindFaults == s.bindFaults
    ensures FaultFree(run) ==> Exec(s, run).lost == s.lost
    decreases |run|
  {
    if run != [] {
      FaultsCount(Apply(s, run[0]), run[1..]);
    }
  }

  // ----- main results -----

  /**
  No lost wakeup: in every interleaving in which the consumer stays configured and binds succeed,
  waiting events always have a wakeup under way. Deliveries may throw: the batch is lost, the wakeup is not.
  */
  lemma {:induction false} NoLostWakeup(run: seq<Step>)
    requires IsRun(INITIAL, run) && BindsSucceed(run)
    ensures var s := Exec(INITIAL, run);
      s.buffer != [] ==> Armed(s) && Wakeups(s) >= Needed(|s.buffer|)
  {
    assert Flatten<Event>([]) == [];
    RunKeepsInv(INITIAL, run);
    FaultsCount(INITIAL, run);
    if Exec(INITIAL, run).buffer != [] {
      WakeupArms(Exec(INITIAL, run));
    }
  }

  /**
  Prompt flushes: in every interleaving in which the consumer stays configured and binds succeed,
  while an event enqueued with a flush is in the buffer, or the buffer is full, something other than
  the delayed flush is on its way to it.
  */
  lemma {:induction false} FlushesArePrompt(run: seq<Step>)
    requires IsRun(INITIAL, run) && BindsSucceed(run)
    ensures var s := Exec(INITIAL, run);
      FlushWaits(s) || |s.buffer| >= EVENT_BUFFER_CAPACITY ==> PromptlyArmed(s) && PromptWakeups(s) >= PromptNeeded(s)
  {
    RunKeepsPosts(INITIAL, run);
    FaultsCount(INITIAL, run);
    if PromptNeeded(Exec(INITIAL, run)) > 0 {
      PromptWakeupArms(Exec(INITIAL, run));
    }
  }

  /**
  Posts are no more than asked for: in every run, a flush is posted once for each add that asked for it
  or filled the buffer, delayed once for each other first event, and not posted for any other add.
  */
  lemma {:induction false} PostsAreCalledFor(run: seq<Step>)
    requires IsRun(INITIAL, run)
    ensures PostsMatch(Exec(INITIAL, run))
  {
    RunKeepsPosts(INITIAL, run);
  }

  /** In every run, a buffer of n stranded events has cost at least as many bind faults as it needs wakeups. */
  lemma {:induction false} StrandingTakesFaults(run: seq<Step>)
    requires IsRun(INITIAL, run)
    ensures var s := Exec(INITIAL, run);
      Stranded(s) ==> s.bindFaults >= Needed(|s.buffer|)
  {
    assert Flatten<Event>([]) == [];
    RunKeepsInv(INITIAL, run);
    if Wakeups(Exec(INITIAL, run)) > 0 {
      WakeupArms(Exec(INITIAL, run));
    }
  }

  /** FIFO conservation: in every interleaving, faults included, nothing is reordered, duplicated or dropped unseen. */
  lemma {:induction false} FifoConservation(run: seq<Step>)
    requires IsRun(INITIAL, run)
    ensures var s := Exec(INITIAL, run);
      && s.added == Flatten(s.extracted) + s.buffer
      && (forall batch :: BatchAccounted(s, batch))
      && (forall batch :: batch in s.delivered ==> 1 <= |batch| <= EVENT_BUFFER_CAPACITY)
  {
    assert Flatten<Event>([]) == [];
    RunKeepsInv(INITIAL, run);
    var s := Exec(INITIAL, run);
    forall batch | batch in s.delivered
      ensures 1 <= |batch| <= EVENT_BUFFER_CAPACITY
    {
      assert BatchAccounted(s, batch);
      assert batch in multiset(s.extracted);
    }
  }

  /** The consumer is bound only when it is set and, after that was seen, events were waiting. */
  lemma {:induction false} BindsOnlyForWaiting(s: State, step: Step)
    requires Enabled(s, step)
    ensures var s' := Apply(s, step);
      && (s'.looper.AtBind? && !s.looper.AtBind? ==> s.looper.AtEmptyCheck? && s.buffer != [])
      && (s'.looper.AtEmptyCheck? && !s.looper.AtEmptyCheck? ==> step == CheckConsumer(true))
      && (|s'.connections| > |s.connections| ==> s.looper.AtBind? && |s'.connections| == |s.connections| + 1)
      && (|s'.added| > |s.added| ==> step.Add? && s'.added == s.added + [s.enqueuers[step.i].event])
  {
  }

  // ----- progress -----

  /** No thread, runnable or connection has anything left to do. */
  ghost predicate Quiescent(s: State) {
    && (forall i :: 0 <= i < |s.enqueuers| ==> s.enqueuers[i].Returned?)
    && s.posted == 0 && s.delayed == 0 && s.looper.Idle?
    && (forall c :: 0 <= c < |s.connections| ==> s.connections[c].Closed?)
  }

  function EnqueuerWeight(e: Enqueuer): nat {
    match e case Arrived(_, _) => 10 case Added(_, _) => 7 case Returned => 0
  }

  function ConnectionWeight(c: Connection): nat {
    match c case Bound => 2 case Polling => 1 case Sending(_) => 2 case Closed => 0
  }

  function LooperWeight(l: Looper): nat {
    match l case Idle => 0 case AtConsumerCheck => 5 case AtEmptyCheck => 4 case AtBind => 3
  }

  /** An upper bound on the steps the system can take before it needs a new arrival. */
  ghost function Measure(s: State): nat {
    2 * |s.buffer| + SumBy(s.enqueuers, EnqueuerWeight) + 6 * (s.posted + s.delayed) +
    LooperWeight(s.looper) + SumBy(s.connections, ConnectionWeight)
  }

  lemma {:induction false} EnqueuerProgress(s: State, step: Step)
    requires Enabled(s, step) && (step.Decline? || step.Add? || step.Post?)
    ensures Measure(Apply(s, step)) < Measure(s)
  {
    SumByUpdate(s.enqueuers, EnqueuerWeight, step.i, Apply(s, step).enqueuers[step.i]);
  }

  lemma {:induction false} ConnectionProgress(s: State, step: Step)
    requires Enabled(s, step) && (step.Connect? || step.NullBinding? || step.Poll? || step.Send?)
    ensures Measure(Apply(s, step)) < Measure(s)
  {
    SumByUpdate(s.connections, ConnectionWeight, step.c, Apply(s, step).connections[step.c]);
  }

  lemma {:induction false} StepProgress(s: State, step: Step)
    requires Enabled(s, step) && !step.Arrive?
    ensures Measure(Apply(s, step)) < Measure(s)
  {
    if step.Decline? || step.Add? || step.Post? {
      EnqueuerProgress(s, step);
    } else if step.Connect? || step.NullBinding? || step.Poll? || step.Send? {
      ConnectionProgress(s, step);
    } else if step.Bind? {
      SumByAppend(s.connections, ConnectionWeight, Bound);
    }
  }

  /** Without new arrivals every interleaving is finite, however steps are scheduled and whatever fails. */
  lemma {:induction false} RunsAreBounded(s: State, run: seq<Step>)
    requires IsRun(s, run) && NoArrivals(run)
    ensures |run| + Measure(Exec(s, run)) <= Measure(s)
    decreases |run|
  {
    if run != [] {
      StepProgress(s, run[0]);
      RunsAreBounded(Apply(s, run[0]), run[1..]);
    }
  }

  /** A system with work left can take a fault-free step towards it. */
  lemma {:induction false} BusyCanStep(s: State)
    requires !Quiescent(s)
    ensures exists step :: Enabled(s, step) && !step.Arrive? && !IsFault(step)
  {
    if i :| 0 <= i < |s.enqueuers| && !s.enqueuers[i].Returned? {
      var step := if s.enqueuers[i].Arrived? then Add(i) else Post(i);
      assert Enabled(s, step);
    } else if c :| 0 <= c < |s.connections| && !s.connections[c].Closed? {
      var step := if s.connections[c].Bound? then Connect(c) else if s.connections[c].Polling? then Poll(c) else Send(c, true);
      assert Enabled(s, step);
    } else {
      var step := match s.looper
        case AtConsumerCheck => CheckConsumer(true)
        case AtEmptyCheck => CheckEmpty
        case AtBind => Bind(true)
        case Idle => if s.posted > 0 then TakePosted else TakeDelayed;
      assert Enabled(s, step);
    }
  }

  lemma {:induction false} RestIsDelivered(s: State)
    requires Quiescent(s) && Accounted(s) && Covered(s) && s.bindFaults == 0
    ensures s.buffer == []
    ensures multiset(s.delivered) + multiset(s.lost) == multiset(s.extracted)
  {
    if s.buffer != [] {
      WakeupArms(s);
    }
    forall batch
      ensures multiset(s.delivered)[batch] + multiset(s.lost)[batch] == multiset(s.extracted)[batch]
    {
      assert BatchAccounted(s, batch);
      InFlightNone(s.connections, batch);
    }
  }

  /**
  Delivery: a run without bind faults that has nothing left to do but wait for arrivals has handed
  every added event to the consumer exactly once, except for the batches whose delivery threw.
  RunsAreBounded says that every schedule gets there.
  */
  lemma {:induction false} EveryEventIsDelivered(run: seq<Step>)
    requires IsRun(INITIAL, run) && BindsSucceed(run)
    requires forall step :: Enabled(Exec(INITIAL, run), step) ==> step.Arrive? || IsFault(step)
    ensures var s := Exec(INITIAL, run);
      && s.buffer == []
      && s.added == Flatten(s.extracted)
      && multiset(s.delivered) + multiset(s.lost) == multiset(s.extracted)
      && (FaultFree(run) ==> s.lost == [])
  {
    var s := Exec(INITIAL, run);
    if !Quiescent(s) {
      BusyCanStep(s);
    }
    assert Flatten<Event>([]) == [];
    RunKeepsInv(INITIAL, run);
    FaultsCount(INITIAL, run);
    RestIsDelivered(s);
  }

  // ----- what a fault can do -----

  lemma {:induction false} RunAppend(s: State, run: seq<Step>, step: Step)
    requires IsRun(s, run) && Enabled(Exec(s, run), step)
    ensures IsRun(s, run + [step]) && Exec(s, run + [step]) == Apply(Exec(s, run), step)
    decreases |run|
  {
    if run == [] {
      var s' := Apply(s, step);
      assert run + [step] == [step] && [step][1..] == [];
      assert IsRun(s', []) && Exec(s', []) == s';
    } else {
      assert (run + [step])[1..] == run[1..] + [step];
      RunAppend(Apply(s, run[0]), run[1..], step);
    }
  }

  ghost predicate Strands(fault: Step) {
    exists run :: IsRun(INITIAL, run + [fault]) && FaultFree(run) && Stranded(Exec(INITIAL, run + [fault]))
  }

  /** One flushed event, its runnable taken by the handler thread: the state where `looper` is next to act. */
  ghost function OneEventAt(e: Event, looper: Looper): State {
    INITIAL.(buffer := [e], added := [e], requests := [Request(true, 1)], immediates := 1,
             enqueuers := [Returned], looper := looper)
  }

  lemma {:induction false} ReachConsumerCheck(e: Event) returns (run: seq<Step>)
    ensures IsRun(INITIAL, run) && FaultFree(run) && Exec(INITIAL, run) == OneEventAt(e, AtConsumerCheck)
  {
    run := [];
    RunAppend(INITIAL, run, Arrive(e, true));
    run := run + [Arrive(e, true)];
    assert Exec(INITIAL, run) == INITIAL.(enqueuers := [Arrived(e, true)]);
    RunAppend(INITIAL, run, Add(0));
    run := run + [Add(0)];
    var added := INITIAL.(buffer := [e], added := [e], requests := [Request(true, 1)], enqueuers := [Added(true, 1)]);
    assert Exec(INITIAL, run) == added;
    RunAppend(INITIAL, run, Post(0));
    run := run + [Post(0)];
    assert Exec(INITIAL, run) == added.(enqueuers := [Returned], posted := 1, immediates := 1);
    RunAppend(INITIAL, run, TakePosted);
    run := run + [TakePosted];
  }

  lemma {:induction false} ReachBind(e: Event) returns (run: seq<Step>)
    ensures IsRun(INITIAL, run) && FaultFree(run) && Exec(INITIAL, run) == OneEventAt(e, AtBind)
  {
    run := ReachConsumerCheck(e);
    RunAppend(INITIAL, run, CheckConsumer(true));
    run := run + [CheckConsumer(true)];
    assert Exec(INITIAL, run) == OneEventAt(e, AtEmptyCheck);
    RunAppend(INITIAL, run, CheckEmpty);
    run := run + [CheckEmpty];
  }

  /** A run and the fault after it that strands its buffer. */
  lemma {:induction false} StrandsBy(run: seq<Step>, fault: Step)
    requires IsRun(INITIAL, run) && FaultFree(run) && Enabled(Exec(INITIAL, run), fault)
    requires Stranded(Apply(Exec(INITIAL, run), fault))
    ensures Strands(fault)
  {
    RunAppend(INITIAL, run, fault);
  }

  lemma {:induction false} ReachBound(e: Event) returns (run: seq<Step>)
    ensures IsRun(INITIAL, run) && FaultFree(run)
    ensures Exec(INITIAL, run) == OneEventAt(e, Idle).(connections := [Bound])
  {
    run := ReachBind(e);
    RunAppend(INITIAL, run, Bind(true));
    run := run + [Bind(true)];
  }

  lemma {:induction false} UnsetStrands(e: Event)
    ensures Strands(CheckConsumer(false))
  {
    var run := ReachConsumerCheck(e);
    StrandsBy(run, CheckConsumer(false));
  }

  lemma {:induction false} RefusalStrands(e: Event)
    ensures Strands(Bind(false))
  {
    var run := ReachBind(e);
    StrandsBy(run, Bind(false));
  }

  lemma {:induction false} NullBindingStrands(e: Event)
    ensures Strands(NullBinding(0))
  {
    var run := ReachBound(e);
    StrandsBy(run, NullBinding(0));
  }

  /** The hypothesis of NoLostWakeup is needed: each kind of bind fault can strand an event. */
  lemma {:induction false} FaultsStrand(e: Event)
    ensures Strands(CheckConsumer(false)) && Strands(Bind(false)) && Strands(NullBinding(0))
  {
    UnsetStrands(e);
    RefusalStrands(e);
    NullBindingStrands(e);
  }

  /**
  A stranded buffer stays stranded through any step but an `Add`, and an `Add` rescues it exactly
  when it asks for a flush or fills the buffer: a further ordinary event does not.
  */
  lemma {:induction false} RescueFromStranded(s: State, step: Step)
    requires Stranded(s) && Enabled(s, step)
    ensures !Stranded(Apply(s, step)) <==>
      step.Add? && (s.enqueuers[step.i].flush || |s.buffer| + 1 >= EVENT_BUFFER_CAPACITY)
  {
    var s' := Apply(s, step);
    match step
    case Arrive(_, _) =>
    case Decline(_) =>
    case Add(k) =>
      assert forall i :: 0 <= i < |s.enqueuers| && i != k ==> s'.enqueuers[i] == s.enqueuers[i];
      assert WillPost(s'.enqueuers[k]) <==> s.enqueuers[k].flush || |s.buffer| + 1 >= EVENT_BUFFER_CAPACITY;
    case Post(k) =>
      assert !WillPost(s.enqueuers[k]);
    case _ =>
  }
}
