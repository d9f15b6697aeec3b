/**
The accessibility handler: events are kept per uid, sorted by descending timestamp when polling
ends, and each permission grant is associated with the accessibility calls shortly before it.
*/
module Accessibility {
  import opened Common
  import opened BinderKeys
  import opened Sorting

  const A11Y_EVENT_WINDOW_NS: nat := 10_000_000_000

  datatype EventType = A11y(code: int) | RuntimePermissionGrant(permission: Name)

  /** `timestamp` is in nanoseconds. */
  datatype Event = Event(uid: int, timestamp: nat, variant: EventType)

  datatype GrantRecord = GrantRecord(uid: int, timestamp: nat, permission: Name, calls: seq<(int, nat)>)

  // ----- what the association means -----

  /** The grant listed nearest before position `n`, or -1. */
  function LastGrant(events: seq<Event>, n: nat): (g: int)
    requires n <= |events|
    ensures -1 <= g < n
    ensures g >= 0 ==> events[g].variant.RuntimePermissionGrant?
    ensures forall i :: g < i < n ==> events[i].variant.A11y?
  {
    if n == 0 then -1
    else if events[n - 1].variant.RuntimePermissionGrant? then n - 1
    else LastGrant(events, n - 1)
  }

  /** `saturating_sub` */
  function Elapsed(grant: nat, call: nat): (d: nat)
    ensures call <= grant ==> call + d == grant
    ensures grant <= call ==> d == 0
  {
    if grant >= call then grant - call else 0
  }

  /** The call at position `i` belongs to the grant at position `g`. */
  predicate Joins(events: seq<Event>, i: nat, g: nat)
    requires i < |events|
  {
    events[i].variant.A11y? && LastGrant(events, i) == g && Elapsed(events[g].timestamp, events[i].timestamp) < A11Y_EVENT_WINDOW_NS
  }

  /** The calls among the first `n` events that belong to the grant at `g`, in list order. */
  function CallsOf(events: seq<Event>, g: nat, n: nat): seq<(int, nat)>
    requires n <= |events|
  {
    if n == 0 then []
    else
      var rest := CallsOf(events, g, n - 1);
      if Joins(events, n - 1, g) then rest + [(events[n - 1].variant.code, events[n - 1].timestamp)] else rest
  }

  function RecordOf(events: seq<Event>, g: nat, n: nat): GrantRecord
    requires g < |events| && n <= |events| && events[g].variant.RuntimePermissionGrant?
  {
    GrantRecord(events[g].uid, events[g].timestamp, events[g].variant.permission, CallsOf(events, g, n))
  }

  /** The positions of the grants among the first `n` events, in order. */
  function Grants(events: seq<Event>, n: nat): (gs: seq<nat>)
    requires n <= |events|
    ensures forall k :: 0 <= k < |gs| ==> gs[k] < n && events[gs[k]].variant.RuntimePermissionGrant?
  {
    if n == 0 then []
    else if events[n - 1].variant.RuntimePermissionGrant? then Grants(events, n - 1) + [n - 1]
    else Grants(events, n - 1)
  }

  lemma {:induction false} GrantsAscend(events: seq<Event>, n: nat, j: nat, k: nat)
    requires n <= |events| && j < k < |Grants(events, n)|
    ensures Grants(events, n)[j] < Grants(events, n)[k]
  {
    if k < |Grants(events, n - 1)| {
      GrantsAscend(events, n - 1, j, k);
    }
  }

  lemma {:induction false} GrantListed(events: seq<Event>, n: nat, i: nat)
    requires i < n <= |events| && events[i].variant.RuntimePermissionGrant?
    ensures i in Grants(events, n)
  {
    if i < n - 1 {
      GrantListed(events, n - 1, i);
    }
  }

  lemma {:induction false} LastListed(events: seq<Event>, n: nat)
    requires n <= |events|
    ensures var gs := Grants(events, n);
      LastGrant(events, n) == if gs == [] then -1 else gs[|gs| - 1]
  {
    if n > 0 {
      LastListed(events, n - 1);
    }
  }

  lemma {:induction false} GrantsAreAll(events: seq<Event>, n: nat)
    requires n <= |events|
    ensures var gs := Grants(events, n);
      && (forall j, k :: 0 <= j < k < |gs| ==> gs[j] < gs[k])
      && (forall i :: 0 <= i < n && events[i].variant.RuntimePermissionGrant? ==> i in gs)
      && LastGrant(events, n) == if gs == [] then -1 else gs[|gs| - 1]
  {
    var gs := Grants(events, n);
    forall j, k | 0 <= j < k < |gs|
      ensures gs[j] < gs[k]
    {
      GrantsAscend(events, n, j, k);
    }
    LastListed(events, n);
    forall i | 0 <= i < n && events[i].variant.RuntimePermissionGrant?
      ensures i in Grants(events, n)
    {
      GrantListed(events, n, i);
    }
  }

  /** One record per grant, in order, each with exactly the calls that join it. */
  function Associated(events: seq<Event>, n: nat): (rs: seq<GrantRecord>)
    requires n <= |events|
    ensures |rs| == |Grants(events, n)|
  {
    var gs := Grants(events, n);
    seq(|gs|, k requires 0 <= k < |gs| => RecordOf(events, gs[k], n))
  }

  lemma {:induction false} NoCallsYet(events: seq<Event>, g: nat, n: nat)
    requires n <= |events| && n <= g + 1
    ensures CallsOf(events, g, n) == []
  {
    if n > 0 {
      NoCallsYet(events, g, n - 1);
    }
  }

  /** All records but the last: those that no later event can change. */
  function Finished(events: seq<Event>, n: nat): seq<GrantRecord>
    requires n <= |events|
  {
    var rs := Associated(events, n);
    if rs == [] then [] else rs[..|rs| - 1]
  }

  /** The record of the latest grant so far. */
  function Current(events: seq<Event>, n: nat): Option<GrantRecord>
    requires n <= |events|
  {
    var rs := Associated(events, n);
    if rs == [] then None else Some(rs[|rs| - 1])
  }

  lemma {:induction false} AssociateGrant(events: seq<Event>, n: nat)
    requires n < |events| && events[n].variant.RuntimePermissionGrant?
    ensures Finished(events, n + 1) == Associated(events, n)
    ensures Current(events, n + 1) ==
      Some(GrantRecord(events[n].uid, events[n].timestamp, events[n].variant.permission, []))
  {
    NoCallsYet(events, n, n + 1);
    forall k | 0 <= k < |Grants(events, n)|
      ensures Associated(events, n + 1)[k] == Associated(events, n)[k]
    {
      assert Grants(events, n + 1)[k] == Grants(events, n)[k];
    }
  }

  /** A call changes the latest grant's record at most. */
  lemma {:induction false} AssociateCall(events: seq<Event>, n: nat)
    requires n < |events| && events[n].variant.A11y?
    ensures Finished(events, n + 1) == Finished(events, n)
    ensures Current(events, n + 1) ==
      match Current(events, n)
      case None => None
      case Some(r) => Some(if Elapsed(r.timestamp, events[n].timestamp) < A11Y_EVENT_WINDOW_NS
                           then r.(calls := r.calls + [(events[n].variant.code, events[n].timestamp)])
                           else r)
  {
    var gs := Grants(events, n);
    GrantsAreAll(events, n);
    forall k | 0 <= k < |gs| - 1
      ensures Associated(events, n + 1)[k] == Associated(events, n)[k]
    {
      assert !Joins(events, n, gs[k]);
    }
  }

  /** One event's effect on the records so far. */
  function Extend(rs: seq<GrantRecord>, e: Event): seq<GrantRecord> {
    match e.variant
    case RuntimePermissionGrant(permission) => rs + [GrantRecord(e.uid, e.timestamp, permission, [])]
    case A11y(code) =>
      if rs == [] || Elapsed(rs[|rs| - 1].timestamp, e.timestamp) >= A11Y_EVENT_WINDOW_NS then rs
      else rs[..|rs| - 1] + [rs[|rs| - 1].(calls := rs[|rs| - 1].calls + [(code, e.timestamp)])]
  }

  /** The records after one pass over the first `n` events. */
  function OnePass(events: seq<Event>, n: nat): seq<GrantRecord>
    requires n <= |events|
  {
    if n == 0 then [] else Extend(OnePass(events, n - 1), events[n - 1])
  }

  /** The one-pass association equals its specification, on any list. */
  lemma {:induction false} OnePassIsAssociated(events: seq<Event>, n: nat)
    requires n <= |events|
    ensures OnePass(events, n) == Associated(events, n)
  {
    if n > 0 {
      OnePassIsAssociated(events, n - 1);
      if events[n - 1].variant.A11y? {
        AssociateCall(events, n - 1);
      } else {
        AssociateGrant(events, n - 1);
      }
      RecordsSplit(events, n - 1);
      RecordsSplit(events, n);
    }
  }

  lemma {:induction false} RecordsSplit(events: seq<Event>, n: nat)
    requires n <= |events|
    ensures Associated(events, n) ==
      Finished(events, n) + (if Current(events, n).Some? then [Current(events, n).value] else [])
  {
  }

  /** `associate_events`: one pass with the grant at hand. */
  method AssociateEvents(events: seq<Event>) returns (grants: seq<GrantRecord>)
    ensures grants == OnePass(events, |events|)
  {
    grants := [];
    var current: Option<GrantRecord> := None;
    var n := 0;
    while n < |events|
      invariant 0 <= n <= |events|
      invariant OnePass(events, n) == grants + (if current.Some? then [current.value] else [])
      invariant current.None? ==> grants == []
    {
      var event := events[n];
      match event.variant {
        case RuntimePermissionGrant(permission) =>
          if current.Some? {
            grants := grants + [current.value];
          }
          current := Some(GrantRecord(event.uid, event.timestamp, permission, []));
        case A11y(code) =>
          if current.Some? {
            if Elapsed(current.value.timestamp, event.timestamp) < A11Y_EVENT_WINDOW_NS {
              current := Some(current.value.(calls := current.value.calls + [(code, event.timestamp)]));
            }
          }
      }
      n := n + 1;
    }
    if current.Some? {
      grants := grants + [current.value];
    }
  }

  ghost predicate Descending(events: seq<Event>) {
    forall i, j :: 0 <= i < j < |events| ==> events[i].timestamp >= events[j].timestamp
  }

  /**
  In a descending list a call joins a grant exactly when the grant is listed before it with no other
  grant between and happened less than ten seconds after it; so a call joins at most one grant.
  */
  lemma {:induction false} JoinsIff(events: seq<Event>, i: nat, g: nat)
    requires Descending(events) && i < |events| && g < |events|
    ensures Joins(events, i, g) <==>
      && events[i].variant.A11y? && g < i && events[g].variant.RuntimePermissionGrant?
      && (forall k :: g < k < i ==> events[k].variant.A11y?)
      && events[g].timestamp - events[i].timestamp < A11Y_EVENT_WINDOW_NS
    ensures forall h: nat :: Joins(events, i, g) && Joins(events, i, h) ==> g == h
  {
  }

  // ----- on_item -----

  datatype AccessibilityEvent = AccessibilityEvent(
    errorCode: int,
    timestampNs: nat,
    variant: int,
    packageName: seq<Byte>,
    permissionName: seq<Byte>,
    uid: int,
    code: int)

  /** Fixed answers of the bridge service; None and false stand for a failed call. */
  datatype Services = Services(
    available: bool,
    hasAccessibility: Name -> Option<bool>,
    uidFor: Name -> Option<int>,
    accepts: Event -> bool)

  /** "android.permission" */
  const SYSTEM_PERMISSION_PREFIX: Name :=
    [97, 110, 100, 114, 111, 105, 100, 46, 112, 101, 114, 109, 105, 115, 115, 105, 111, 110]

  /** A grant that the item reports: both names decode. */
  predicate ReportsGrant(data: AccessibilityEvent) {
    && data.errorCode >= 0 && data.variant == 1
    && BytesAsNonemptyStr(data.packageName).Ok? && BytesAsNonemptyStr(data.permissionName).Ok?
  }

  predicate ReportsSystemGrant(data: AccessibilityEvent) {
    ReportsGrant(data) && SYSTEM_PERMISSION_PREFIX <= BytesAsNonemptyStr(data.permissionName).value
  }

  function PackageOf(data: AccessibilityEvent): Name
    requires ReportsGrant(data)
  {
    BytesAsNonemptyStr(data.packageName).value
  }

  function GrantOf(data: AccessibilityEvent, uid: int): Event
    requires ReportsGrant(data)
  {
    Event(uid, data.timestampNs, RuntimePermissionGrant(BytesAsNonemptyStr(data.permissionName).value))
  }

  /** The item is a system permission's grant to a package with an enabled service, and the event reaches the consumer. */
  predicate RecordsGrant(svc: Services, data: AccessibilityEvent, uid: int) {
    && ReportsSystemGrant(data) && svc.available
    && svc.hasAccessibility(PackageOf(data)) == Some(true)
    && svc.uidFor(PackageOf(data)) == Some(uid)
    && svc.accepts(GrantOf(data, uid))
  }

  /** The item is a grant of no interest: not of a system permission, or of a package without an enabled service. */
  predicate IgnoresGrant(svc: Services, data: AccessibilityEvent) {
    && ReportsGrant(data)
    && (ReportsSystemGrant(data) ==> svc.available && svc.hasAccessibility(PackageOf(data)) == Some(false))
  }

  function CallOf(data: AccessibilityEvent): Event {
    Event(data.uid, data.timestampNs, A11y(data.code))
  }

  predicate RecordsCall(svc: Services, data: AccessibilityEvent) {
    data.errorCode >= 0 && data.variant == 2 && svc.available && svc.accepts(CallOf(data))
  }

  /** What becomes of an item: an event of one of the two kinds, nothing, or, in all other cases, an error. */
  function Classify(svc: Services, data: AccessibilityEvent): Result<Option<Event>> {
    if RecordsCall(svc, data) then Ok(Some(CallOf(data)))
    else if IgnoresGrant(svc, data) then Ok(None)
    else if ReportsGrant(data) && svc.uidFor(PackageOf(data)).Some? && RecordsGrant(svc, data, svc.uidFor(PackageOf(data)).value)
    then Ok(Some(GrantOf(data, svc.uidFor(PackageOf(data)).value)))
    else Err
  }

  method HandlePermissionGrantEvent(svc: Services, data: AccessibilityEvent) returns (r: Result<Option<Event>>)
    requires data.errorCode >= 0 && data.variant == 1
    ensures r == Ok(None) <==> IgnoresGrant(svc, data)
    ensures forall event: Event :: r == Ok(Some(event)) <==> RecordsGrant(svc, data, event.uid) && event == GrantOf(data, event.uid)
    ensures r.Ok? && r.value.Some? ==>
      var event := r.value.value;
      && event.timestamp == data.timestampNs && event.variant.RuntimePermissionGrant?
      && BytesAsStr(data.permissionName) == Ok(event.variant.permission)
      && SYSTEM_PERMISSION_PREFIX <= event.variant.permission
      && BytesAsStr(data.packageName).Ok? && svc.uidFor(BytesAsStr(data.packageName).value) == Some(event.uid)
  {
    var package := BytesAsNonemptyStr(data.packageName);
    if package.Err? {
      return Err;
    }
    var permission := BytesAsNonemptyStr(data.permissionName);
    if permission.Err? {
      return Err;
    }
    if !(SYSTEM_PERMISSION_PREFIX <= permission.value) {
      return Ok(None);
    }
    if !svc.available {
      return Err;
    }
    var hasService := svc.hasAccessibility(package.value);
    if hasService.None? {
      return Err;
    }
    if !hasService.value {
      return Ok(None);
    }
    var uid := svc.uidFor(package.value);
    if uid.None? {
      return Err;
    }
    var event := Event(uid.value, data.timestampNs, RuntimePermissionGrant(permission.value));
    if !svc.accepts(event) {
      return Err;
    }
    r := Ok(Some(event));
  }

  method HandleA11yEvent(svc: Services, data: AccessibilityEvent) returns (r: Result<Option<Event>>)
    requires data.errorCode >= 0 && data.variant == 2
    ensures r == if RecordsCall(svc, data) then Ok(Some(CallOf(data))) else Err
    ensures r.Ok? ==> r.value == Some(Event(uid := data.uid, timestamp := data.timestampNs, variant := A11y(data.code)))
  {
    var event := Event(data.uid, data.timestampNs, A11y(data.code));
    if !svc.available {
      return Err;
    }
    if !svc.accepts(event) {
      return Err;
    }
    r := Ok(Some(event));
  }

  /** The branches of `on_item` before it records the event. */
  method ClassifyItem(svc: Services, data: AccessibilityEvent) returns (r: Result<Option<Event>>)
    ensures r == Classify(svc, data)
  {
    if data.errorCode < 0 {
      return Err;
    }
    if data.variant == 1 {
      r := HandlePermissionGrantEvent(svc, data);
      GrantClassified(svc, data, r);
    } else if data.variant == 2 {
      r := HandleA11yEvent(svc, data);
    } else {
      r := Err;
    }
  }

  lemma {:induction false} GrantClassified(svc: Services, data: AccessibilityEvent, r: Result<Option<Event>>)
    requires data.errorCode >= 0 && data.variant == 1
    requires r == Ok(None) <==> IgnoresGrant(svc, data)
    requires forall event: Event :: r == Ok(Some(event)) <==> RecordsGrant(svc, data, event.uid) && event == GrantOf(data, event.uid)
    ensures r == Classify(svc, data)
  {
    if r.Ok? && r.value.Some? {
      assert RecordsGrant(svc, data, r.value.value.uid);
    } else if ReportsGrant(data) && svc.uidFor(PackageOf(data)).Some? {
      var event := GrantOf(data, svc.uidFor(PackageOf(data)).value);
      assert r == Ok(Some(event)) <==> RecordsGrant(svc, data, event.uid);
    }
  }

  /** How items turn into events while service answers stay fixed. */
  type Classifier = AccessibilityEvent -> Result<Option<Event>>

  ghost function ClassifierOf(svc: Services): Classifier {
    (data: AccessibilityEvent) => Classify(svc, data)
  }

  function NewFor(classify: Classifier, data: AccessibilityEvent, uid: int): seq<Event> {
    match classify(data)
    case Ok(Some(event)) => if event.uid == uid then [event] else []
    case _ => []
  }

  /** The events of one uid among the items, in arrival order. */
  function EventsFor(classify: Classifier, items: seq<AccessibilityEvent>, uid: int): seq<Event> {
    if items == [] then []
    else EventsFor(classify, items[..|items| - 1], uid) + NewFor(classify, items[|items| - 1], uid)
  }

  lemma {:induction false} EventsForCarryUid(classify: Classifier, items: seq<AccessibilityEvent>, uid: int)
    ensures forall e :: e in EventsFor(classify, items, uid) ==> e.uid == uid
  {
    if items != [] {
      EventsForCarryUid(classify, items[..|items| - 1], uid);
    }
  }

  function Bucket(events: map<int, seq<Event>>, uid: int): seq<Event> {
    if uid in events then events[uid] else []
  }

  /** Appends an item's event, if any, to its uid's list. */
  function Push(events: map<int, seq<Event>>, r: Result<Option<Event>>): map<int, seq<Event>> {
    match r
    case Ok(Some(event)) => events[event.uid := Bucket(events, event.uid) + [event]]
    case _ => events
  }

  // ----- on_finished -----

  /** The fields of atom 1217; times are in milliseconds. */
  datatype Atom = Atom(uid: int, permission: Name, timestampMs: nat, codes: seq<int>, timesMs: seq<nat>)

  function AtomOf(r: GrantRecord): Atom {
    Atom(r.uid, r.permission, r.timestamp / NANOS_PER_MILLI,
         seq(|r.calls|, i requires 0 <= i < |r.calls| => r.calls[i].0),
         seq(|r.calls|, i requires 0 <= i < |r.calls| => r.calls[i].1 / NANOS_PER_MILLI))
  }

  function AtomsOf(rs: seq<GrantRecord>): (atoms: seq<Atom>)
    ensures |atoms| == |rs|
    ensures forall i :: 0 <= i < |rs| ==> atoms[i] == AtomOf(rs[i])
  {
    if rs == [] then [] else AtomsOf(rs[..|rs| - 1]) + [AtomOf(rs[|rs| - 1])]
  }

  function NegatedTimestamp(e: Event): int {
    0 - e.timestamp
  }

  function SortDescending(evs: seq<Event>): seq<Event> {
    Sort(evs, NegatedTimestamp)
  }

  /** The atoms that one uid's events give rise to. */
  function UidAtoms(evs: seq<Event>): seq<Atom> {
    var sorted := SortDescending(evs);
    AtomsOf(Associated(sorted, |sorted|))
  }

  /** The events of a uid in descending order of time, those of one time in order of arrival. */
  lemma {:induction false} SortDescendingIs(evs: seq<Event>, time: nat)
    ensures Descending(SortDescending(evs)) && multiset(SortDescending(evs)) == multiset(evs)
    ensures AtTime(SortDescending(evs), time) == AtTime(evs, time)
  {
    var sorted := SortDescending(evs);
    SortSorts(evs, NegatedTimestamp);
    forall i, j | 0 <= i < j < |sorted|
      ensures sorted[i].timestamp >= sorted[j].timestamp
    {
      assert NegatedTimestamp(sorted[i]) <= NegatedTimestamp(sorted[j]);
    }
    SortStable(evs, NegatedTimestamp, 0 - time);
    AtTimeIsWithKey(evs, time);
    AtTimeIsWithKey(sorted, time);
  }

  function AtTime(evs: seq<Event>, time: nat): seq<Event> {
    if evs == [] then []
    else AtTime(evs[..|evs| - 1], time) + (if evs[|evs| - 1].timestamp == time then [evs[|evs| - 1]] else [])
  }

  lemma {:induction false} AtTimeIsWithKey(evs: seq<Event>, time: nat)
    ensures AtTime(evs, time) == WithKey(evs, NegatedTimestamp, 0 - time)
  {
    if evs != [] {
      AtTimeIsWithKey(evs[..|evs| - 1], time);
    }
  }

  /** The call at `i` is listed after the grant at `g` with no other grant between, less than ten seconds before it in time. */
  predicate Precedes(events: seq<Event>, i: nat, g: nat)
    requires i < |events|
  {
    && g < i && events[g].variant.RuntimePermissionGrant? && events[i].variant.A11y?
    && (forall k :: g < k < i ==> events[k].variant.A11y?)
    && events[g].timestamp - events[i].timestamp < 10_000_000_000
  }

  /** The positions among the first `n` of the calls that belong to the grant at `g`. */
  function CallPositions(events: seq<Event>, g: nat, n: nat): (at: seq<nat>)
    requires n <= |events|
    ensures forall i :: 0 <= i < |at| ==> at[i] < n && Joins(events, at[i], g)
  {
    if n == 0 then []
    else
      var rest := CallPositions(events, g, n - 1);
      if Joins(events, n - 1, g) then rest + [n - 1] else rest
  }

  lemma {:induction false} PositionsAscend(events: seq<Event>, g: nat, n: nat, i: nat, j: nat)
    requires n <= |events| && i < j < |CallPositions(events, g, n)|
    ensures CallPositions(events, g, n)[i] < CallPositions(events, g, n)[j]
  {
    if j < |CallPositions(events, g, n - 1)| {
      PositionsAscend(events, g, n - 1, i, j);
    }
  }

  lemma {:induction false} PositionListed(events: seq<Event>, g: nat, n: nat, i: nat)
    requires i < n <= |events| && Joins(events, i, g)
    ensures i in CallPositions(events, g, n)
  {
    if i < n - 1 {
      PositionListed(events, g, n - 1, i);
    }
  }

  lemma {:induction false} CallsAtPositions(events: seq<Event>, g: nat, n: nat)
    requires n <= |events|
    ensures |CallsOf(events, g, n)| == |CallPositions(events, g, n)|
  {
    if n > 0 {
      CallsAtPositions(events, g, n - 1);
    }
  }

  lemma {:induction false} CallAtPosition(events: seq<Event>, g: nat, n: nat, i: nat)
    requires n <= |events| && i < |CallPositions(events, g, n)|
    ensures i < |CallsOf(events, g, n)|
    ensures var (code, time) := CallsOf(events, g, n)[i];
      events[CallPositions(events, g, n)[i]].variant == A11y(code) && events[CallPositions(events, g, n)[i]].timestamp == time
  {
    CallsAtPositions(events, g, n);
    CallsAtPositions(events, g, n - 1);
    if i < |CallPositions(events, g, n - 1)| {
      CallAtPosition(events, g, n - 1, i);
    }
  }

  /** The atom reports the grant at `g`, and of the calls exactly those at the positions `at`, in order. */
  ghost predicate ReportsAt(atom: Atom, events: seq<Event>, g: nat, at: seq<nat>) {
    && g < |events| && events[g].variant == RuntimePermissionGrant(atom.permission)
    && atom.uid == events[g].uid && atom.timestampMs == events[g].timestamp / 1_000_000
    && |atom.codes| == |atom.timesMs| == |at|
    && (forall i :: 0 <= i < |at| ==>
          && at[i] < |events| && events[at[i]].variant == A11y(atom.codes[i])
          && atom.timesMs[i] == events[at[i]].timestamp / 1_000_000)
  }

  /**
  What a uid's k-th atom says: in the descending list of the uid's events it reports the k-th grant
  with exactly the calls shortly before it, from the latest to the earliest.
  */
  lemma {:induction false} AtomReports(evs: seq<Event>, k: nat) returns (g: nat, at: seq<nat>)
    requires k < |UidAtoms(evs)|
    ensures var sorted := SortDescending(evs);
      && k < |Grants(sorted, |sorted|)| && g == Grants(sorted, |sorted|)[k]
      && ReportsAt(UidAtoms(evs)[k], sorted, g, at)
      && (forall i, j :: 0 <= i < j < |at| ==> at[i] < at[j])
      && (forall i: nat :: i < |sorted| ==> (i in at <==> Precedes(sorted, i, g)))
  {
    var sorted := SortDescending(evs);
    SortDescendingIs(evs, 0);
    g := Grants(sorted, |sorted|)[k];
    at := CallPositions(sorted, g, |sorted|);
    AtomAtPositions(sorted, g);
    forall i, j | 0 <= i < j < |at|
      ensures at[i] < at[j]
    {
      PositionsAscend(sorted, g, |sorted|, i, j);
    }
    forall i: nat | i < |sorted|
      ensures i in at <==> Precedes(sorted, i, g)
    {
      JoinsIff(sorted, i, g);
      if Joins(sorted, i, g) {
        PositionListed(sorted, g, |sorted|, i);
      }
    }
  }

  lemma {:induction false} AtomAtPositions(events: seq<Event>, g: nat)
    requires g < |events| && events[g].variant.RuntimePermissionGrant?
    ensures ReportsAt(AtomOf(RecordOf(events, g, |events|)), events, g, CallPositions(events, g, |events|))
  {
    CallsAtPositions(events, g, |events|);
    forall i | 0 <= i < |CallPositions(events, g, |events|)|
      ensures var (code, time) := CallsOf(events, g, |events|)[i];
        var at := CallPositions(events, g, |events|)[i];
        events[at].variant == A11y(code) && events[at].timestamp == time
    {
      CallAtPosition(events, g, |events|, i);
    }
  }

  lemma {:induction false} AtomsCarryUid(evs: seq<Event>, uid: int, atom: Atom)
    requires (forall e :: e in evs ==> e.uid == uid) && atom in UidAtoms(evs)
    ensures atom.uid == uid
  {
    var sorted := SortDescending(evs);
    SortSorts(evs, NegatedTimestamp);
    var k :| 0 <= k < |UidAtoms(evs)| && UidAtoms(evs)[k] == atom;
    var g := Grants(sorted, |sorted|)[k];
    assert sorted[g] in multiset(sorted);
    assert Associated(sorted, |sorted|)[k].uid == sorted[g].uid;
  }

  /** The log grew by exactly the atoms of each uid's recorded events, uids in any order. */
  ghost predicate Reports(before: seq<Atom>, after: seq<Atom>, events: map<int, seq<Event>>) {
    forall atom ::
      multiset(after)[atom] == multiset(before)[atom] + multiset(UidAtoms(Bucket(events, atom.uid)))[atom]
  }

  /** The log grew by exactly the atoms that each uid's own items call for. */
  ghost predicate ReportsItems(before: seq<Atom>, after: seq<Atom>, classify: Classifier, items: seq<AccessibilityEvent>) {
    forall atom ::
      multiset(after)[atom] == multiset(before)[atom] + multiset(UidAtoms(EventsFor(classify, items, atom.uid)))[atom]
  }

  class AccessibilityHandler {
    var events: map<int, seq<Event>>
    var written: seq<Atom>

    constructor ()
      ensures events == map[] && written == []
    {
      events := map[];
      written := [];
    }

    /** An error, and an item that is ignored, change nothing. */
    method OnItem(svc: Services, data: AccessibilityEvent) returns (ok: bool)
      modifies this`events
      ensures ok <==> Classify(svc, data).Ok?
      ensures events == Push(old(events), Classify(svc, data))
    {
      var r := ClassifyItem(svc, data);
      match r {
        case Err =>
          return false;
        case Ok(None) =>
          return true;
        case Ok(Some(event)) =>
          events := events[event.uid := Bucket(events, event.uid) + [event]];
          return true;
      }
    }

    /** Uids are visited in any order; each one's events contribute exactly their own atoms. */
    method OnFinished()
      requires forall uid :: uid in events ==> forall e :: e in events[uid] ==> e.uid == uid
      modifies this
      ensures Reports(old(written), written, old(events))
    {
      var grants: seq<GrantRecord> := [];
      var rest := events.Keys;
      while rest != {}
        invariant rest <= old(events.Keys) && events.Keys == old(events.Keys) && written == old(written)
        invariant forall uid :: uid in rest ==> events[uid] == old(events)[uid]
        invariant Collected(grants, old(events), old(events.Keys) - rest)
        decreases rest
      {
        var uid := AnyOf(rest);
        var sorted := SortDescending(events[uid]);
        events := events[uid := sorted];
        var records := AssociateEvents(sorted);
        OnePassIsAssociated(sorted, |sorted|);
        CollectOne(grants, old(events), old(events.Keys) - rest, uid);
        grants := grants + records;
        assert old(events.Keys) - (rest - {uid}) == old(events.Keys) - rest + {uid};
        rest := rest - {uid};
      }
      assert old(events.Keys) - rest == old(events.Keys);
      CollectedIsReported(written, grants, old(events));
      written := written + AtomsOf(grants);
    }
  }

  /** `grants` holds the records of the uids in `done`. */
  ghost predicate Collected(grants: seq<GrantRecord>, events: map<int, seq<Event>>, done: set<int>)
    requires done <= events.Keys
  {
    forall atom ::
      multiset(AtomsOf(grants))[atom] ==
      if atom.uid in done then multiset(UidAtoms(events[atom.uid]))[atom] else 0
  }

  lemma {:induction false} CollectedIsReported(before: seq<Atom>, grants: seq<GrantRecord>, events: map<int, seq<Event>>)
    requires Collected(grants, events, events.Keys)
    ensures Reports(before, before + AtomsOf(grants), events)
  {
    EmptyHasNoAtoms();
  }

  lemma {:induction false} CollectOne(grants: seq<GrantRecord>, events: map<int, seq<Event>>, done: set<int>, uid: int)
    requires done <= events.Keys && uid in events && uid !in done
    requires Collected(grants, events, done)
    requires forall e :: e in events[uid] ==> e.uid == uid
    ensures var sorted := SortDescending(events[uid]);
      Collected(grants + Associated(sorted, |sorted|), events, done + {uid})
  {
    var sorted := SortDescending(events[uid]);
    var records := Associated(sorted, |sorted|);
    AtomsOfAppend(grants, records);
    forall atom: Atom
      ensures multiset(AtomsOf(grants + records))[atom] ==
        if atom.uid in done + {uid} then multiset(UidAtoms(events[atom.uid]))[atom] else 0
    {
      if atom in AtomsOf(records) {
        AtomsCarryUid(events[uid], uid, atom);
      }
    }
  }

  lemma {:induction false} EmptyHasNoAtoms()
    ensures UidAtoms([]) == []
  {
  }

  lemma {:induction false} AtomsOfAppend(a: seq<GrantRecord>, b: seq<GrantRecord>)
    ensures AtomsOf(a + b) == AtomsOf(a) + AtomsOf(b)
  {
    assert forall i :: 0 <= i < |a + b| ==> AtomsOf(a + b)[i] == (AtomsOf(a) + AtomsOf(b))[i];
  }

  /** The handler has recorded exactly what the items call for. */
  ghost predicate Recorded(events: map<int, seq<Event>>, classify: Classifier, items: seq<AccessibilityEvent>) {
    forall uid :: Bucket(events, uid) == EventsFor(classify, items, uid)
  }

  lemma {:induction false} RecordedOne(events: map<int, seq<Event>>, classify: Classifier, items: seq<AccessibilityEvent>, i: nat)
    requires i < |items| && Recorded(events, classify, items[..i])
    ensures Recorded(Push(events, classify(items[i])), classify, items[..i + 1])
  {
    var events' := Push(events, classify(items[i]));
    forall uid
      ensures Bucket(events', uid) == EventsFor(classify, items[..i + 1], uid)
    {
      assert items[..i + 1][..i] == items[..i];
      assert Bucket(events', uid) == Bucket(events, uid) + NewFor(classify, items[i], uid);
    }
  }

  lemma {:induction false} RecordedCarriesUid(events: map<int, seq<Event>>, classify: Classifier, items: seq<AccessibilityEvent>)
    requires Recorded(events, classify, items)
    ensures forall uid :: uid in events ==> forall e :: e in events[uid] ==> e.uid == uid
  {
    forall uid | uid in events
      ensures forall e :: e in events[uid] ==> e.uid == uid
    {
      assert Bucket(events, uid) == events[uid];
      EventsForCarryUid(classify, items, uid);
    }
  }

  lemma {:induction false} RecordedIsReported(before: seq<Atom>, after: seq<Atom>, events: map<int, seq<Event>>, classify: Classifier, items: seq<AccessibilityEvent>)
    requires Recorded(events, classify, items) && Reports(before, after, events)
    ensures ReportsItems(before, after, classify, items)
  {
    forall atom: Atom
      ensures multiset(after)[atom] == multiset(before)[atom] + multiset(UidAtoms(EventsFor(classify, items, atom.uid)))[atom]
    {
      assert Bucket(events, atom.uid) == EventsFor(classify, items, atom.uid);
    }
  }

  method FeedItems(handler: AccessibilityHandler, svc: Services, items: seq<AccessibilityEvent>) returns (ok: bool)
    requires handler.events == map[]
    modifies handler`events
    ensures ok <==> forall i :: 0 <= i < |items| ==> Classify(svc, items[i]).Ok?
    ensures ok ==> Recorded(handler.events, ClassifierOf(svc), items)
  {
    var i := 0;
    ghost var classify := ClassifierOf(svc);
    while i < |items|
      invariant 0 <= i <= |items|
      invariant forall k :: 0 <= k < i ==> Classify(svc, items[k]).Ok?
      invariant Recorded(handler.events, classify, items[..i])
    {
      ghost var before := handler.events;
      var accepted := handler.OnItem(svc, items[i]);
      if !accepted {
        return false;
      }
      RecordedOne(before, classify, items, i);
      i := i + 1;
    }
    assert items[..i] == items;
    ok := true;
  }

  /** A whole poll: the first failing item ends it without atoms; otherwise each uid's own events decide its atoms. */
  method Poll(handler: AccessibilityHandler, svc: Services, items: seq<AccessibilityEvent>) returns (ok: bool)
    requires handler.events == map[]
    modifies handler
    ensures ok <==> forall i :: 0 <= i < |items| ==> Classify(svc, items[i]).Ok?
    ensures !ok ==> handler.written == old(handler.written)
    ensures ok ==> ReportsItems(old(handler.written), handler.written, ClassifierOf(svc), items)
  {
    ok := FeedItems(handler, svc, items);
    if ok {
      ghost var recorded := handler.events;
      RecordedCarriesUid(recorded, ClassifierOf(svc), items);
      handler.OnFinished();
      RecordedIsReported(old(handler.written), handler.written, recorded, ClassifierOf(svc), items);
    }
  }

  // ----- arrival order -----

  lemma {:induction false} EventsForAppend(classify: Classifier, a: seq<AccessibilityEvent>, b: seq<AccessibilityEvent>, uid: int)
    ensures EventsFor(classify, a + b, uid) == EventsFor(classify, a, uid) + EventsFor(classify, b, uid)
  {
    if b == [] {
      assert a + b == a;
    } else {
      var n := |b| - 1;
      assert (a + b)[..|a + b| - 1] == a + b[..n];
      EventsForAppend(classify, a, b[..n], uid);
    }
  }

  lemma {:induction false} EventsForPermuted(classify: Classifier, a: seq<AccessibilityEvent>, b: seq<AccessibilityEvent>, uid: int)
    requires multiset(a) == multiset(b)
    ensures multiset(EventsFor(classify, a, uid)) == multiset(EventsFor(classify, b, uid))
  {
    assert |a| == |multiset(a)| == |multiset(b)| == |b|;
    if a != [] {
      var n := |a| - 1;
      assert a == a[..n] + [a[n]];
      assert a[n] in multiset(b);
      var i :| 0 <= i < |b| && b[i] == a[n];
      var left, right := b[..i], b[i + 1..];
      assert b == left + ([b[i]] + right);
      assert multiset(left + right) == multiset(b) - multiset{b[i]};
      EventsForPermuted(classify, a[..n], left + right, uid);
      EventsForAppend(classify, left, right, uid);
      EventsForAppend(classify, left, [b[i]] + right, uid);
      EventsForAppend(classify, [b[i]], right, uid);
      EventsForAppend(classify, a[..n], [a[n]], uid);
    }
  }

  /** Recorded events of one uid with one timestamp are equal. */
  ghost predicate NoTies(classify: Classifier, items: seq<AccessibilityEvent>) {
    forall uid :: TieFree(EventsFor(classify, items, uid), NegatedTimestamp)
  }

  /**
  Arrival-order independence: for every permutation of the incoming items the poll succeeds or fails
  alike, and each uid gives rise to the very same atoms in the same order.
  */
  lemma {:induction false} ArrivalOrderIndependent(classify: Classifier, a: seq<AccessibilityEvent>, b: seq<AccessibilityEvent>, uid: int)
    requires multiset(a) == multiset(b) && NoTies(classify, a)
    ensures (forall i :: 0 <= i < |a| ==> classify(a[i]).Ok?) <==>
            (forall i :: 0 <= i < |b| ==> classify(b[i]).Ok?)
    ensures UidAtoms(EventsFor(classify, a, uid)) == UidAtoms(EventsFor(classify, b, uid))
  {
    SameMembers(a, b);
    SameMembers(b, a);
    EventsForPermuted(classify, a, b, uid);
    var ea, eb := EventsFor(classify, a, uid), EventsFor(classify, b, uid);
    SortSorts(ea, NegatedTimestamp);
    SortSorts(eb, NegatedTimestamp);
    var sa := SortDescending(ea);
    SameMembers(sa, ea);
    SortIsUnique(sa, SortDescending(eb), NegatedTimestamp);
  }

  /** So two polls of the same items, in whatever order they arrive, write the same multiset of atoms. */
  lemma {:induction false} SameAtomsInAnyOrder(classify: Classifier, before: seq<Atom>,
                                               a: seq<AccessibilityEvent>, afterA: seq<Atom>, b: seq<AccessibilityEvent>, afterB: seq<Atom>)
    requires multiset(a) == multiset(b) && NoTies(classify, a)
    requires ReportsItems(before, afterA, classify, a) && ReportsItems(before, afterB, classify, b)
    ensures multiset(afterA) == multiset(afterB)
  {
    forall atom: Atom
      ensures multiset(afterA)[atom] == multiset(afterB)[atom]
    {
      ArrivalOrderIndependent(classify, a, b, atom.uid);
    }
  }

  /** Items recorded for other uids do not matter to a uid's events, and so not to its atoms. */
  lemma {:induction false} OtherUidsDoNotMatter(classify: Classifier, items: seq<AccessibilityEvent>, k: nat, uid: int)
    requires k < |items| && NewFor(classify, items[k], uid) == []
    ensures EventsFor(classify, items[..k] + items[k + 1..], uid) == EventsFor(classify, items, uid)
  {
    assert items == items[..k] + ([items[k]] + items[k + 1..]);
    EventsForAppend(classify, items[..k], [items[k]] + items[k + 1..], uid);
    EventsForAppend(classify, [items[k]], items[k + 1..], uid);
    EventsForAppend(classify, items[..k], items[k + 1..], uid);
  }

  // ----- which ties matter -----

  /** The records of a list: by OnePassIsAssociated, what the association makes of it. */
  function Records(events: seq<Event>): seq<GrantRecord> {
    OnePass(events, |events|)
  }

  /** The records after `rest`, with those before it given. */
  function Continue(rs: seq<GrantRecord>, rest: seq<Event>): seq<GrantRecord> {
    if rest == [] then rs else Extend(Continue(rs, rest[..|rest| - 1]), rest[|rest| - 1])
  }

  lemma {:induction false} OnePassPrefix(a: seq<Event>, b: seq<Event>, n: nat)
    requires n <= |a| && n <= |b| && a[..n] == b[..n]
    ensures OnePass(a, n) == OnePass(b, n)
  {
    if n > 0 {
      assert a[..n - 1] == a[..n][..n - 1] && b[..n - 1] == b[..n][..n - 1];
      assert a[n - 1] == a[..n][n - 1] && b[n - 1] == b[..n][n - 1];
      OnePassPrefix(a, b, n - 1);
    }
  }

  lemma {:induction false} RecordsContinue(before: seq<Event>, rest: seq<Event>)
    ensures Records(before + rest) == Continue(Records(before), rest)
    decreases |rest|
  {
    if rest == [] {
      assert before + rest == before;
    } else {
      var n := |rest| - 1;
      var all := before + rest;
      assert all[..|all| - 1] == before + rest[..n];
      OnePassPrefix(all, before + rest[..n], |all| - 1);
      RecordsContinue(before, rest[..n]);
    }
  }

  /** The calls of `rest` before its first grant that lie less than ten seconds before a grant at `time`. */
  function Joined(time: nat, rest: seq<Event>): seq<(int, nat)> {
    if rest == [] then []
    else
      var front, e := Joined(time, rest[..|rest| - 1]), rest[|rest| - 1];
      if e.variant.A11y? && LastGrant(rest, |rest|) < 0 && Elapsed(time, e.timestamp) < A11Y_EVENT_WINDOW_NS
      then front + [(e.variant.code, e.timestamp)] else front
  }

  function WithCalls(r: GrantRecord, calls: seq<(int, nat)>): GrantRecord {
    r.(calls := r.calls + calls)
  }

  lemma {:induction false} LastGrantPrefix(a: seq<Event>, b: seq<Event>, n: nat)
    requires n <= |a| && n <= |b| && a[..n] == b[..n]
    ensures LastGrant(a, n) == LastGrant(b, n)
  {
    if n > 0 {
      assert a[..n - 1] == a[..n][..n - 1] && b[..n - 1] == b[..n][..n - 1];
      assert a[n - 1] == a[..n][n - 1] && b[n - 1] == b[..n][n - 1];
      LastGrantPrefix(a, b, n - 1);
    }
  }

  /** What `rest` does: its calls up to its first grant join the last record, and what follows is the same for any last record. */
  lemma {:induction false} ContinueSplits(rs: seq<GrantRecord>, r: GrantRecord, rest: seq<Event>)
    ensures Continue(rs + [r], rest) == rs + [WithCalls(r, Joined(r.timestamp, rest))] + Records(rest)
    decreases |rest|
  {
    if rest == [] {
      assert r.calls + [] == r.calls;
    } else {
      var n := |rest| - 1;
      var front := rest[..n];
      ContinueSplits(rs, r, front);
      var r' := WithCalls(r, Joined(r.timestamp, front));
      RecordsOneMore(rest);
      JoinedOneMore(r, rest);
      if rest[n].variant.A11y? && Records(front) == [] {
        assert rs + [r'] + Records(front) == rs + [r'];
        CallOnLast(rs, r', rest[n]);
      } else {
        ExtendAfter(rs + [r'], Records(front), rest[n]);
      }
    }
  }

  lemma {:induction false} RecordsOneMore(rest: seq<Event>)
    requires rest != []
    ensures Records(rest) == Extend(Records(rest[..|rest| - 1]), rest[|rest| - 1])
  {
    OnePassPrefix(rest, rest[..|rest| - 1], |rest| - 1);
  }

  /** Whether `e` would join a record of this time. */
  predicate Near(time: nat, e: Event) {
    Elapsed(time, e.timestamp) < A11Y_EVENT_WINDOW_NS
  }

  /** The last event joins if it is a call in the window and no grant comes before it. */
  lemma {:induction false} JoinedOneMore(r: GrantRecord, rest: seq<Event>)
    requires rest != []
    ensures var front, e := rest[..|rest| - 1], rest[|rest| - 1];
      WithCalls(r, Joined(r.timestamp, rest)) ==
      if e.variant.A11y? && Records(front) == [] && Near(r.timestamp, e)
      then WithCalls(WithCalls(r, Joined(r.timestamp, front)), [(e.variant.code, e.timestamp)])
      else WithCalls(r, Joined(r.timestamp, front))
  {
    var front, e := rest[..|rest| - 1], rest[|rest| - 1];
    LastGrantPrefix(rest, front, |front|);
    NoRecordsWithoutGrant(front);
    if e.variant.A11y? && Records(front) == [] && Near(r.timestamp, e) {
      var call := [(e.variant.code, e.timestamp)];
      assert r.calls + (Joined(r.timestamp, front) + call) == r.calls + Joined(r.timestamp, front) + call;
    }
  }

  lemma {:induction false} CallOnLast(rs: seq<GrantRecord>, r: GrantRecord, e: Event)
    requires e.variant.A11y?
    ensures Extend(rs + [r], e) ==
      if Near(r.timestamp, e) then rs + [WithCalls(r, [(e.variant.code, e.timestamp)])] else rs + [r]
  {
    assert (rs + [r])[..|rs|] == rs;
  }

  lemma {:induction false} NoRecordsWithoutGrant(events: seq<Event>)
    ensures Records(events) == [] <==> LastGrant(events, |events|) < 0
    ensures Records(events) != [] ==>
      Records(events)[|Records(events)| - 1].timestamp == events[LastGrant(events, |events|)].timestamp
  {
    OnePassIsAssociated(events, |events|);
    LastListed(events, |events|);
  }

  /** An event after some records leaves those before them alone. */
  lemma {:induction false} ExtendAfter(rs: seq<GrantRecord>, more: seq<GrantRecord>, e: Event)
    requires rs != []
    ensures Extend(rs + more, e) ==
      if more == [] && e.variant.A11y? then Extend(rs, e) else rs + Extend(more, e)
  {
    if more == [] {
      assert rs + more == rs;
    } else {
      var n := |rs + more| - 1;
      assert (rs + more)[..n] == rs + more[..|more| - 1];
    }
  }

  /** The record of a grant that no call has joined. */
  function Alone(grant: Event): GrantRecord
    requires grant.variant.RuntimePermissionGrant?
  {
    GrantRecord(grant.uid, grant.timestamp, grant.variant.permission, [])
  }

  lemma {:induction false} AfterTwo(before: seq<Event>, x: Event, y: Event, after: seq<Event>)
    ensures Records(before + [x, y] + after) == Continue(Extend(Extend(Records(before), x), y), after)
  {
    RecordsContinue(before + [x, y], after);
    RecordsOneMore(before + [x, y]);
    RecordsOneMore(before + [x]);
    assert (before + [x, y])[..|before| + 1] == before + [x];
    assert (before + [x])[..|before|] == before;
  }

  /** The event lies in the window of the latest grant listed before it. */
  predicate InWindow(before: seq<Event>, e: Event) {
    var g := LastGrant(before, |before|);
    g >= 0 && Near(before[g].timestamp, e)
  }

  lemma {:induction false} CallsTied(before: seq<Event>, x: Event, y: Event, after: seq<Event>)
    requires x.variant.A11y? && y.variant.A11y? && x.timestamp == y.timestamp && x.variant.code != y.variant.code
    ensures Records(before + [x, y] + after) == Records(before + [y, x] + after) <==> !InWindow(before, x)
  {
    var rs := Records(before);
    AfterTwo(before, x, y, after);
    AfterTwo(before, y, x, after);
    NoRecordsWithoutGrant(before);
    if InWindow(before, x) {
      var n := |rs| - 1;
      assert rs == rs[..n] + [rs[n]];
      CallsInWindow(rs[..n], rs[n], x, y, after);
    } else {
      assert Extend(rs, x) == rs && Extend(rs, y) == rs;
    }
  }

  lemma {:induction false} CallsInWindow(front: seq<GrantRecord>, r: GrantRecord, x: Event, y: Event, after: seq<Event>)
    requires x.variant.A11y? && y.variant.A11y? && x.timestamp == y.timestamp && x.variant.code != y.variant.code
    requires Near(r.timestamp, x)
    ensures Continue(Extend(Extend(front + [r], x), y), after) != Continue(Extend(Extend(front + [r], y), x), after)
  {
    var cx, cy := (x.variant.code, x.timestamp), (y.variant.code, y.timestamp);
    var rx, ry := WithCalls(r, [cx]), WithCalls(r, [cy]);
    CallOnLast(front, r, x);
    CallOnLast(front, rx, y);
    CallOnLast(front, r, y);
    CallOnLast(front, ry, x);
    ContinueSplits(front, WithCalls(rx, [cy]), after);
    ContinueSplits(front, WithCalls(ry, [cx]), after);
    var one, two := Continue(front + [WithCalls(rx, [cy])], after), Continue(front + [WithCalls(ry, [cx])], after);
    assert one[|front|].calls[|r.calls|] == cx && two[|front|].calls[|r.calls|] == cy;
  }

  lemma {:induction false} GrantAndCallTied(before: seq<Event>, grant: Event, call: Event, after: seq<Event>)
    requires grant.variant.RuntimePermissionGrant? && call.variant.A11y? && grant.timestamp == call.timestamp
    ensures Records(before + [grant, call] + after) != Records(before + [call, grant] + after)
  {
    var rs, c := Records(before), (call.variant.code, call.timestamp);
    AfterTwo(before, grant, call, after);
    AfterTwo(before, call, grant, after);
    CallOnLast(rs, Alone(grant), call);
    ContinueSplits(rs, WithCalls(Alone(grant), [c]), after);
    ContinueSplits(Extend(rs, call), Alone(grant), after);
    var one, two := Continue(rs + [WithCalls(Alone(grant), [c])], after), Continue(Extend(rs, call) + [Alone(grant)], after);
    assert |Extend(rs, call)| == |rs|;
    assert |one[|rs|].calls| == |two[|rs|].calls| + 1;
  }

  lemma {:induction false} GrantsTied(before: seq<Event>, x: Event, y: Event, after: seq<Event>)
    requires x.variant.RuntimePermissionGrant? && y.variant.RuntimePermissionGrant? && x.timestamp == y.timestamp
    ensures Records(before + [x, y] + after) ==
      Records(before) + [Alone(x), WithCalls(Alone(y), Joined(x.timestamp, after))] + Records(after)
  {
    AfterTwo(before, x, y, after);
    ContinueSplits(Records(before) + [Alone(x)], Alone(y), after);
  }

  /**
  Exactly which ties matter. Two neighbouring events of one uid and one timestamp can change places
  without a change to the list of records if and only if both are calls outside any grant's window.
  */
  lemma {:induction false} TieSwapIff(before: seq<Event>, x: Event, y: Event, after: seq<Event>)
    requires x != y && x.uid == y.uid && x.timestamp == y.timestamp
    ensures Records(before + [x, y] + after) == Records(before + [y, x] + after) <==>
      x.variant.A11y? && y.variant.A11y? && !InWindow(before, x)
  {
    if x.variant.A11y? && y.variant.A11y? {
      CallsTied(before, x, y, after);
    } else if y.variant.A11y? {
      GrantAndCallTied(before, x, y, after);
    } else if x.variant.A11y? {
      GrantAndCallTied(before, y, x, after);
    } else {
      GrantsTied(before, x, y, after);
      GrantsTied(before, y, x, after);
      assert Records(before + [x, y] + after)[|Records(before)|] == Alone(x);
      assert Records(before + [y, x] + after)[|Records(before)|] == Alone(y);
    }
  }

  /** Two tied grants that change places only change the order of the records, unless a later call joins them. */
  lemma {:induction false} GrantSwapIff(before: seq<Event>, x: Event, y: Event, after: seq<Event>)
    requires x.variant.RuntimePermissionGrant? && y.variant.RuntimePermissionGrant?
    requires x != y && x.uid == y.uid && x.timestamp == y.timestamp
    ensures multiset(Records(before + [x, y] + after)) == multiset(Records(before + [y, x] + after)) <==>
      Joined(x.timestamp, after) == []
  {
    var calls := Joined(x.timestamp, after);
    var a, b := Alone(x), Alone(y);
    GrantsTied(before, x, y, after);
    GrantsTied(before, y, x, after);
    if calls == [] {
      assert WithCalls(a, calls) == a && WithCalls(b, calls) == b;
      PairOrder(Records(before), a, b, Records(after));
    } else {
      assert |WithCalls(a, calls).calls| > 0 && |WithCalls(b, calls).calls| > 0;
      CountTwo(Records(before), a, WithCalls(b, calls), Records(after), a);
      CountTwo(Records(before), b, WithCalls(a, calls), Records(after), a);
    }
  }

  lemma {:induction false} CountTwo(front: seq<GrantRecord>, a: GrantRecord, b: GrantRecord, back: seq<GrantRecord>, r: GrantRecord)
    ensures multiset(front + [a, b] + back)[r] ==
      multiset(front)[r] + (if r == a then 1 else 0) + (if r == b then 1 else 0) + multiset(back)[r]
  {
    assert multiset([a, b])[r] == (if r == a then 1 else 0) + (if r == b then 1 else 0);
  }

  lemma {:induction false} PairOrder(front: seq<GrantRecord>, a: GrantRecord, b: GrantRecord, back: seq<GrantRecord>)
    ensures multiset(front + [a, b] + back) == multiset(front + [b, a] + back)
  {
    assert multiset([a, b]) == multiset([b, a]);
  }

  lemma {:induction false} PairAtoms(a: Event, b: Event)
    requires a.timestamp == b.timestamp
    ensures UidAtoms([a, b]) == AtomsOf(Extend(Extend([], a), b))
  {
    var evs := [a, b];
    SortSorted(evs, NegatedTimestamp);
    OnePassIsAssociated(evs, 2);
    assert OnePass(evs, 0) == [];
    assert OnePass(evs, 1) == Extend([], a);
  }

  lemma {:induction false} CallJoinsAlone(grant: Event, call: Event)
    requires grant.variant.RuntimePermissionGrant? && call.variant.A11y? && grant.timestamp == call.timestamp
    ensures Extend([Alone(grant)], call) == [Alone(grant).(calls := [(call.variant.code, call.timestamp)])]
  {
    var r := Alone(grant);
    assert [r][..0] == [];
    assert r.calls + [(call.variant.code, call.timestamp)] == [(call.variant.code, call.timestamp)];
  }

  lemma {:induction false} PairRecords(grant: Event, call: Event)
    requires grant.variant.RuntimePermissionGrant? && call.variant.A11y? && grant.timestamp == call.timestamp
    ensures Extend(Extend([], grant), call) == [Alone(grant).(calls := [(call.variant.code, call.timestamp)])]
    ensures Extend(Extend([], call), grant) == [Alone(grant)]
  {
    var none: seq<GrantRecord> := [];
    assert Extend(none, grant) == [Alone(grant)];
    CallJoinsAlone(grant, call);
    assert Extend(none, call) == none;
  }

  /** One uid's events are processed in the same order for every order of arrival if and only if no two of them are tied. */
  lemma {:induction false} ProcessingOrderFixedIff(evs: seq<Event>)
    ensures TieFree(evs, NegatedTimestamp) <==>
      forall p :: multiset(p) == multiset(evs) ==> SortDescending(p) == SortDescending(evs)
  {
    SortedOrderFixedIff(evs, NegatedTimestamp);
    if TieFree(evs, NegatedTimestamp) {
      forall p | multiset(p) == multiset(evs)
        ensures SortDescending(p) == SortDescending(evs)
      {
        assert Sort(p, NegatedTimestamp) == Sort(evs, NegatedTimestamp);
      }
    } else {
      var p :| multiset(p) == multiset(evs) && Sort(p, NegatedTimestamp) != Sort(evs, NegatedTimestamp);
      assert SortDescending(p) != SortDescending(evs);
    }
  }

  /** The absence of ties is needed: a grant and a call at one instant are reported by order of arrival. */
  lemma {:induction false} TieMatters(grant: Event, call: Event)
    requires grant.variant.RuntimePermissionGrant? && call.variant.A11y? && grant.timestamp == call.timestamp
    ensures multiset(UidAtoms([grant, call])) != multiset(UidAtoms([call, grant]))
  {
    PairAtoms(grant, call);
    PairAtoms(call, grant);
    PairRecords(grant, call);
    var one, two := UidAtoms([grant, call]), UidAtoms([call, grant]);
    assert |one| == |two| == 1 && |one[0].codes| == 1 && |two[0].codes| == 0;
    assert one[0] in multiset(one) && one[0] !in multiset(two);
  }
}
