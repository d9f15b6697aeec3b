/** Instrumentation events on their way over binder: a bundle flattened to entries and rebuilt from them. */
module EventCodec {
  import opened Common

  /** The AIDL union. A default-constructed one holds its first field, a null string. */
  datatype Value = StringValue(text: Option<string>) | IntValue(number: int) | OtherTag(tag: int)

  const DEFAULT_VALUE := StringValue(None)

  datatype Entry = Entry(key: string, value: Value)

  /** The AIDL parcelable; a null payload is None. */
  datatype Event = Event(uid: int, timestampMs: int, payloadId: int, payload: Option<seq<Entry>>)

  datatype BundleValue = Null | Text(text: string) | Number(number: int) | Unsupported

  type Bundle = map<string, BundleValue>

  /** The public event; `timestamp` is an Instant in nanoseconds since the epoch. */
  datatype InstrumentationEvent = InstrumentationEvent(uid: int, timestamp: int, payloadId: int, payload: Bundle)

  // ----- sendEvent -----

  function ValueOf(v: BundleValue): Value {
    match v
    case Text(text) => StringValue(Some(text))
    case Number(number) => IntValue(number)
    case _ => DEFAULT_VALUE
  }

  /** `entries` lists every key of the bundle once, in some order, with its value. */
  ghost predicate IsEncoding(entries: seq<Entry>, bundle: Bundle) {
    && (forall i :: 0 <= i < |entries| ==>
          entries[i].key in bundle && entries[i].value == ValueOf(bundle[entries[i].key]))
    && (forall i, j :: 0 <= i < j < |entries| ==> entries[i].key != entries[j].key)
    && (forall key :: key in bundle ==> HasKey(entries, key))
  }

  ghost predicate HasKey(entries: seq<Entry>, key: string) {
    exists i :: 0 <= i < |entries| && entries[i].key == key
  }

  ghost predicate Convertible(e: InstrumentationEvent) {
    && I64_MIN <= e.timestamp / NANOS_PER_MILLI <= I64_MAX
    && (forall key :: key in e.payload ==> !e.payload[key].Unsupported?)
  }

  method FlattenPayload(payload: Bundle) returns (r: Result<seq<Entry>>)
    ensures r.Ok? <==> forall key :: key in payload ==> !payload[key].Unsupported?
    ensures r.Ok? ==> IsEncoding(r.value, payload)
  {
    var entries: seq<Entry> := [];
    var rest := payload.Keys;
    while rest != {}
      invariant rest <= payload.Keys
      invariant forall key :: key in payload && key !in rest ==> !payload[key].Unsupported?
      invariant IsEncoding(entries, payload - rest)
      decreases rest
    {
      var key := AnyOf(rest);
      if payload[key].Unsupported? {
        return Err;
      }
      ghost var done := payload - rest;
      rest := rest - {key};
      EncodingGrows(entries, done, key, payload[key]);
      assert payload - rest == done[key := payload[key]];
      entries := entries + [Entry(key, ValueOf(payload[key]))];
    }
    assert payload - rest == payload;
    r := Ok(entries);
  }

  lemma {:induction false} EncodingGrows(entries: seq<Entry>, bundle: Bundle, key: string, value: BundleValue)
    requires IsEncoding(entries, bundle) && key !in bundle
    ensures IsEncoding(entries + [Entry(key, ValueOf(value))], bundle[key := value])
  {
    var entries' := entries + [Entry(key, ValueOf(value))];
    forall k | k in bundle[key := value]
      ensures HasKey(entries', k)
    {
      if k == key {
        assert entries'[|entries|].key == k;
      } else {
        var i :| 0 <= i < |entries| && entries[i].key == k;
        assert entries'[i].key == k;
      }
    }
  }

  /** The event handed to `enqueueEvent`; Err where `sendEvent` throws. */
  method SendEvent(e: InstrumentationEvent) returns (r: Result<Event>)
    ensures r.Ok? <==> Convertible(e)
    ensures r.Ok? ==> IsSent(e, r.value)
  {
    var millis := e.timestamp / NANOS_PER_MILLI;
    if !(I64_MIN <= millis <= I64_MAX) {
      return Err;
    }
    var payload := FlattenPayload(e.payload);
    if payload.Err? {
      return Err;
    }
    r := Ok(Event(e.uid, millis, e.payloadId, Some(payload.value)));
  }

  ghost predicate IsSent(e: InstrumentationEvent, event: Event) {
    && event.uid == e.uid && event.payloadId == e.payloadId
    && event.timestampMs == e.timestamp / NANOS_PER_MILLI
    && event.payload.Some? && IsEncoding(event.payload.value, e.payload)
  }

  // ----- convertEvent -----

  predicate KnownTags(entries: seq<Entry>) {
    forall i :: 0 <= i < |entries| ==> !entries[i].value.OtherTag?
  }

  function BundleValueOf(v: Value): BundleValue {
    match v
    case StringValue(Some(text)) => Text(text)
    case StringValue(None) => Null
    case IntValue(number) => Number(number)
    case OtherTag(_) => Unsupported
  }

  /** The bundle in which each key has the value of its earliest entry. */
  ghost predicate EarliestWins(entries: seq<Entry>, bundle: Bundle) {
    && (forall key :: key in bundle ==> HasKey(entries, key))
    && (forall i :: 0 <= i < |entries| ==> entries[i].key in bundle)
    && (forall i :: IsFirst(entries, i) ==> bundle[entries[i].key] == BundleValueOf(entries[i].value))
  }

  /** No entry before the i-th has its key. */
  ghost predicate IsFirst(entries: seq<Entry>, i: int) {
    0 <= i < |entries| && forall j :: 0 <= j < i ==> entries[j].key != entries[i].key
  }

  /** Puts entries from the last to the first, later puts replacing earlier ones. */
  method ConvertPayload(entries: seq<Entry>) returns (r: Result<Bundle>)
    ensures r.Ok? <==> KnownTags(entries)
    ensures r.Ok? ==> EarliestWins(entries, r.value)
  {
    var bundle: Bundle := map[];
    var i := |entries|;
    while i > 0
      invariant 0 <= i <= |entries|
      invariant KnownTags(entries[i..]) && EarliestWins(entries[i..], bundle)
    {
      i := i - 1;
      var entry := entries[i];
      assert entries[i..] == [entry] + entries[i + 1..];
      PrependWins(entry, entries[i + 1..], bundle);
      match entry.value {
        case StringValue(text) =>
          bundle := bundle[entry.key := if text.Some? then Text(text.value) else Null];
        case IntValue(number) =>
          bundle := bundle[entry.key := Number(number)];
        case OtherTag(_) =>
          assert !KnownTags(entries);
          return Err;
      }
    }
    assert entries[0..] == entries;
    r := Ok(bundle);
  }

  lemma {:induction false} HasKeyPrepend(entry: Entry, entries: seq<Entry>, key: string)
    requires key == entry.key || HasKey(entries, key)
    ensures HasKey([entry] + entries, key)
  {
    var all := [entry] + entries;
    if key == entry.key {
      assert all[0].key == key;
    } else {
      var i :| 0 <= i < |entries| && entries[i].key == key;
      assert all[i + 1].key == key;
    }
  }

  lemma {:induction false} PrependKeys(entry: Entry, entries: seq<Entry>, bundle: Bundle)
    requires EarliestWins(entries, bundle)
    ensures var all, bundle' := [entry] + entries, bundle[entry.key := BundleValueOf(entry.value)];
      && (forall key :: key in bundle' ==> HasKey(all, key))
      && (forall i :: 0 <= i < |all| ==> all[i].key in bundle')
  {
    var all, bundle' := [entry] + entries, bundle[entry.key := BundleValueOf(entry.value)];
    forall key | key in bundle'
      ensures HasKey(all, key)
    {
      HasKeyPrepend(entry, entries, key);
    }
    forall i | 0 <= i < |all|
      ensures all[i].key in bundle'
    {
      assert i > 0 ==> all[i] == entries[i - 1];
    }
  }

  lemma {:induction false} PrependWins(entry: Entry, entries: seq<Entry>, bundle: Bundle)
    requires EarliestWins(entries, bundle)
    ensures EarliestWins([entry] + entries, bundle[entry.key := BundleValueOf(entry.value)])
  {
    var all, bundle' := [entry] + entries, bundle[entry.key := BundleValueOf(entry.value)];
    PrependKeys(entry, entries, bundle);
    forall i | IsFirst(all, i)
      ensures bundle'[all[i].key] == BundleValueOf(all[i].value)
    {
      if i > 0 {
        FirstInTail(entry, entries, i);
        assert all[i] == entries[i - 1];
      }
    }
  }

  lemma {:induction false} FirstInTail(entry: Entry, entries: seq<Entry>, i: nat)
    requires i > 0 && IsFirst([entry] + entries, i)
    ensures IsFirst(entries, i - 1) && entries[i - 1].key != entry.key
  {
    var all := [entry] + entries;
    assert all[0].key != all[i].key && all[i] == entries[i - 1];
    forall j | 0 <= j < i - 1
      ensures entries[j].key != entries[i - 1].key
    {
      assert all[j + 1] == entries[j];
    }
  }

  method ConvertEvent(event: Event) returns (r: Result<InstrumentationEvent>)
    ensures r.Ok? <==> event.payload.None? || KnownTags(event.payload.value)
    ensures r.Ok? ==> IsConverted(event, r.value)
  {
    var bundle: Bundle := map[];
    if event.payload.Some? {
      var converted := ConvertPayload(event.payload.value);
      if converted.Err? {
        return Err;
      }
      bundle := converted.value;
    }
    r := Ok(InstrumentationEvent(event.uid, event.timestampMs * NANOS_PER_MILLI, event.payloadId, bundle));
  }

  ghost predicate IsConverted(event: Event, e: InstrumentationEvent) {
    && e.uid == event.uid && e.payloadId == event.payloadId
    && e.timestamp == event.timestampMs * NANOS_PER_MILLI
    && EarliestWins(if event.payload.Some? then event.payload.value else [], e.payload)
  }

  // ----- round trip -----

  lemma {:induction false} EncodingHasKnownTags(entries: seq<Entry>, bundle: Bundle)
    requires IsEncoding(entries, bundle)
    ensures KnownTags(entries)
  {
  }

  lemma {:induction false} PayloadRoundTrip(entries: seq<Entry>, sent: Bundle, received: Bundle)
    requires IsEncoding(entries, sent) && EarliestWins(entries, received)
    requires forall key :: key in sent ==> !sent[key].Unsupported?
    ensures received == sent
  {
    forall key | key in sent
      ensures key in received && received[key] == sent[key]
    {
      assert HasKey(entries, key);
      var i :| 0 <= i < |entries| && entries[i].key == key;
      assert IsFirst(entries, i);
    }
    forall key | key in received
      ensures key in sent
    {
      assert HasKey(entries, key);
    }
  }

  /**
  A sent event can be converted, and what it converts to is the event that was sent if and only if
  the timestamp is a whole number of milliseconds.
  */
  lemma {:induction false} EventRoundTrip(e: InstrumentationEvent, event: Event)
    requires Convertible(e) && IsSent(e, event)
    ensures KnownTags(event.payload.value)
    ensures forall back :: IsConverted(event, back) ==>
      && (back == e <==> e.timestamp % NANOS_PER_MILLI == 0)
      && back.(timestamp := e.timestamp) == e
  {
    EncodingHasKnownTags(event.payload.value, e.payload);
    forall back | IsConverted(event, back)
      ensures back.payload == e.payload
    {
      PayloadRoundTrip(event.payload.value, e.payload, back.payload);
    }
  }

  /** An event on its way through both ends: it arrives whenever it can be sent, whole if its timestamp is whole. */
  method SendAndConvert(e: InstrumentationEvent) returns (r: Result<InstrumentationEvent>)
    ensures r.Ok? <==> Convertible(e)
    ensures r.Ok? ==> r.value == e.(timestamp := e.timestamp - e.timestamp % NANOS_PER_MILLI)
  {
    var sent := SendEvent(e);
    if sent.Err? {
      return Err;
    }
    EventRoundTrip(e, sent.value);
    r := ConvertEvent(sent.value);
    assert r.value.(timestamp := e.timestamp) == e;
  }
}
