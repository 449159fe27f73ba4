/**
 The event bus: subscriptions kept in insertion order, and publishing that writes to the ledger before it fans out.
 Between the start of a ledger write and its end, anything else may happen on the bus; an `Event` is one
 uninterrupted stretch and `Step` its effect.
 */
module EventBus {
  import opened Common
  import opened TopicMatcher
  import opened TopicPatterns

  type Id = nat

  datatype Envelope = Envelope(tenantId: string, eventType: string, aggregateType: string, aggregateId: string,
                               payload: string, metadata: Option<string>, version: Option<nat>)

  /** What a handler is given: the envelope without its tenant and version. */
  datatype Payload = Payload(eventType: string, aggregateType: string, aggregateId: string, payload: string,
                             metadata: Option<string>)

  function PayloadOf(e: Envelope): Payload {
    Payload(e.eventType, e.aggregateType, e.aggregateId, e.payload, e.metadata)
  }

  /** The payload says what the envelope says, field by field. */
  predicate Conveys(p: Payload, e: Envelope) {
    && p.eventType == e.eventType
    && p.aggregateType == e.aggregateType
    && p.aggregateId == e.aggregateId
    && p.payload == e.payload
    && p.metadata == e.metadata
  }

  datatype Subscription = Subscription(id: Id, pattern: string, handler: Id)

  /** A handler returns a promise that resolves or rejects, or throws before it returns one. */
  datatype Outcome = Resolves | Rejects | Throws

  /** A publishAndPersist call whose ledger write is pending; `recorded` once the row is in the ledger. */
  datatype Pending = Pending(envelope: Envelope, recorded: bool)

  datatype Entry =
    | Recorded(call: Id, envelope: Envelope)
    | Called(call: Id, subscription: Subscription, payload: Payload)

  /** `persisted` holds the calls that found a ledger writer, `calls` every call made so far. */
  datatype State = State(subscriptions: seq<Subscription>, hasWriter: bool, pending: map<Id, Pending>,
                         calls: set<Id>, persisted: set<Id>, trace: seq<Entry>)

  const INITIAL := State([], false, map[], {}, {}, [])

  datatype Event =
    | Subscribe(id: Id, pattern: string, handler: Id)
    | Unsubscribe(id: Id)
    | UnsubscribeAll
    | SetLedgerWriter
    | Publish(call: Id, envelope: Envelope, outcomes: Id -> Outcome)
    | PublishAndPersist(call: Id, envelope: Envelope, outcomes: Id -> Outcome)
    | LedgerWrites(call: Id)
    | PersistResolves(call: Id, outcomes: Id -> Outcome)
    | PersistRejects(call: Id)

  predicate Subscribed(subscriptions: seq<Subscription>, id: Id) {
    exists i :: 0 <= i < |subscriptions| && subscriptions[i].id == id
  }

  function Without(subscriptions: seq<Subscription>, id: Id): (r: seq<Subscription>)
    ensures forall i :: 0 <= i < |r| ==> r[i] in subscriptions && r[i].id != id
  {
    if subscriptions == [] then []
    else (if subscriptions[0].id == id then [] else [subscriptions[0]]) + Without(subscriptions[1..], id)
  }

  /** The subscriptions to a topic, in order; a pattern that does not compile stops the search with its error. */
  function Matching(subscriptions: seq<Subscription>, topic: string): Result<seq<Subscription>, SyntaxError> {
    if subscriptions == [] then Ok([])
    else match Matches(subscriptions[0].pattern, topic)
      case Err(e) => Err(e)
      case Ok(yes) =>
        match Matching(subscriptions[1..], topic)
        case Err(e) => Err(e)
        case Ok(rest) => Ok((if yes then [subscriptions[0]] else []) + rest)
  }

  /** The handlers are called in order; one that throws instead of returning a promise ends the loop. */
  function Deliver(call: Id, payload: Payload, subscriptions: seq<Subscription>, outcomes: Id -> Outcome): seq<Entry> {
    if subscriptions == [] then []
    else
      [Called(call, subscriptions[0], payload)]
      + if outcomes(subscriptions[0].handler).Throws? then [] else Deliver(call, payload, subscriptions[1..], outcomes)
  }

  function Dispatch(s: State, call: Id, e: Envelope, outcomes: Id -> Outcome): State {
    match Matching(s.subscriptions, e.eventType)
    case Err(_) => s
    case Ok(subs) => s.(trace := s.trace + Deliver(call, PayloadOf(e), subs, outcomes))
  }

  function Step(s: State, e: Event): Option<State> {
    match e
    case Subscribe(id, pattern, handler) =>
      if Subscribed(s.subscriptions, id) then None
      else Some(s.(subscriptions := s.subscriptions + [Subscription(id, pattern, handler)]))
    case Unsubscribe(id) => Some(s.(subscriptions := Without(s.subscriptions, id)))
    case UnsubscribeAll => Some(s.(subscriptions := []))
    case SetLedgerWriter => Some(s.(hasWriter := true))
    case Publish(call, envelope, outcomes) =>
      if call in s.calls then None
      else Some(Dispatch(s.(calls := s.calls + {call}), call, envelope, outcomes))
    case PublishAndPersist(call, envelope, outcomes) =>
      if call in s.calls then None
      else if s.hasWriter then
        Some(s.(calls := s.calls + {call}, persisted := s.persisted + {call},
                pending := s.pending[call := Pending(envelope, false)]))
      else Some(Dispatch(s.(calls := s.calls + {call}), call, envelope, outcomes))
    case LedgerWrites(call) =>
      if call in s.pending && !s.pending[call].recorded then
        Some(s.(pending := s.pending[call := s.pending[call].(recorded := true)],
                trace := s.trace + [Recorded(call, s.pending[call].envelope)]))
      else None
    case PersistResolves(call, outcomes) =>
      if call in s.pending && s.pending[call].recorded
      then Some(Dispatch(s.(pending := s.pending - {call}), call, s.pending[call].envelope, outcomes))
      else None
    case PersistRejects(call) =>
      if call in s.pending then Some(s.(pending := s.pending - {call})) else None
  }

  function Run(s: State, events: seq<Event>): Option<State>
    decreases |events|
  {
    if events == [] then Some(s)
    else match Step(s, events[0])
      case None => None
      case Some(next) => Run(next, events[1..])
  }

  // ---- Delivery is preceded by the record ----

  predicate RecordedBefore(trace: seq<Entry>, call: Id, payload: Payload, i: nat) {
    exists j :: 0 <= j < i && j < |trace| && trace[j].Recorded? && trace[j].call == call
                && Conveys(payload, trace[j].envelope)
  }

  ghost predicate Inv(s: State) {
    && s.pending.Keys <= s.persisted <= s.calls
    && (forall c :: c in s.pending && s.pending[c].recorded ==>
          RecordedBefore(s.trace, c, PayloadOf(s.pending[c].envelope), |s.trace|))
    && (forall i :: 0 <= i < |s.trace| ==> s.trace[i].call in s.calls)
    && (forall i :: 0 <= i < |s.trace| && s.trace[i].Called? && s.trace[i].call in s.persisted ==>
          && RecordedBefore(s.trace, s.trace[i].call, s.trace[i].payload, i)
          && s.trace[i].call !in s.pending)
  }

  lemma {:induction false} DeliverShape(call: Id, payload: Payload, subs: seq<Subscription>, outcomes: Id -> Outcome)
    ensures var d := Deliver(call, payload, subs, outcomes);
            && |d| <= |subs|
            && (forall i :: 0 <= i < |d| ==> d[i] == Called(call, subs[i], payload))
            && (d != [] && |d| < |subs| ==> outcomes(subs[|d| - 1].handler).Throws?)
            && (forall i :: 0 <= i < |d| - 1 ==> !outcomes(subs[i].handler).Throws?)
            && (subs != [] ==> d != [])
  {
    if subs == [] {
    } else {
      DeliverShape(call, payload, subs[1..], outcomes);
    }
  }

  lemma RecordStays(trace: seq<Entry>, more: seq<Entry>, call: Id, payload: Payload, i: nat)
    requires i <= |trace| && RecordedBefore(trace, call, payload, i)
    ensures RecordedBefore(trace + more, call, payload, i)
    ensures RecordedBefore(trace + more, call, payload, |trace + more|)
  {
    var j :| 0 <= j < i && trace[j].Recorded? && trace[j].call == call && Conveys(payload, trace[j].envelope);
    assert (trace + more)[j] == trace[j];
  }

  /** More entries at the end of the trace do not disturb what holds of the rest. */
  lemma TraceGrows(s: State, s': State, more: seq<Entry>)
    requires Inv(s) && s'.trace == s.trace + more && s'.calls >= s.calls
    requires s'.pending.Keys <= s'.persisted <= s'.calls
    requires forall c :: c in s.calls && c in s'.persisted ==> c in s.persisted
    requires forall c :: c in s'.pending && c in s.calls ==> c in s.pending
    requires forall c :: c in s'.pending && s'.pending[c].recorded ==>
               RecordedBefore(s'.trace, c, PayloadOf(s'.pending[c].envelope), |s'.trace|)
    requires forall k :: 0 <= k < |more| ==>
               && more[k].call in s'.calls
               && (more[k].Called? && more[k].call in s'.persisted ==>
                     && RecordedBefore(s.trace, more[k].call, more[k].payload, |s.trace|)
                     && more[k].call !in s'.pending)
    ensures Inv(s')
  {
    forall i | 0 <= i < |s'.trace| && s'.trace[i].Called? && s'.trace[i].call in s'.persisted
      ensures RecordedBefore(s'.trace, s'.trace[i].call, s'.trace[i].payload, i) && s'.trace[i].call !in s'.pending
    {
      if i < |s.trace| {
        assert s'.trace[i] == s.trace[i];
        RecordStays(s.trace, more, s.trace[i].call, s.trace[i].payload, i);
      } else {
        var entry := more[i - |s.trace|];
        assert s'.trace[i] == entry;
        RecordStays(s.trace, more, entry.call, entry.payload, |s.trace|);
        var j :| 0 <= j < |s.trace| && s.trace[j].Recorded? && s.trace[j].call == entry.call
                 && Conveys(entry.payload, s.trace[j].envelope);
        assert s'.trace[j] == s.trace[j];
      }
    }
    forall i | 0 <= i < |s'.trace|
      ensures s'.trace[i].call in s'.calls
    {
      if i < |s.trace| {
        assert s'.trace[i] == s.trace[i];
      } else {
        assert s'.trace[i] == more[i - |s.trace|];
      }
    }
  }

  lemma StepKeepsInv(s: State, e: Event)
    requires Inv(s) && Step(s, e).Some?
    ensures Inv(Step(s, e).value) && s.trace <= Step(s, e).value.trace
    ensures s.calls <= Step(s, e).value.calls
  {
    var s' := Step(s, e).value;
    match e
    case Publish(call, envelope, outcomes) =>
      DispatchGrows(s, s.(calls := s.calls + {call}), call, envelope, outcomes);
    case PublishAndPersist(call, envelope, outcomes) =>
      if s.hasWriter {
        assert s'.trace == s.trace + [];
        TraceGrows(s, s', []);
      } else {
        DispatchGrows(s, s.(calls := s.calls + {call}), call, envelope, outcomes);
      }
    case PersistResolves(call, outcomes) =>
      DispatchGrows(s, s.(pending := s.pending - {call}), call, s.pending[call].envelope, outcomes);
    case LedgerWrites(call) =>
      var entry := Recorded(call, s.pending[call].envelope);
      assert s'.trace[|s.trace|] == entry;
      forall c | c in s'.pending && s'.pending[c].recorded
        ensures RecordedBefore(s'.trace, c, PayloadOf(s'.pending[c].envelope), |s'.trace|)
      {
        if c != call { RecordStays(s.trace, [entry], c, PayloadOf(s.pending[c].envelope), |s.trace|); }
      }
      TraceGrows(s, s', [entry]);
    case _ =>
      assert s'.trace == s.trace + [];
      TraceGrows(s, s', []);
  }

  lemma DispatchGrows(s: State, mid: State, call: Id, envelope: Envelope, outcomes: Id -> Outcome)
    requires Inv(s) && mid.trace == s.trace && mid.calls == s.calls + {call} && mid.persisted == s.persisted
    requires mid.pending == s.pending - {call}
    requires call in s.persisted ==> RecordedBefore(s.trace, call, PayloadOf(envelope), |s.trace|)
    ensures Inv(Dispatch(mid, call, envelope, outcomes))
    ensures s.trace <= Dispatch(mid, call, envelope, outcomes).trace
    ensures mid.calls == Dispatch(mid, call, envelope, outcomes).calls
  {
    var s' := Dispatch(mid, call, envelope, outcomes);
    var found := Matching(mid.subscriptions, envelope.eventType);
    var more := if found.Ok? then Deliver(call, PayloadOf(envelope), found.value, outcomes) else [];
    if found.Ok? {
      DeliverShape(call, PayloadOf(envelope), found.value, outcomes);
    }
    assert s'.trace == s.trace + more;
    forall c | c in s'.pending && s'.pending[c].recorded
      ensures RecordedBefore(s'.trace, c, PayloadOf(s'.pending[c].envelope), |s'.trace|)
    {
      RecordStays(s.trace, more, c, PayloadOf(s.pending[c].envelope), |s.trace|);
    }
    TraceGrows(s, s', more);
  }

  lemma {:induction false} RunKeepsInv(s: State, events: seq<Event>)
    requires Inv(s) && Run(s, events).Some?
    ensures Inv(Run(s, events).value)
    decreases |events|
  {
    if events == [] {
    } else {
      StepKeepsInv(s, events[0]);
      RunKeepsInv(Step(s, events[0]).value, events[1..]);
    }
  }

  /** In every run, a delivery made for a persisted call comes after the ledger's record of what it delivers. */
  lemma DeliveryFollowsRecord(events: seq<Event>, i: nat)
    requires Run(INITIAL, events).Some? && i < |Run(INITIAL, events).value.trace|
    ensures var s := Run(INITIAL, events).value;
            s.trace[i].Called? && s.trace[i].call in s.persisted ==>
              exists j :: 0 <= j < i && s.trace[j].Recorded? && s.trace[j].call == s.trace[i].call
                          && Conveys(s.trace[i].payload, s.trace[j].envelope)
  {
    RunKeepsInv(INITIAL, events);
    assert Inv(Run(INITIAL, events).value);
  }

  // ---- Everything in the trace was published ----

  /** One of the events publishes this envelope as this call. */
  predicate PublishedBy(events: seq<Event>, call: Id, envelope: Envelope) {
    exists k :: 0 <= k < |events| && Publishes(events[k], call, envelope)
  }

  predicate Publishes(e: Event, call: Id, envelope: Envelope) {
    (e.Publish? || e.PublishAndPersist?) && e.call == call && e.envelope == envelope
  }

  ghost predicate FromCall(past: seq<Event>, entry: Entry) {
    match entry
    case Recorded(call, envelope) => PublishedBy(past, call, envelope)
    case Called(call, _, payload) => exists e :: PublishedBy(past, call, e) && Conveys(payload, e)
  }

  ghost predicate Origin(s: State, past: seq<Event>) {
    && (forall call :: call in s.pending ==> PublishedBy(past, call, s.pending[call].envelope))
    && (forall i :: 0 <= i < |s.trace| ==> FromCall(past, s.trace[i]))
  }

  lemma PublishedStays(past: seq<Event>, e: Event, call: Id, envelope: Envelope)
    ensures PublishedBy(past, call, envelope) ==> PublishedBy(past + [e], call, envelope)
    ensures Publishes(e, call, envelope) ==> PublishedBy(past + [e], call, envelope)
  {
    var all := past + [e];
    assert all[|past|] == e;
    if k :| 0 <= k < |past| && Publishes(past[k], call, envelope) {
      assert Publishes(all[k], call, envelope);
    }
  }

  lemma FromCallStays(past: seq<Event>, e: Event, entry: Entry)
    ensures FromCall(past, entry) ==> FromCall(past + [e], entry)
  {
    if FromCall(past, entry) {
      match entry
      case Recorded(call, envelope) => PublishedStays(past, e, call, envelope);
      case Called(call, _, payload) =>
        var envelope :| PublishedBy(past, call, envelope) && Conveys(payload, envelope);
        PublishedStays(past, e, call, envelope);
    }
  }

  lemma DispatchHasOrigin(s: State, past: seq<Event>, call: Id, envelope: Envelope, outcomes: Id -> Outcome)
    requires Origin(s, past) && PublishedBy(past, call, envelope)
    ensures Origin(Dispatch(s, call, envelope, outcomes), past)
  {
    hide Matching, PublishedBy;
    var found := Matching(s.subscriptions, envelope.eventType);
    if found.Ok? {
      var d := Deliver(call, PayloadOf(envelope), found.value, outcomes);
      DeliverShape(call, PayloadOf(envelope), found.value, outcomes);
      assert Conveys(PayloadOf(envelope), envelope);
      forall i | 0 <= i < |s.trace + d|
        ensures FromCall(past, (s.trace + d)[i])
      {
        if i >= |s.trace| { assert (s.trace + d)[i] == d[i - |s.trace|]; }
      }
    }
  }

  lemma StepKeepsOrigin(s: State, past: seq<Event>, e: Event)
    requires Origin(s, past) && Step(s, e).Some?
    ensures Origin(Step(s, e).value, past + [e])
  {
    hide Matching, Dispatch, PublishedBy;
    forall call, envelope
      ensures PublishedBy(past, call, envelope) ==> PublishedBy(past + [e], call, envelope)
      ensures Publishes(e, call, envelope) ==> PublishedBy(past + [e], call, envelope)
    {
      PublishedStays(past, e, call, envelope);
    }
    forall i | 0 <= i < |s.trace| ensures FromCall(past + [e], s.trace[i]) { FromCallStays(past, e, s.trace[i]); }
    assert Origin(s, past + [e]);
    match e
    case Publish(call, envelope, outcomes) =>
      DispatchHasOrigin(s.(calls := s.calls + {call}), past + [e], call, envelope, outcomes);
    case PublishAndPersist(call, envelope, outcomes) =>
      if !s.hasWriter {
        DispatchHasOrigin(s.(calls := s.calls + {call}), past + [e], call, envelope, outcomes);
      }
    case PersistResolves(call, outcomes) =>
      DispatchHasOrigin(s.(pending := s.pending - {call}), past + [e], call, s.pending[call].envelope, outcomes);
    case _ =>
  }

  lemma {:induction false} RunKeepsOrigin(s: State, past: seq<Event>, events: seq<Event>)
    requires Origin(s, past) && Run(s, events).Some?
    ensures Origin(Run(s, events).value, past + events)
    decreases |events|
  {
    if events == [] {
      assert past + events == past;
    } else {
      hide Step, Origin;
      StepKeepsOrigin(s, past, events[0]);
      RunKeepsOrigin(Step(s, events[0]).value, past + [events[0]], events[1..]);
      assert past + [events[0]] + events[1..] == past + events;
    }
  }

  /** In every run, what is recorded or delivered for a call is the envelope that was published as that call. */
  lemma EverythingWasPublished(events: seq<Event>, i: nat)
    requires Run(INITIAL, events).Some? && i < |Run(INITIAL, events).value.trace|
    ensures var entry := Run(INITIAL, events).value.trace[i];
            && (entry.Recorded? ==> exists k :: 0 <= k < |events| && Publishes(events[k], entry.call, entry.envelope))
            && (entry.Called? ==>
                  exists k :: 0 <= k < |events| && (events[k].Publish? || events[k].PublishAndPersist?)
                              && events[k].call == entry.call && Conveys(entry.payload, events[k].envelope))
  {
    RunKeepsOrigin(INITIAL, [], events);
    assert [] + events == events;
    var entry := Run(INITIAL, events).value.trace[i];
    assert FromCall(events, entry);
    if entry.Called? {
      var e :| PublishedBy(events, entry.call, e) && Conveys(entry.payload, e);
      var k :| 0 <= k < |events| && Publishes(events[k], entry.call, e);
    }
  }

  /** Once a ledger writer is set, every later publishAndPersist call goes through it. */
  lemma {:induction false} WriterSeesEveryLaterCall(s: State, events: seq<Event>, call: Id)
    requires s.hasWriter && Inv(s) && Run(s, events).Some?
    requires exists i, envelope, outcomes ::
               0 <= i < |events| && events[i] == PublishAndPersist(call, envelope, outcomes)
    ensures Run(s, events).value.hasWriter && call in Run(s, events).value.persisted
    decreases |events|
  {
    var i, envelope, outcomes :|
      0 <= i < |events| && events[i] == PublishAndPersist(call, envelope, outcomes);
    var next := Step(s, events[0]).value;
    StepKeepsInv(s, events[0]);
    if i == 0 {
      PersistedStays(next, events[1..], call);
    } else {
      assert events[1..][i - 1] == events[i];
      WriterSeesEveryLaterCall(next, events[1..], call);
    }
  }

  lemma {:induction false} PersistedStays(s: State, events: seq<Event>, call: Id)
    requires s.hasWriter && call in s.persisted && Run(s, events).Some?
    ensures Run(s, events).value.hasWriter && call in Run(s, events).value.persisted
    decreases |events|
  {
    if events == [] {
    } else {
      PersistedStays(Step(s, events[0]).value, events[1..], call);
    }
  }

  // ---- Who is called ----

  /** The subscriptions called on behalf of one publish call, in order. */
  function CallsOf(trace: seq<Entry>, call: Id): seq<Subscription> {
    if trace == [] then []
    else (if trace[0].Called? && trace[0].call == call then [trace[0].subscription] else []) + CallsOf(trace[1..], call)
  }

  lemma {:induction false} CallsOfConcat(a: seq<Entry>, b: seq<Entry>, call: Id)
    ensures CallsOf(a + b, call) == CallsOf(a, call) + CallsOf(b, call)
    decreases |a|
  {
    if a == [] {
      assert a + b == b;
    } else {
      assert (a + b)[1..] == a[1..] + b;
      CallsOfConcat(a[1..], b, call);
    }
  }

  lemma {:induction false} CallsOfNone(trace: seq<Entry>, call: Id)
    requires forall i :: 0 <= i < |trace| ==> !(trace[i].Called? && trace[i].call == call)
    ensures CallsOf(trace, call) == []
    decreases |trace|
  {
    if trace == [] {
    } else {
      CallsOfNone(trace[1..], call);
    }
  }

  lemma {:induction false} DeliverCalls(call: Id, payload: Payload, subs: seq<Subscription>, outcomes: Id -> Outcome)
    ensures var called := CallsOf(Deliver(call, payload, subs, outcomes), call);
            && called <= subs
            && (called == subs <==> forall i :: 0 <= i < |subs| - 1 ==> !outcomes(subs[i].handler).Throws?)
  {
    if subs == [] {
    } else {
      var rest := Deliver(call, payload, subs[1..], outcomes);
      DeliverCalls(call, payload, subs[1..], outcomes);
      var d := Deliver(call, payload, subs, outcomes);
      var called := CallsOf(d, call);
      if outcomes(subs[0].handler).Throws? {
        assert d[1..] == [] && CallsOf(d[1..], call) == [];
        assert called == [subs[0]] + [] == [subs[0]];
      } else {
        assert d[1..] == rest;
        assert called == [subs[0]] + CallsOf(rest, call);
        assert forall i :: 0 <= i < |subs| - 2 ==> subs[1..][i] == subs[i + 1];
        assert called[1..] == CallsOf(rest, call);
        assert called == subs <==> CallsOf(rest, call) == subs[1..];
        if forall i :: 0 <= i < |subs[1..]| - 1 ==> !outcomes(subs[1..][i].handler).Throws? {
          forall i | 0 <= i < |subs| - 1
            ensures !outcomes(subs[i].handler).Throws?
          {
            if i > 0 { assert subs[1..][i - 1] == subs[i]; }
          }
        }
      }
    }
  }

  /** No delivery for `call` can come any more. */
  predicate Over(s: State, call: Id) {
    call in s.calls && call !in s.pending
  }

  /** No delivery for `call` from index `first` on. */
  predicate Silent(trace: seq<Entry>, call: Id, first: nat) {
    forall i :: first <= i < |trace| ==> !(trace[i].Called? && trace[i].call == call)
  }

  lemma OverStays(s: State, e: Event, call: Id)
    requires Over(s, call) && Step(s, e).Some?
    ensures Over(Step(s, e).value, call)
    ensures CallsOf(Step(s, e).value.trace, call) == CallsOf(s.trace, call)
    ensures s.trace <= Step(s, e).value.trace && Silent(Step(s, e).value.trace, call, |s.trace|)
  {
    match e
    case Publish(other, envelope, outcomes) => OthersDeliver(s, other, envelope, outcomes, call);
    case PublishAndPersist(other, envelope, outcomes) => OthersDeliver(s, other, envelope, outcomes, call);
    case PersistResolves(other, outcomes) => OthersDeliver(s, other, s.pending[other].envelope, outcomes, call);
    case LedgerWrites(other) =>
      var record := [Recorded(other, s.pending[other].envelope)];
      CallsOfNone(record, call);
      CallsOfConcat(s.trace, record, call);
    case _ =>
  }

  lemma OthersDeliver(s: State, other: Id, envelope: Envelope, outcomes: Id -> Outcome, call: Id)
    requires other != call
    ensures CallsOf(Dispatch(s, other, envelope, outcomes).trace, call) == CallsOf(s.trace, call)
    ensures s.trace <= Dispatch(s, other, envelope, outcomes).trace
    ensures Silent(Dispatch(s, other, envelope, outcomes).trace, call, |s.trace|)
  {
    var found := Matching(s.subscriptions, envelope.eventType);
    if found.Ok? {
      var d := Deliver(other, PayloadOf(envelope), found.value, outcomes);
      DeliverShape(other, PayloadOf(envelope), found.value, outcomes);
      CallsOfNone(d, call);
      CallsOfConcat(s.trace, d, call);
    }
  }

  lemma {:induction false} OverForever(s: State, events: seq<Event>, call: Id)
    requires Over(s, call) && Run(s, events).Some?
    ensures CallsOf(Run(s, events).value.trace, call) == CallsOf(s.trace, call)
    ensures s.trace <= Run(s, events).value.trace && Silent(Run(s, events).value.trace, call, |s.trace|)
    decreases |events|
  {
    if events == [] {
    } else {
      hide Step, CallsOf, Over;
      OverStays(s, events[0], call);
      OverForever(Step(s, events[0]).value, events[1..], call);
    }
  }

  /** A publishAndPersist whose ledger write is rejected delivers nothing, then or later. */
  lemma RejectedPersistDeliversNothing(s: State, call: Id, events: seq<Event>)
    requires Inv(s) && call in s.pending && Run(Step(s, PersistRejects(call)).value, events).Some?
    ensures CallsOf(Run(Step(s, PersistRejects(call)).value, events).value.trace, call) == []
  {
    CallsOfNone(s.trace, call);
    OverForever(Step(s, PersistRejects(call)).value, events, call);
  }

  predicate Distinct(subs: seq<Subscription>) {
    forall i, j :: 0 <= i < j < |subs| ==> subs[i].id != subs[j].id
  }

  /** Every pattern is usable for the topic: the topic itself, `*`, or one that compiles. */
  predicate AllUsable(subs: seq<Subscription>, topic: string) {
    forall i :: 0 <= i < |subs| ==> Usable(subs[i].pattern, topic)
  }

  lemma {:induction false} MatchingIsTheFilter(subs: seq<Subscription>, topic: string)
    ensures Matching(subs, topic).Ok? <==> AllUsable(subs, topic)
    ensures AllUsable(subs, topic) ==>
              forall sub :: sub in Matching(subs, topic).value
                       <==> sub in subs && Matches(sub.pattern, topic) == Ok(true)
    ensures AllUsable(subs, topic) && Distinct(subs) ==> Distinct(Matching(subs, topic).value)
    decreases |subs|
  {
    if subs == [] {
    } else {
      hide Usable, Matches;
      var first, tail := subs[0], subs[1..];
      MatchingIsTheFilter(tail, topic);
      ErrsExactlyIfUnusable(first.pattern, topic);
      assert subs == [first] + tail;
      AllUsableSplits(first, tail, topic);
      if AllUsable(subs, topic) {
        MatchingStep(first, tail, topic);
      }
    }
  }

  lemma AllUsableSplits(first: Subscription, tail: seq<Subscription>, topic: string)
    ensures AllUsable([first] + tail, topic) <==> Usable(first.pattern, topic) && AllUsable(tail, topic)
  {
    hide Usable;
    var subs := [first] + tail;
    if AllUsable(subs, topic) {
      assert Usable(subs[0].pattern, topic);
      forall i | 0 <= i < |tail| ensures Usable(tail[i].pattern, topic) { assert tail[i] == subs[i + 1]; }
    }
  }

  lemma MatchingStep(first: Subscription, tail: seq<Subscription>, topic: string)
    requires Matches(first.pattern, topic).Ok? && Matching(tail, topic).Ok?
    requires var rest := Matching(tail, topic).value;
             && (forall sub :: sub in rest <==> sub in tail && Matches(sub.pattern, topic) == Ok(true))
             && (Distinct(tail) ==> Distinct(rest))
    ensures Matching([first] + tail, topic).Ok?
    ensures var all := Matching([first] + tail, topic).value;
            && (forall sub :: sub in all <==> sub in [first] + tail && Matches(sub.pattern, topic) == Ok(true))
            && (Distinct([first] + tail) ==> Distinct(all))
  {
    hide Matches;
    var subs := [first] + tail;
    assert subs[1..] == tail;
    var rest, all := Matching(tail, topic).value, Matching(subs, topic).value;
    assert forall sub :: sub in subs <==> sub == first || sub in tail;
    if Distinct(subs) {
      assert forall i :: 0 <= i < |tail| ==> tail[i] == subs[i + 1];
      forall i, j | 0 <= i < j < |all|
        ensures all[i].id != all[j].id
      {
        if Matches(first.pattern, topic) == Ok(true) {
          assert all[j] == rest[j - 1] && rest[j - 1] in tail;
        }
      }
    }
  }

  lemma {:induction false} WithoutKeepsDistinct(subs: seq<Subscription>, id: Id)
    requires Distinct(subs)
    ensures Distinct(Without(subs, id))
    decreases |subs|
  {
    if subs == [] {
    } else {
      WithoutKeepsDistinct(subs[1..], id);
      var rest, all := Without(subs[1..], id), Without(subs, id);
      forall i, j | 0 <= i < j < |all|
        ensures all[i].id != all[j].id
      {
        if subs[0].id != id {
          assert all[j] == rest[j - 1] && rest[j - 1] in subs[1..];
        }
      }
    }
  }

  lemma {:induction false} RunKeepsDistinct(s: State, events: seq<Event>)
    requires Distinct(s.subscriptions) && Run(s, events).Some?
    ensures Distinct(Run(s, events).value.subscriptions)
    decreases |events|
  {
    if events == [] {
    } else {
      if events[0].Unsubscribe? {
        WithoutKeepsDistinct(s.subscriptions, events[0].id);
      }
      RunKeepsDistinct(Step(s, events[0]).value, events[1..]);
    }
  }

  /** The event makes the bus dispatch the envelope: a publish, or the end of its ledger write. */
  predicate Dispatches(s: State, e: Event, envelope: Envelope) {
    match e
    case Publish(_, published, _) => published == envelope
    case PublishAndPersist(_, published, _) => !s.hasWriter && published == envelope
    case PersistResolves(call, _) => call in s.pending && s.pending[call].envelope == envelope
    case _ => false
  }

  /**
   When an event is dispatched in a reachable state, at once or at the end of its ledger write, the subscriptions that
   match then are called with what the envelope says, each once, unless a handler before the last throws instead of
   returning a promise; a rejecting handler stops nobody, and no later event adds a call.  If some pattern is unusable
   for the topic, nobody is called, then or later.
   */
  lemma EveryMatchIsCalledOnce(before: seq<Event>, e: Event, envelope: Envelope, after: seq<Event>)
    requires Run(INITIAL, before).Some?
    requires var s := Run(INITIAL, before).value;
             && Dispatches(s, e, envelope) && Step(s, e).Some?
             && Run(Step(s, e).value, after).Some?
    ensures var s := Run(INITIAL, before).value;
            var topic := envelope.eventType;
            var trace := Run(Step(s, e).value, after).value.trace;
            var called := CallsOf(trace, e.call);
            && (Matching(s.subscriptions, topic).Ok? <==> AllUsable(s.subscriptions, topic))
            && (!AllUsable(s.subscriptions, topic) ==> called == [])
            && (forall i :: 0 <= i < |trace| && trace[i].Called? && trace[i].call == e.call ==>
                  Conveys(trace[i].payload, envelope))
            && (AllUsable(s.subscriptions, topic) ==>
                  var m := Matching(s.subscriptions, topic).value;
                  && Distinct(m)
                  && (forall sub :: sub in m <==> sub in s.subscriptions && Matches(sub.pattern, topic) == Ok(true))
                  && called <= m
                  && (called == m <==> forall i :: 0 <= i < |m| - 1 ==> !e.outcomes(m[i].handler).Throws?))
  {
    hide Usable, Matches, Matching, Run, Step, Inv, Dispatch, CallsOf, AllUsable, Distinct, Over, Conveys;
    var s, call, outcomes := Run(INITIAL, before).value, e.call, e.outcomes;
    StartsWell();
    RunKeepsInv(INITIAL, before);
    RunKeepsDistinct(INITIAL, before);
    MatchingIsTheFilter(s.subscriptions, envelope.eventType);
    NewCallIsSilent(s, e, envelope);
    var next := Step(s, e).value;
    DispatchedCalls(s, next, call, envelope, outcomes);
    OverForever(next, after, call);
    var trace := Run(next, after).value.trace;
    forall i | 0 <= i < |trace| && trace[i].Called? && trace[i].call == call
      ensures Conveys(trace[i].payload, envelope)
    {
      assert i < |next.trace| && trace[i] == next.trace[i];
    }
  }

  /** All that `after` has beyond `before` are calls of some of `subs` with what the envelope says. */
  predicate OnlyCalls(before: seq<Entry>, after: seq<Entry>, subs: seq<Subscription>, call: Id, envelope: Envelope) {
    && before <= after
    && forall i :: |before| <= i < |after| ==>
         after[i].Called? && after[i].call == call && after[i].subscription in subs
         && Conveys(after[i].payload, envelope)
  }

  lemma DeliverNext(trace: seq<Entry>, call: Id, payload: Payload, subs: seq<Subscription>, i: nat,
                    outcomes: Id -> Outcome)
    ensures i < |subs| ==>
              trace + Deliver(call, payload, subs[i..], outcomes)
              == var called := trace + [Called(call, subs[i], payload)];
                 if outcomes(subs[i].handler).Throws? then called
                 else called + Deliver(call, payload, subs[i + 1..], outcomes)
  {
    if i < |subs| {
      assert subs[i..][1..] == subs[i + 1..];
    }
  }

  lemma DeliverNothing(trace: seq<Entry>, call: Id, payload: Payload, outcomes: Id -> Outcome)
    ensures trace + Deliver(call, payload, [], outcomes) == trace
  {
  }

  lemma DispatchConveys(s: State, call: Id, envelope: Envelope, outcomes: Id -> Outcome)
    ensures OnlyCalls(s.trace, Dispatch(s, call, envelope, outcomes).trace, s.subscriptions, call, envelope)
  {
    hide Matching;
    var found := Matching(s.subscriptions, envelope.eventType);
    if found.Ok? {
      MatchingIsTheFilter(s.subscriptions, envelope.eventType);
      DeliverShape(call, PayloadOf(envelope), found.value, outcomes);
    }
  }

  lemma StartsWell()
    ensures Inv(INITIAL) && Distinct(INITIAL.subscriptions)
  {
  }

  lemma NewCallIsSilent(s: State, e: Event, envelope: Envelope)
    requires Inv(s) && Dispatches(s, e, envelope) && Step(s, e).Some?
    ensures Silent(s.trace, e.call, 0) && Over(Step(s, e).value, e.call)
    ensures var mid := s.(calls := s.calls + {e.call}, pending := s.pending - {e.call});
            Step(s, e).value == Dispatch(mid, e.call, envelope, e.outcomes)
  {
    hide Matching;
    var call := e.call;
    assert call !in s.pending ==> s.pending - {call} == s.pending;
    assert call in s.calls ==> s.calls + {call} == s.calls;
  }

  lemma DispatchedCalls(s: State, next: State, call: Id, envelope: Envelope, outcomes: Id -> Outcome)
    requires Silent(s.trace, call, 0)
    requires next == Dispatch(s.(calls := s.calls + {call}, pending := s.pending - {call}), call, envelope, outcomes)
    ensures var found := Matching(s.subscriptions, envelope.eventType);
            && (found.Err? ==> CallsOf(next.trace, call) == [])
            && (found.Ok? ==>
                  && CallsOf(next.trace, call) <= found.value
                  && (CallsOf(next.trace, call) == found.value
                      <==> forall i :: 0 <= i < |found.value| - 1 ==> !outcomes(found.value[i].handler).Throws?))
    ensures forall i :: 0 <= i < |next.trace| && next.trace[i].Called? && next.trace[i].call == call ==>
              Conveys(next.trace[i].payload, envelope)
  {
    hide Matching;
    var found := Matching(s.subscriptions, envelope.eventType);
    CallsOfNone(s.trace, call);
    if found.Ok? {
      var d := Deliver(call, PayloadOf(envelope), found.value, outcomes);
      CallsOfConcat(s.trace, d, call);
      DeliverCalls(call, PayloadOf(envelope), found.value, outcomes);
      DeliverShape(call, PayloadOf(envelope), found.value, outcomes);
      assert next.trace == s.trace + d;
    }
  }

  // ---- A pattern that does not compile ----

  function Deliveries(trace: seq<Entry>): seq<Entry> {
    if trace == [] then [] else (if trace[0].Called? then [trace[0]] else []) + Deliveries(trace[1..])
  }

  lemma {:induction false} DeliveriesConcat(a: seq<Entry>, b: seq<Entry>)
    ensures Deliveries(a + b) == Deliveries(a) + Deliveries(b)
    decreases |a|
  {
    if a == [] {
      assert a + b == b;
    } else {
      assert (a + b)[1..] == a[1..] + b;
      DeliveriesConcat(a[1..], b);
    }
  }

  /** The subscription with this id is there, and its pattern is neither `*` nor one that compiles. */
  predicate Jammed(s: State, id: Id, pattern: string) {
    (exists i :: 0 <= i < |s.subscriptions| && s.subscriptions[i].id == id && s.subscriptions[i].pattern == pattern)
    && pattern != "*" && !Compilable(pattern, 0)
  }

  /** The event neither removes the subscription nor publishes the pattern's own text as its topic. */
  predicate LeavesJam(e: Event, id: Id, pattern: string) {
    match e
    case Unsubscribe(other) => other != id
    case UnsubscribeAll => false
    case Publish(_, envelope, _) => envelope.eventType != pattern
    case PublishAndPersist(_, envelope, _) => envelope.eventType != pattern
    case _ => true
  }

  predicate OtherTopics(s: State, pattern: string) {
    forall call :: call in s.pending ==> s.pending[call].envelope.eventType != pattern
  }

  /** One such pattern makes every dispatch of another topic deliver nothing, to anybody. */
  lemma BadPatternSilencesTheBus(s: State, call: Id, envelope: Envelope, outcomes: Id -> Outcome)
    requires exists i :: 0 <= i < |s.subscriptions| && !Usable(s.subscriptions[i].pattern, envelope.eventType)
    ensures Dispatch(s, call, envelope, outcomes) == s
  {
    hide Usable;
    MatchingIsTheFilter(s.subscriptions, envelope.eventType);
  }

  lemma JammedDispatch(s: State, id: Id, pattern: string, call: Id, envelope: Envelope, outcomes: Id -> Outcome)
    requires Jammed(s, id, pattern) && envelope.eventType != pattern
    ensures Dispatch(s, call, envelope, outcomes) == s
  {
    var i :| 0 <= i < |s.subscriptions| && s.subscriptions[i].id == id && s.subscriptions[i].pattern == pattern;
    assert !Usable(s.subscriptions[i].pattern, envelope.eventType);
    BadPatternSilencesTheBus(s, call, envelope, outcomes);
  }

  lemma {:induction false} WithoutIsTheRest(subs: seq<Subscription>, id: Id)
    ensures forall sub :: sub in Without(subs, id) <==> sub in subs && sub.id != id
    decreases |subs|
  {
    if subs == [] {
    } else {
      WithoutIsTheRest(subs[1..], id);
      assert subs == [subs[0]] + subs[1..];
    }
  }

  lemma JamStays(s: State, e: Event, id: Id, pattern: string)
    requires Jammed(s, id, pattern) && OtherTopics(s, pattern) && LeavesJam(e, id, pattern) && Step(s, e).Some?
    ensures Jammed(Step(s, e).value, id, pattern) && OtherTopics(Step(s, e).value, pattern)
    ensures Deliveries(Step(s, e).value.trace) == Deliveries(s.trace)
  {
    hide Dispatch, Matching;
    var next := Step(s, e).value;
    var i :| 0 <= i < |s.subscriptions| && s.subscriptions[i].id == id && s.subscriptions[i].pattern == pattern;
    match e
    case Subscribe(_, _, _) =>
      assert next.subscriptions[i] == s.subscriptions[i];
    case Unsubscribe(other) =>
      WithoutIsTheRest(s.subscriptions, other);
      var j :| 0 <= j < |next.subscriptions| && next.subscriptions[j] == s.subscriptions[i];
    case Publish(call, envelope, outcomes) =>
      JammedDispatch(s.(calls := s.calls + {call}), id, pattern, call, envelope, outcomes);
    case PublishAndPersist(call, envelope, outcomes) =>
      if !s.hasWriter { JammedDispatch(s.(calls := s.calls + {call}), id, pattern, call, envelope, outcomes); }
    case PersistResolves(call, outcomes) =>
      JammedDispatch(s.(pending := s.pending - {call}), id, pattern, call, s.pending[call].envelope, outcomes);
    case LedgerWrites(call) =>
      var record := [Recorded(call, s.pending[call].envelope)];
      DeliveriesConcat(s.trace, record);
      assert record[1..] == [];
    case _ =>
  }

  /** As long as such a pattern stays subscribed, no run of any length delivers any event of another topic. */
  lemma {:induction false} SilentWhileSubscribed(s: State, events: seq<Event>, id: Id, pattern: string)
    requires Jammed(s, id, pattern) && OtherTopics(s, pattern) && Run(s, events).Some?
    requires forall i :: 0 <= i < |events| ==> LeavesJam(events[i], id, pattern)
    ensures Deliveries(Run(s, events).value.trace) == Deliveries(s.trace)
    decreases |events|
  {
    if events == [] {
    } else {
      hide Step, Jammed, OtherTopics, LeavesJam, Deliveries;
      assert LeavesJam(events[0], id, pattern);
      JamStays(s, events[0], id, pattern);
      forall i | 0 <= i < |events[1..]|
        ensures LeavesJam(events[1..][i], id, pattern)
      {
        assert events[1..][i] == events[i + 1];
      }
      SilentWhileSubscribed(Step(s, events[0]).value, events[1..], id, pattern);
    }
  }

  /** A bus with a handler for everything, and then one for `*.created`. */
  function Subscriptions(jam: bool): seq<Event> {
    [SetLedgerWriter, Subscribe(0, "*", 0)] + if jam then [Subscribe(1, "*.created", 1)] else []
  }

  /** The bus goes silent: the envelope is recorded, and the handler for everything is not called any more. */
  lemma SilentBus(call: Id, envelope: Envelope, outcomes: Id -> Outcome, jam: bool)
    requires envelope.eventType != "*.created"
    ensures var ready := Run(INITIAL, Subscriptions(jam));
            && ready.Some?
            && var end := Run(ready.value, [PublishAndPersist(call, envelope, outcomes), LedgerWrites(call),
                                            PersistResolves(call, outcomes)]);
            && end.Some?
            && end.value.trace == [Recorded(call, envelope)]
                                  + if jam then [] else [Called(call, Subscription(0, "*", 0), PayloadOf(envelope))]
  {
    var all := Subscription(0, "*", 0);
    var subs := if jam then [all, Subscription(1, "*.created", 1)] else [all];
    var s := State(subs, true, map[], {}, {}, []);
    ReadyBus(jam);
    assert Run(INITIAL, Subscriptions(jam)) == Some(s);
    var a, b, c := PublishAndPersist(call, envelope, outcomes), LedgerWrites(call), PersistResolves(call, outcomes);
    assert [a, b, c][1..] == [b, c] && [b, c][1..] == [c] && [c][1..] == [];
    var s1 := Step(s, a).value;
    var s2 := Step(s1, b).value;
    assert s2.trace == [Recorded(call, envelope)];
    assert Run(s, [a, b, c]) == Run(s1, [b, c]) == Run(s2, [c]) == Step(s2, c);
    SilentDispatch(s2.(pending := s2.pending - {call}), call, envelope, outcomes, jam);
  }

  lemma ReadyBus(jam: bool)
    ensures var all := Subscription(0, "*", 0);
            var subs := if jam then [all, Subscription(1, "*.created", 1)] else [all];
            Run(INITIAL, Subscriptions(jam)) == Some(State(subs, true, map[], {}, {}, []))
  {
    var a, b, c := SetLedgerWriter, Subscribe(0, "*", 0), Subscribe(1, "*.created", 1);
    var s1 := Step(INITIAL, a).value;
    var s2 := Step(s1, b).value;
    assert s2.subscriptions == [Subscription(0, "*", 0)];
    if jam {
      assert Subscriptions(jam) == [a, b, c];
      assert Step(s2, c).value.subscriptions == [Subscription(0, "*", 0), Subscription(1, "*.created", 1)];
      assert [a, b, c][1..] == [b, c] && [b, c][1..] == [c] && [c][1..] == [];
      assert Run(INITIAL, [a, b, c]) == Run(s1, [b, c]) == Run(s2, [c]) == Step(s2, c);
    } else {
      assert Subscriptions(jam) == [a, b];
      assert [a, b][1..] == [b] && [b][1..] == [];
      assert Run(INITIAL, [a, b]) == Run(s1, [b]) == Step(s1, b);
    }
  }

  lemma SilentDispatch(s: State, call: Id, envelope: Envelope, outcomes: Id -> Outcome, jam: bool)
    requires s.subscriptions == if jam then [Subscription(0, "*", 0), Subscription(1, "*.created", 1)]
                                else [Subscription(0, "*", 0)]
    requires envelope.eventType != "*.created"
    ensures Dispatch(s, call, envelope, outcomes).trace
            == s.trace + if jam then [] else [Called(call, Subscription(0, "*", 0), PayloadOf(envelope))]
  {
    var topic := envelope.eventType;
    if jam {
      var pattern := "*.created";
      assert !Compilable(pattern, 0) && !Usable(pattern, topic);
      assert s.subscriptions[1].pattern == pattern;
      BadPatternSilencesTheBus(s, call, envelope, outcomes);
    } else {
      assert Matching([Subscription(0, "*", 0)][1..], topic) == Ok([]);
      assert Matching(s.subscriptions, topic) == Ok([Subscription(0, "*", 0)] + []);
      assert [Subscription(0, "*", 0)] + [] == s.subscriptions;
      assert Deliver(call, PayloadOf(envelope), s.subscriptions[1..], outcomes) == [];
    }
  }

  // ---- The bus itself ----

  /** `persist`, pending and settled ledger writes, and the trace stand for the world around the bus. */
  class Bus {
    var subscriptions: seq<Subscription>
    var hasWriter: bool
    var pending: map<Id, Pending>
    var calls: set<Id>
    var persisted: set<Id>
    var trace: seq<Entry>

    function View(): State
      reads this
    {
      State(subscriptions, hasWriter, pending, calls, persisted, trace)
    }

    constructor ()
      ensures View() == INITIAL
    {
      subscriptions, hasWriter, pending, calls, persisted, trace := [], false, map[], {}, {}, [];
    }

    /** `id` is the new random identifier. */
    method AddSubscription(id: Id, pattern: string, handler: Id)
      requires !Subscribed(subscriptions, id)
      modifies this`subscriptions
      ensures subscriptions == old(subscriptions) + [Subscription(id, pattern, handler)]
      ensures Step(old(View()), Subscribe(id, pattern, handler)) == Some(View())
    {
      subscriptions := subscriptions + [Subscription(id, pattern, handler)];
    }

    method RemoveSubscription(id: Id) returns (removed: bool)
      modifies this`subscriptions
      ensures Step(old(View()), Unsubscribe(id)) == Some(View())
      ensures removed <==> exists i :: 0 <= i < |old(subscriptions)| && old(subscriptions)[i].id == id
      ensures forall sub :: sub in subscriptions <==> sub in old(subscriptions) && sub.id != id
    {
      removed := Subscribed(subscriptions, id);
      WithoutIsTheRest(subscriptions, id);
      subscriptions := Without(subscriptions, id);
    }

    method RemoveAllSubscriptions()
      modifies this`subscriptions
      ensures subscriptions == []
      ensures Step(old(View()), UnsubscribeAll) == Some(View())
    {
      subscriptions := [];
    }

    method UseLedgerWriter()
      modifies this`hasWriter
      ensures hasWriter
      ensures Step(old(View()), SetLedgerWriter) == Some(View())
    {
      hasWriter := true;
    }

    method FindMatchingSubscriptions(topic: string) returns (r: Result<seq<Subscription>, SyntaxError>)
      ensures r == Matching(subscriptions, topic)
    {
      var results := [];
      assert subscriptions[0..] == subscriptions;
      assert forall rest: seq<Subscription> :: results + rest == rest;
      for i := 0 to |subscriptions|
        invariant Matching(subscriptions, topic)
                  == match Matching(subscriptions[i..], topic)
                     case Err(e) => Err(e)
                     case Ok(rest) => Ok(results + rest)
      {
        var sub := subscriptions[i];
        assert subscriptions[i..][1..] == subscriptions[i + 1..];
        match Matches(sub.pattern, topic) {
          case Err(e) => return Err(e);
          case Ok(yes) =>
            if yes {
              assert forall rest :: results + ([sub] + rest) == (results + [sub]) + rest;
              results := results + [sub];
            } else {
              assert forall rest: seq<Subscription> :: [] + rest == rest;
            }
        }
      }
      assert results + [] == results;
      r := Ok(results);
    }

    /** The outcome of the handlers' promises is awaited and dropped; only a handler that throws ends the loop. */
    method DispatchEvent(call: Id, envelope: Envelope, outcomes: Id -> Outcome)
      modifies this`trace
      ensures View() == Dispatch(old(View()), call, envelope, outcomes)
      ensures OnlyCalls(old(trace), trace, subscriptions, call, envelope)
    {
      hide Matching, OnlyCalls, Deliver;
      DispatchConveys(View(), call, envelope, outcomes);
      ghost var end := Dispatch(View(), call, envelope, outcomes).trace;
      var found := FindMatchingSubscriptions(envelope.eventType);
      if found.Err? {
        return;
      }
      var subs, payload := found.value, PayloadOf(envelope);
      assert subs[0..] == subs;
      for i := 0 to |subs|
        invariant trace + Deliver(call, payload, subs[i..], outcomes) == end
      {
        DeliverNext(trace, call, payload, subs, i, outcomes);
        trace := trace + [Called(call, subs[i], payload)];
        if outcomes(subs[i].handler).Throws? {
          return;
        }
      }
      assert subs[|subs|..] == [];
      DeliverNothing(trace, call, payload, outcomes);
    }

    method PublishEvent(call: Id, envelope: Envelope, outcomes: Id -> Outcome)
      requires call !in calls
      modifies this`trace, this`calls
      ensures Step(old(View()), Publish(call, envelope, outcomes)) == Some(View())
      ensures OnlyCalls(old(trace), trace, subscriptions, call, envelope)
    {
      calls := calls + {call};
      DispatchEvent(call, envelope, outcomes);
    }

    method PublishAndPersistEvent(call: Id, envelope: Envelope, outcomes: Id -> Outcome)
      requires call !in calls
      modifies this
      ensures Step(old(View()), PublishAndPersist(call, envelope, outcomes)) == Some(View())
      ensures old(hasWriter) ==> trace == old(trace) && pending == old(pending)[call := Pending(envelope, false)]
      ensures !old(hasWriter) ==>
                pending == old(pending) && View() == Dispatch(old(View()).(calls := calls), call, envelope, outcomes)
    {
      calls := calls + {call};
      if hasWriter {
        persisted := persisted + {call};
        pending := pending[call := Pending(envelope, false)];
      } else {
        DispatchEvent(call, envelope, outcomes);
      }
    }

    method OnPersisted(call: Id, outcomes: Id -> Outcome)
      requires call in pending && pending[call].recorded
      modifies this
      ensures Step(old(View()), PersistResolves(call, outcomes)) == Some(View())
      ensures pending == old(pending) - {call}
      ensures OnlyCalls(old(trace), trace, subscriptions, call, old(pending)[call].envelope)
    {
      var envelope := pending[call].envelope;
      pending := pending - {call};
      DispatchEvent(call, envelope, outcomes);
    }

    method OnPersistRejected(call: Id)
      requires call in pending
      modifies this`pending
      ensures Step(old(View()), PersistRejects(call)) == Some(View())
      ensures pending == old(pending) - {call} && trace == old(trace)
    {
      pending := pending - {call};
    }
  }
}
