/**
  What the labels of a state say about the run behind it. Wherever a receipt is,
  the run holds the steps that brought it there, in order: from the settlement of
  its own intent to its envelope, or to the step that took it out of the system.
 */
module ProtocolHistory {
  import opened Bytes
  import opened Wrappers
  import opened X402
  import opened Intents
  import opened Protocol
  import Vault
  import Settlement

  // ----- Steps in order

  /** The steps occur in the run in this order, with any others in between. */
  predicate InOrder(steps: seq<Event>, events: seq<Event>)
    decreases |events|
  {
    steps == []
    || (events != []
        && (var n, k := |events| - 1, |steps| - 1;
            || InOrder(steps, events[..n])
            || (events[n] == steps[k] && InOrder(steps[..k], events[..n]))))
  }

  lemma StillInOrder(steps: seq<Event>, events: seq<Event>, e: Event, more: seq<Event>)
    requires InOrder(steps, events) && more == events + [e]
    ensures InOrder(steps, more)
  {
    assert more[..|events|] == events;
  }

  lemma NextInOrder(steps: seq<Event>, events: seq<Event>, e: Event, more: seq<Event>)
    requires InOrder(steps, events) && more == events + [e]
    ensures InOrder(steps + [e], more)
  {
    assert more[..|events|] == events;
    assert (steps + [e])[..|steps|] == steps;
  }

  /** Whatever is in order stays in order. */
  lemma AllStillInOrder(events: seq<Event>, e: Event, more: seq<Event>)
    requires more == events + [e]
    ensures forall steps | InOrder(steps, events) :: InOrder(steps, more)
  {
    forall steps | InOrder(steps, events) ensures InOrder(steps, more) {
      StillInOrder(steps, events, e, more);
    }
  }

  // ----- The stations of a receipt

  function Produced(r: PaymentReceipt): seq<Event> {
    [SettleProduced(r.receiptId, r.intentId, r.clearedAt)]
  }

  function Recorded(r: PaymentReceipt): seq<Event> {
    Produced(r) + [SettleRecorded(r.receiptId)]
  }

  /** Presented for its own intent, by request `q` with this body. */
  function Admitted(r: PaymentReceipt, q: nat, body: Option<AgentIntent>): seq<Event> {
    Recorded(r) + [Event.Presented(q, r.receiptId, r.intentId, body)]
  }

  function Tried(q: nat, o: Origin): seq<Event> {
    Admitted(o.receipt, q, Some(o.intent)) + [MintAttempted(q, o.now, o.entropy)]
  }

  function Delivered(q: nat, o: Origin): seq<Event> {
    Tried(q, o) + [Packaged(q)]
  }

  function FlightTrail(q: nat, f: Flight): seq<Event> {
    match f
    case Paid(receipt, body) => Admitted(receipt, q, body)
    case Minted(_, origin) => Tried(q, origin)
  }

  ghost predicate WasDelivered(events: seq<Event>, o: Origin) {
    exists q: nat :: InOrder(Delivered(q, o), events)
  }

  /** Presented for another intent. */
  ghost predicate WasBurned(events: seq<Event>, r: PaymentReceipt) {
    exists q: nat, other: string, body: Option<AgentIntent> :: other != r.intentId
      && InOrder(Recorded(r) + [Event.Presented(q, r.receiptId, other, body)], events)
  }

  /** Another settlement, cleared ten minutes later or more, was recorded after it. */
  ghost predicate WasEvicted(events: seq<Event>, r: PaymentReceipt) {
    exists later: PaymentReceipt :: later.clearedAt >= r.clearedAt + 600
      && InOrder(Produced(later), events)
      && InOrder(Recorded(r) + [SettleRecorded(later.receiptId)], events)
  }

  /** The step ends request `q`, which was paid with `r`, without an envelope. */
  predicate Fruitless(h: Handlers, r: PaymentReceipt, q: nat, body: Option<AgentIntent>, e: Event) {
    match e
    case Abandoned(p) => p == q
    case BodyMismatch(p) => p == q && body.Some? && body.value.intentId != r.intentId
    case MintAttempted(p, now, entropy) =>
      p == q && body.Some? && body.value.intentId == r.intentId && h.mint(body.value, r, now, entropy).None?
    case _ => false
  }

  ghost predicate WasSpent(h: Handlers, events: seq<Event>, r: PaymentReceipt) {
    exists q: nat, body: Option<AgentIntent>, e: Event ::
      Fruitless(h, r, q, body, e) && InOrder(Admitted(r, q, body) + [e], events)
  }

  // ----- Each label has its story

  ghost predicate TreasuryTold(events: seq<Event>, s: State) {
    && (forall id | id in s.issued :: InOrder(Produced(s.issued[id]), events))
    && (forall id | id in s.held :: InOrder(Recorded(s.held[id]), events))
  }

  ghost predicate RequestsTold(events: seq<Event>, s: State) {
    && (forall q | q in s.flights :: InOrder(FlightTrail(q, s.flights[q]), events))
    && (forall i | 0 <= i < |s.origins| :: WasDelivered(events, s.origins[i]))
  }

  ghost predicate LossesTold(h: Handlers, events: seq<Event>, s: State) {
    && (forall id | id in s.burned :: id in s.issued && WasBurned(events, s.issued[id]))
    && (forall id | id in s.evicted :: id in s.issued && WasEvicted(events, s.issued[id]))
    && (forall id | id in s.spent :: id in s.issued && WasSpent(h, events, s.issued[id]))
  }

  ghost predicate Told(h: Handlers, events: seq<Event>, s: State) {
    TreasuryTold(events, s) && RequestsTold(events, s) && LossesTold(h, events, s)
  }

  /** A longer run tells at least as much. */
  lemma StillTold(h: Handlers, events: seq<Event>, s: State, e: Event, more: seq<Event>)
    requires Told(h, events, s) && more == events + [e]
    ensures Told(h, more, s)
  {
    AllStillInOrder(events, e, more);
  }

  lemma ProduceTold(h: Handlers, events: seq<Event>, s: State, id: string, intentId: string, now: I64, more: seq<Event>)
    requires Told(h, events, s) && id !in s.issued
    requires more == events + [SettleProduced(id, intentId, now)]
    ensures Told(h, more, Produce(s, FreshReceipt(id, intentId, now)))
  {
    var e := SettleProduced(id, intentId, now);
    StillTold(h, events, s, e, more);
    NextInOrder([], events, e, more);
    assert [] + [e] == Produced(FreshReceipt(id, intentId, now));
  }

  lemma RecordTold(h: Handlers, events: seq<Event>, s: State, id: string, more: seq<Event>)
    requires Authentic(s) && Told(h, events, s) && id in s.recording
    requires more == events + [SettleRecorded(id)]
    ensures Told(h, more, RecordOne(s, id))
  {
    var e, t, receipt := SettleRecorded(id), RecordOne(s, id), s.recording[id];
    StillTold(h, events, s, e, more);
    NextInOrder(Produced(receipt), events, e, more);
    forall x | x in t.evicted ensures x in t.issued && WasEvicted(more, t.issued[x]) {
      if x !in s.evicted {
        SweepExactly(s.held, receipt.clearedAt, EvictStale(s.held, receipt.clearedAt));
        NextInOrder(Recorded(s.held[x]), events, e, more);
        StillInOrder(Produced(receipt), events, e, more);
      }
    }
  }

  lemma AdmitTold(h: Handlers, events: seq<Event>, s: State, q: nat, r: PaymentReceipt, body: Option<AgentIntent>,
                  t: State, more: seq<Event>)
    requires Told(h, events, s) && r.receiptId in s.held && s.held[r.receiptId] == r
    requires more == events + [Event.Presented(q, r.receiptId, r.intentId, body)]
    requires t == s.(held := Burn(s.held, r.receiptId), flights := s.flights[q := Paid(r, body)])
    ensures Told(h, more, t)
  {
    var e := Event.Presented(q, r.receiptId, r.intentId, body);
    StillTold(h, events, s, e, more);
    NextInOrder(Recorded(r), events, e, more);
  }

  lemma BurnTold(h: Handlers, events: seq<Event>, s: State, q: nat, r: PaymentReceipt, intentId: string,
                 body: Option<AgentIntent>, t: State, more: seq<Event>)
    requires Told(h, events, s) && r.receiptId in s.held && s.held[r.receiptId] == r && r.intentId != intentId
    requires r.receiptId in s.issued && s.issued[r.receiptId] == r
    requires more == events + [Event.Presented(q, r.receiptId, intentId, body)]
    requires t == s.(held := Burn(s.held, r.receiptId), burned := s.burned + {r.receiptId})
    ensures Told(h, more, t)
  {
    var e := Event.Presented(q, r.receiptId, intentId, body);
    StillTold(h, events, s, e, more);
    NextInOrder(Recorded(r), events, e, more);
    assert WasBurned(more, r);
  }

  lemma PresentTold(h: Handlers, events: seq<Event>, s: State, q: nat, id: string, intentId: string,
                    body: Option<AgentIntent>, more: seq<Event>)
    requires Authentic(s) && Told(h, events, s)
    requires more == events + [Event.Presented(q, id, intentId, body)]
    ensures Told(h, more, Present(s, q, id, intentId, body))
  {
    if id !in s.held {
      StillTold(h, events, s, Event.Presented(q, id, intentId, body), more);
    } else if s.held[id].intentId == intentId {
      AdmitTold(h, events, s, q, s.held[id], body, Present(s, q, id, intentId, body), more);
    } else {
      BurnTold(h, events, s, q, s.held[id], intentId, body, Present(s, q, id, intentId, body), more);
    }
  }

  lemma RetireTold(h: Handlers, events: seq<Event>, s: State, q: nat, e: Event, more: seq<Event>)
    requires Authentic(s) && Told(h, events, s) && q in s.flights && s.flights[q].Paid?
    requires Fruitless(h, s.flights[q].receipt, q, s.flights[q].body, e) && more == events + [e]
    ensures Told(h, more, Retire(s, q))
  {
    StillTold(h, events, s, e, more);
    NextInOrder(Admitted(s.flights[q].receipt, q, s.flights[q].body), events, e, more);
  }

  lemma MintTold(h: Handlers, events: seq<Event>, s: State, q: nat, now: I64, entropy: Vault.Entropy,
                 more: seq<Event>)
    requires Authentic(s) && Told(h, events, s) && Enabled(h, s, MintAttempted(q, now, entropy))
    requires more == events + [MintAttempted(q, now, entropy)]
    ensures Told(h, more, Apply(h, s, MintAttempted(q, now, entropy)))
  {
    var e := MintAttempted(q, now, entropy);
    if MintOf(h, s, q, now, entropy).None? {
      RetireTold(h, events, s, q, e, more);
    } else {
      StillTold(h, events, s, e, more);
      NextInOrder(FlightTrail(q, s.flights[q]), events, e, more);
    }
  }

  lemma DeliverTold(h: Handlers, events: seq<Event>, s: State, q: nat, more: seq<Event>)
    requires q in s.flights && s.flights[q].Minted? && s.flights[q].origin.Genuine(h)
    requires Told(h, events, s) && more == events + [Packaged(q)]
    ensures Told(h, more, Deliver(h, s, q))
  {
    StillTold(h, events, s, Packaged(q), more);
    NextInOrder(Tried(q, s.flights[q].origin), events, Packaged(q), more);
    var t := Deliver(h, s, q);
    assert InOrder(Delivered(q, s.flights[q].origin), more);
    assert forall i | 0 <= i < |s.origins| :: t.origins[i] == s.origins[i];
  }

  lemma StepTold(h: Handlers, events: seq<Event>, s: State, e: Event, more: seq<Event>)
    requires Authentic(s) && Told(h, events, s) && Enabled(h, s, e) && more == events + [e]
    ensures Told(h, more, Apply(h, s, e))
  {
    match e
    case SettleProduced(id, intentId, now) => ProduceTold(h, events, s, id, intentId, now, more);
    case SettleRecorded(id) => RecordTold(h, events, s, id, more);
    case Presented(q, id, intentId, body) => PresentTold(h, events, s, q, id, intentId, body, more);
    case Abandoned(q) => RetireTold(h, events, s, q, e, more);
    case BodyMismatch(q) => RetireTold(h, events, s, q, e, more);
    case MintAttempted(q, now, entropy) => MintTold(h, events, s, q, now, entropy, more);
    case Packaged(q) => DeliverTold(h, events, s, q, more);
  }

  lemma FirstTold(h: Handlers)
    ensures Told(h, [], INITIAL)
  {
  }

  lemma RunIsAuthentic(h: Handlers, events: seq<Event>)
    requires Possible(h, events)
    ensures Authentic(After(h, events))
  {
    EveryRunIsGood(h, events);
  }

  lemma NextTold(h: Handlers, events: seq<Event>, more: seq<Event>)
    requires Possible(h, more) && more != [] && events == more[..|more| - 1] && Possible(h, events)
    requires Told(h, events, After(h, events))
    ensures Told(h, more, After(h, more))
  {
    RunIsAuthentic(h, events);
    StepTold(h, events, After(h, events), more[|more| - 1], more);
  }

  /** In every run each receipt, request and envelope is where the steps of the run brought it. */
  lemma {:induction false} EveryLabelIsTold(h: Handlers, events: seq<Event>)
    requires Possible(h, events)
    ensures Told(h, events, After(h, events))
    decreases |events|
  {
    if events == [] {
      FirstTold(h);
    } else {
      var n := |events| - 1;
      EveryLabelIsTold(h, events[..n]);
      NextTold(h, events[..n], events);
    }
  }

  // ----- Settlements, both ways

  lemma StepIssues(h: Handlers, s: State, e: Event)
    requires Enabled(h, s, e)
    ensures Apply(h, s, e).issued
         == if e.SettleProduced? then s.issued[e.receiptId := PaymentReceipt(e.receiptId, e.intentId, 500_000, e.now)]
            else s.issued
    ensures Apply(h, s, e).recording
         == if e.SettleProduced? then
              s.recording[e.receiptId := PaymentReceipt(e.receiptId, e.intentId, 500_000, e.now)]
            else if e.SettleRecorded? then s.recording - {e.receiptId} else s.recording
  {
  }

  /** The receipts issued are exactly those the run settled: their ids, intents and clocks, for the fixed fee. */
  lemma {:induction false} IssuedExactly(h: Handlers, events: seq<Event>, id: string, intentId: string, now: I64)
    requires Possible(h, events)
    ensures SettleProduced(id, intentId, now) in events
       <==> id in After(h, events).issued
            && After(h, events).issued[id] == PaymentReceipt(id, intentId, 500_000, now)
    decreases |events|
  {
    if events != [] {
      var n := |events| - 1;
      IssuedExactly(h, events[..n], id, intentId, now);
      StepIssues(h, After(h, events[..n]), events[n]);
      assert events == events[..n] + [events[n]];
    }
  }

  lemma StepRecords(h: Handlers, s: State, e: Event, id: string)
    requires Authentic(s) && Enabled(h, s, e)
    ensures (id in Apply(h, s, e).issued && id !in Apply(h, s, e).recording)
         == (e == SettleRecorded(id) || (id in s.issued && id !in s.recording))
  {
    StepIssues(h, s, e);
  }

  lemma InLonger(e: Event, events: seq<Event>, last: Event, more: seq<Event>)
    requires more == events + [last]
    ensures e in more <==> e == last || e in events
  {
  }

  /** A receipt has reached the treasury exactly when the run recorded it. */
  lemma {:induction false} RecordedExactly(h: Handlers, events: seq<Event>, id: string)
    requires Possible(h, events)
    ensures SettleRecorded(id) in events <==> id in After(h, events).issued && id !in After(h, events).recording
    decreases |events|
  {
    if events != [] {
      var n := |events| - 1;
      RecordedExactly(h, events[..n], id);
      RunIsAuthentic(h, events[..n]);
      StepRecords(h, After(h, events[..n]), events[n], id);
      InLonger(SettleRecorded(id), events[..n], events[n], events);
    }
  }

  lemma DeliveredSteps(q: nat, o: Origin, r: PaymentReceipt)
    requires r == o.receipt
    ensures Delivered(q, o)
         == [SettleProduced(r.receiptId, r.intentId, r.clearedAt), SettleRecorded(r.receiptId),
             Event.Presented(q, r.receiptId, r.intentId, Some(o.intent)),
             MintAttempted(q, o.now, o.entropy), Packaged(q)]
  {
  }

  /**
    Behind every envelope the run has, in this order: the settlement of its
    intent, its recording, its presentation for that intent with the intent as
    the body, the mint, and the packaging, all by one request; and the envelope
    carries that receipt, that intent and the fee.
   */
  lemma EnvelopeHistory(h: Handlers, events: seq<Event>, i: nat) returns (q: nat, cleared: I64)
    requires Possible(h, events) && i < |After(h, events).envelopes|
    ensures |After(h, events).origins| == |After(h, events).envelopes|
    ensures var s := After(h, events); var o, p := s.origins[i], s.envelopes[i].params;
      && InOrder([SettleProduced(p.receiptId, o.intent.intentId, cleared), SettleRecorded(p.receiptId),
                  Event.Presented(q, p.receiptId, o.intent.intentId, Some(o.intent)),
                  MintAttempted(q, o.now, o.entropy), Packaged(q)], events)
      && (var r := PaymentReceipt(p.receiptId, o.intent.intentId, 500_000, cleared);
          && h.mint(o.intent, r, o.now, o.entropy).Some?
          && s.envelopes[i] == Settlement.Package(h.payload(o.intent), h.mint(o.intent, r, o.now, o.entropy).value, r))
  {
    var s := After(h, events);
    EveryRunIsGood(h, events);
    EveryLabelIsTold(h, events);
    var o := s.origins[i];
    assert WasDelivered(events, o);
    q :| InOrder(Delivered(q, o), events);
    cleared := o.receipt.clearedAt;
    var r := o.receipt;
    DeliveredSteps(q, o, r);
    assert o.Genuine(h) && s.envelopes[i] == o.Envelope(h);
    assert r == PaymentReceipt(r.receiptId, r.intentId, 500_000, cleared);
  }
}
