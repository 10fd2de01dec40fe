/**
  What the invariant means for whole runs: every envelope is paid for by its own
  settlement, receipts are conserved to the last one, a receipt is redeemed at
  most once however many requests present it, credential ids never repeat, and
  the treasury stays within its ten-minute window.
 */
module ProtocolLaws {
  import opened Bytes
  import opened Wrappers
  import opened Crypto
  import opened X402
  import opened Intents
  import opened Protocol
  import Vault
  import Settlement

  // ----- Conservation, counted

  function FlightId(s: State, q: nat): string
    requires q in s.flights
  {
    s.flights[q].receipt.receiptId
  }

  lemma {:induction false} FlightIdCount(s: State, qs: set<nat>)
    requires NoSharing(s) && qs <= s.flights.Keys
    ensures |set q | q in qs :: FlightId(s, q)| == |qs|
    decreases |qs|
  {
    if q :| q in qs {
      FlightIdCount(s, qs - {q});
      assert (set r | r in qs :: FlightId(s, r)) == (set r | r in qs - {q} :: FlightId(s, r)) + {FlightId(s, q)};
    }
  }

  function EnvelopeIds(envelopes: seq<Settlement.OneShotEnvelope>): set<string> {
    set i | 0 <= i < |envelopes| :: envelopes[i].params.receiptId
  }

  lemma {:induction false} EnvelopeIdCount(envelopes: seq<Settlement.OneShotEnvelope>)
    requires forall i, j | 0 <= i < j < |envelopes| ::
      envelopes[i].params.receiptId != envelopes[j].params.receiptId
    ensures |EnvelopeIds(envelopes)| == |envelopes|
  {
    if envelopes != [] {
      var n := |envelopes| - 1;
      EnvelopeIdCount(envelopes[..n]);
      assert EnvelopeIds(envelopes) == EnvelopeIds(envelopes[..n]) + {envelopes[n].params.receiptId};
    }
  }

  lemma PlacesAsSets(s: State, id: string)
    requires Conserved(s)
    ensures InFlight(s, id) <==> id in set q | q in s.flights.Keys :: FlightId(s, q)
    ensures Enveloped(s, id) <==> id in EnvelopeIds(s.envelopes)
    ensures Places(s, id) == One(id in s.issued)
  {
  }

  /** How many of the sets hold `x`. */
  function Holders(sets: seq<set<string>>, x: string): nat {
    if sets == [] then 0 else One(x in sets[0]) + Holders(sets[1..], x)
  }

  function TotalSize(sets: seq<set<string>>): nat {
    if sets == [] then 0 else |sets[0]| + TotalSize(sets[1..])
  }

  /** Sets that hold every element of `whole` exactly once, and nothing else, are together as large. */
  lemma {:induction false} SplitSizes(whole: set<string>, sets: seq<set<string>>)
    requires forall x :: Holders(sets, x) == One(x in whole)
    ensures TotalSize(sets) == |whole|
    decreases |sets|
  {
    if sets == [] {
      assert forall x :: Holders(sets, x) == 0;
      assert whole == {};
    } else {
      forall x ensures Holders(sets[1..], x) == One(x in whole - sets[0]) {
        assert Holders(sets, x) == One(x in whole);
      }
      assert sets[0] <= whole by {
        forall x | x in sets[0] ensures x in whole {
          assert Holders(sets, x) == One(x in whole);
        }
      }
      SplitSizes(whole - sets[0], sets[1..]);
    }
  }

  lemma ConsHolders(first: set<string>, rest: seq<set<string>>, x: string)
    ensures Holders([first] + rest, x) == One(x in first) + Holders(rest, x)
    ensures TotalSize([first] + rest) == |first| + TotalSize(rest)
  {
    assert ([first] + rest)[1..] == rest;
  }

  lemma SevenHolders(a: set<string>, b: set<string>, c: set<string>, d: set<string>,
                     e: set<string>, f: set<string>, g: set<string>, x: string)
    ensures Holders([a, b, c, d, e, f, g], x)
         == One(x in a) + One(x in b) + One(x in c) + One(x in d) + One(x in e) + One(x in f) + One(x in g)
    ensures TotalSize([a, b, c, d, e, f, g]) == |a| + |b| + |c| + |d| + |e| + |f| + |g|
  {
    ConsHolders(g, [], x);
    ConsHolders(f, [g], x);
    ConsHolders(e, [f, g], x);
    ConsHolders(d, [e, f, g], x);
    ConsHolders(c, [d, e, f, g], x);
    ConsHolders(b, [c, d, e, f, g], x);
    ConsHolders(a, [b, c, d, e, f, g], x);
    assert [g] + [] == [g] && [f] + [g] == [f, g] && [e] + [f, g] == [e, f, g];
    assert [d] + [e, f, g] == [d, e, f, g] && [c] + [d, e, f, g] == [c, d, e, f, g];
    assert [b] + [c, d, e, f, g] == [b, c, d, e, f, g] && [a] + [b, c, d, e, f, g] == [a, b, c, d, e, f, g];
  }

  lemma SizesAddUp(s: State)
    requires Conserved(s) && NoSharing(s)
    ensures |s.issued| == |s.recording| + |s.held| + |s.flights| + |s.envelopes| + |s.burned| + |s.evicted| + |s.spent|
  {
    var a, b, d, e, f, g := s.recording.Keys, s.held.Keys, EnvelopeIds(s.envelopes), s.burned, s.evicted, s.spent;
    var c := set q | q in s.flights.Keys :: FlightId(s, q);
    FlightIdCount(s, s.flights.Keys);
    EnvelopeIdCount(s.envelopes);
    forall x
      ensures Holders([a, b, c, d, e, f, g], x) == One(x in s.issued.Keys)
    {
      PlacesAsSets(s, x);
      SevenHolders(a, b, c, d, e, f, g, x);
    }
    SevenHolders(a, b, c, d, e, f, g, "");
    SplitSizes(s.issued.Keys, [a, b, c, d, e, f, g]);
  }

  /** Every settled receipt is counted in exactly one of the seven places. */
  lemma ReceiptsAddUp(h: Handlers, events: seq<Event>)
    requires Possible(h, events)
    ensures var s := After(h, events);
      |s.issued| == |s.recording| + |s.held| + |s.flights| + |s.envelopes| + |s.burned| + |s.evicted| + |s.spent|
  {
    EveryRunIsGood(h, events);
    SizesAddUp(After(h, events));
  }

  function TotalFees(envelopes: seq<Settlement.OneShotEnvelope>): nat {
    if envelopes == [] then 0
    else TotalFees(envelopes[..|envelopes| - 1]) + envelopes[|envelopes| - 1].params.feeMicroUsdc
  }

  lemma {:induction false} FixedFeesAdd(envelopes: seq<Settlement.OneShotEnvelope>)
    requires forall i | 0 <= i < |envelopes| :: envelopes[i].params.feeMicroUsdc == EXECUTION_FEE_MICRO_USDC
    ensures TotalFees(envelopes) == EXECUTION_FEE_MICRO_USDC * |envelopes|
  {
    if envelopes != [] {
      FixedFeesAdd(envelopes[..|envelopes| - 1]);
    }
  }

  /**
    Each envelope was paid for by a recorded settlement of its own: same receipt,
    same intent, the fixed fee. So envelopes and fees never outgrow settlements.
   */
  lemma EnvelopesAreFunded(h: Handlers, events: seq<Event>)
    requires Possible(h, events)
    ensures var s := After(h, events); |s.origins| == |s.envelopes|
    ensures var s := After(h, events); forall i | 0 <= i < |s.envelopes| ::
      var p, o := s.envelopes[i].params, s.origins[i];
      && p.receiptId in s.issued && p.receiptId !in s.recording
      && s.issued[p.receiptId].intentId == o.intent.intentId && p.intent == h.payload(o.intent)
      && p.feeMicroUsdc == EXECUTION_FEE_MICRO_USDC
    ensures var s := After(h, events); forall i, j | 0 <= i < j < |s.envelopes| ::
      s.envelopes[i].params.receiptId != s.envelopes[j].params.receiptId
    ensures var s := After(h, events);
      && |s.envelopes| <= |s.issued| - |s.recording|
      && TotalFees(s.envelopes) <= EXECUTION_FEE_MICRO_USDC * (|s.issued| - |s.recording|)
  {
    var s := After(h, events);
    EveryRunIsGood(h, events);
    ReceiptsAddUp(h, events);
    forall i | 0 <= i < |s.envelopes|
      ensures s.envelopes[i].params.receiptId in s.issued && s.envelopes[i].params.receiptId !in s.recording
      ensures s.envelopes[i].params.feeMicroUsdc == EXECUTION_FEE_MICRO_USDC
    {
      assert s.envelopes[i] == s.origins[i].Envelope(h);
      assert Enveloped(s, s.envelopes[i].params.receiptId);
      assert Places(s, s.envelopes[i].params.receiptId) <= 1;
    }
    FixedFeesAdd(s.envelopes);
  }

  // ----- A receipt that has left the treasury stays out

  /** Issued, recorded once, and no longer held. */
  predicate Gone(s: State, id: string) {
    id in s.issued && id !in s.recording && id !in s.held
  }

  lemma StepGone(h: Handlers, s: State, e: Event, id: string)
    requires Authentic(s) && Enabled(h, s, e) && Gone(s, id)
    ensures Gone(Apply(h, s, e), id)
  {
  }

  lemma {:induction false} NeverReturns(h: Handlers, events: seq<Event>, n: nat, id: string)
    requires Possible(h, events) && n <= |events| && Possible(h, events[..n])
    requires Gone(After(h, events[..n]), id)
    ensures Gone(After(h, events), id)
    decreases |events|
  {
    if n == |events| {
      assert events[..n] == events;
    } else {
      var m := |events| - 1;
      assert events[..m][..n] == events[..n];
      NeverReturns(h, events[..m], n, id);
      EveryRunIsGood(h, events[..m]);
      StepGone(h, After(h, events[..m]), events[m], id);
    }
  }

  // ----- At most one presentation succeeds

  /** Whether an event is a presentation of `id` that the guard lets through. */
  predicate Redeems(s: State, e: Event, id: string) {
    e.Presented? && e.receiptId == id && Redeemed(s.held, id, e.intentId).Ok?
  }

  /** How many presentations of `id` the guard let through. */
  function Redemptions(h: Handlers, events: seq<Event>, id: string): nat
    requires Possible(h, events)
    decreases |events|
  {
    if events == [] then 0
    else
      var n := |events| - 1;
      Redemptions(h, events[..n], id) + One(Redeems(After(h, events[..n]), events[n], id))
  }

  ghost function RedeemedPlaces(s: State, id: string): nat {
    One(InFlight(s, id)) + One(Enveloped(s, id)) + One(id in s.spent)
  }

  lemma StepRedemptions(h: Handlers, s: State, e: Event, id: string)
    requires Good(h, s) && Enabled(h, s, e)
    ensures RedeemedPlaces(Apply(h, s, e), id) == RedeemedPlaces(s, id) + One(Redeems(s, e, id))
  {
    match e
    case Presented(q, receiptId, intentId, body) => PresentRedemptions(h, s, q, receiptId, intentId, body, id);
    case MintAttempted(q, now, entropy) =>
      if MintOf(h, s, q, now, entropy).Some? {
        FlightsAfterReplace(s, Apply(h, s, e), q, Apply(h, s, e).flights[q]);
        assert Enveloped(Apply(h, s, e), id) == Enveloped(s, id);
      } else {
        RetireRedemptions(s, q, id);
      }
    case Packaged(q) => DeliverRedemptions(h, s, q, id);
    case Abandoned(q) => RetireRedemptions(s, q, id);
    case BodyMismatch(q) => RetireRedemptions(s, q, id);
    case SettleProduced(_, _, _) => SameRedemptions(s, Apply(h, s, e), id);
    case SettleRecorded(_) => SameRedemptions(s, Apply(h, s, e), id);
  }

  lemma SameRedemptions(s: State, t: State, id: string)
    requires t.flights == s.flights && t.envelopes == s.envelopes && t.spent == s.spent
    ensures RedeemedPlaces(t, id) == RedeemedPlaces(s, id)
  {
  }

  lemma AdmitRedemptions(s: State, t: State, q: nat, f: Flight, id: string)
    requires Conserved(s) && q !in s.flights && f.receipt.receiptId in s.held
    requires t.flights == s.flights[q := f] && t.envelopes == s.envelopes && t.spent == s.spent
    ensures RedeemedPlaces(t, id) == RedeemedPlaces(s, id) + One(f.receipt.receiptId == id)
  {
    assert Places(s, id) == One(id in s.issued);
    FlightsAfterAdd(s, t, q, f);
    assert Enveloped(t, id) == Enveloped(s, id);
  }

  lemma PresentRedemptions(h: Handlers, s: State, q: nat, receiptId: string, intentId: string,
                           body: Option<AgentIntent>, id: string)
    requires Good(h, s) && q !in s.flights
    ensures RedeemedPlaces(Present(s, q, receiptId, intentId, body), id)
         == RedeemedPlaces(s, id) + One(receiptId == id && Redeemed(s.held, receiptId, intentId).Ok?)
  {
    var t := Present(s, q, receiptId, intentId, body);
    match Redeemed(s.held, receiptId, intentId)
    case Ok(receipt) => AdmitRedemptions(s, t, q, Paid(receipt, body), id);
    case Err(_) => SameRedemptions(s, t, id);
  }

  lemma DeliverRedemptions(h: Handlers, s: State, q: nat, id: string)
    requires Good(h, s) && Enabled(h, s, Packaged(q))
    ensures RedeemedPlaces(Deliver(h, s, q), id) == RedeemedPlaces(s, id)
  {
    var t, o := Deliver(h, s, q), s.flights[q].origin;
    assert InFlight(s, o.receipt.receiptId);
    assert Places(s, o.receipt.receiptId) == One(o.receipt.receiptId in s.issued);
    FlightsAfterRemove(s, t, q);
    EnvelopesAfterAppend(s, t, o.Envelope(h));
  }

  lemma RetireRedemptions(s: State, q: nat, id: string)
    requires Conserved(s) && NoSharing(s) && q in s.flights
    ensures RedeemedPlaces(Retire(s, q), id) == RedeemedPlaces(s, id)
  {
    var t, gone := Retire(s, q), FlightId(s, q);
    assert InFlight(s, gone) && Places(s, gone) == One(gone in s.issued);
    FlightsAfterRemove(s, t, q);
    assert Enveloped(t, id) == Enveloped(s, id);
  }

  /** Of all presentations of a receipt in a run, the number let through is where it is now: none or one. */
  lemma {:induction false} RedeemedAtMostOnce(h: Handlers, events: seq<Event>, id: string)
    requires Possible(h, events)
    ensures Redemptions(h, events, id) == RedeemedPlaces(After(h, events), id) <= 1
    decreases |events|
  {
    EveryRunIsGood(h, events);
    assert Places(After(h, events), id) <= 1;
    if events == [] {
      assert !InFlight(INITIAL, id) && !Enveloped(INITIAL, id);
    } else {
      var n := |events| - 1;
      RedeemedAtMostOnce(h, events[..n], id);
      EveryRunIsGood(h, events[..n]);
      StepRedemptions(h, After(h, events[..n]), events[n], id);
    }
  }

  // ----- One credential, one settlement, ever

  /** Credential ids in flight and in envelopes are recorded, and no two agree. */
  predicate Keyed(h: Handlers, s: State)
    requires Provenance(h, s)
  {
    && (forall i | 0 <= i < |s.envelopes| :: s.envelopes[i].idempotencyKey in s.credentials)
    && (forall q | q in s.flights && s.flights[q].Minted? ::
          s.flights[q].origin.Credential(h).credentialId in s.credentials)
    && (forall i, j | 0 <= i < j < |s.envelopes| :: s.envelopes[i].idempotencyKey != s.envelopes[j].idempotencyKey)
    && (forall q, r | q in s.flights && r in s.flights && q != r && s.flights[q].Minted? && s.flights[r].Minted? ::
          s.flights[q].origin.Credential(h).credentialId != s.flights[r].origin.Credential(h).credentialId)
    && (forall i, q | 0 <= i < |s.envelopes| && q in s.flights && s.flights[q].Minted? ::
          s.envelopes[i].idempotencyKey != s.flights[q].origin.Credential(h).credentialId)
  }

  /** Nothing was minted and nothing delivered. */
  lemma KeyedWithoutMint(h: Handlers, s: State, t: State)
    requires Provenance(h, s) && Keyed(h, s) && Provenance(h, t)
    requires t.envelopes == s.envelopes && t.credentials == s.credentials
    requires forall q | q in t.flights && t.flights[q].Minted? :: q in s.flights && s.flights[q] == t.flights[q]
    ensures Keyed(h, t)
  {
  }

  lemma KeyedTakeOff(h: Handlers, s: State, q: nat, now: I64, entropy: Vault.Entropy)
    requires Provenance(h, s) && Keyed(h, s) && Enabled(h, s, MintAttempted(q, now, entropy))
    requires MintOf(h, s, q, now, entropy).Some?
    requires Provenance(h, Apply(h, s, MintAttempted(q, now, entropy)))
    ensures Keyed(h, Apply(h, s, MintAttempted(q, now, entropy)))
  {
    var t := Apply(h, s, MintAttempted(q, now, entropy));
    assert t.flights[q].origin.Credential(h) == MintOf(h, s, q, now, entropy).value;
  }

  lemma KeyedDeliver(h: Handlers, s: State, q: nat)
    requires Provenance(h, s) && Keyed(h, s) && Enabled(h, s, Packaged(q)) && Provenance(h, Deliver(h, s, q))
    ensures Keyed(h, Deliver(h, s, q))
  {
    var t, o := Deliver(h, s, q), s.flights[q].origin;
    assert o.Envelope(h).idempotencyKey == o.Credential(h).credentialId;
    assert forall i | 0 <= i < |s.envelopes| :: t.envelopes[i] == s.envelopes[i];
  }

  /** Whether a step is a successful mint. */
  predicate Minting(h: Handlers, s: State, e: Event)
    requires Enabled(h, s, e)
  {
    e.MintAttempted? && MintOf(h, s, e.request, e.now, e.entropy).Some?
  }

  lemma OtherStepsKeyed(h: Handlers, s: State, e: Event)
    requires Provenance(h, s) && Keyed(h, s) && Enabled(h, s, e) && Provenance(h, Apply(h, s, e))
    requires !e.Packaged? && !Minting(h, s, e)
    ensures Keyed(h, Apply(h, s, e))
  {
    KeyedWithoutMint(h, s, Apply(h, s, e));
  }

  lemma StepKeyed(h: Handlers, s: State, e: Event)
    requires Provenance(h, s) && Keyed(h, s) && Enabled(h, s, e) && Provenance(h, Apply(h, s, e))
    ensures Keyed(h, Apply(h, s, e))
  {
    if Minting(h, s, e) {
      KeyedTakeOff(h, s, e.request, e.now, e.entropy);
    } else if e.Packaged? {
      KeyedDeliver(h, s, e.request);
    } else {
      OtherStepsKeyed(h, s, e);
    }
  }

  /** In every run, credential ids, and so idempotency keys, never repeat. */
  lemma {:induction false} KeysNeverRepeat(h: Handlers, events: seq<Event>)
    requires Possible(h, events)
    ensures Provenance(h, After(h, events)) && Keyed(h, After(h, events))
    decreases |events|
  {
    EveryRunIsGood(h, events);
    if events != [] {
      var n := |events| - 1;
      KeysNeverRepeat(h, events[..n]);
      EveryRunIsGood(h, events[..n]);
      StepKeyed(h, After(h, events[..n]), events[n]);
    }
  }

  // ----- The treasury along a run

  /** The gate call a step makes, if any. */
  function CallOf(s: State, e: Event): Option<GateCall> {
    match e
    case SettleRecorded(id) => if id in s.recording then Some(GateCall.Settled(s.recording[id])) else None
    case Presented(_, id, intentId, _) => Some(GateCall.Presented(id, intentId))
    case _ => None
  }

  /** The gate calls a run makes, in order. */
  function Calls(h: Handlers, events: seq<Event>): seq<GateCall>
    requires Possible(h, events)
    decreases |events|
  {
    if events == [] then []
    else
      var n := |events| - 1;
      match CallOf(After(h, events[..n]), events[n])
      case Some(call) => Calls(h, events[..n]) + [call]
      case None => Calls(h, events[..n])
  }

  lemma StepOnTreasury(h: Handlers, s: State, e: Event)
    requires Enabled(h, s, e)
    ensures Apply(h, s, e).held
         == match CallOf(s, e) case Some(call) => GateStep(s.held, call) case None => s.held
  {
    if e.Presented? && e.receiptId !in s.held {
      assert Burn(s.held, e.receiptId) == s.held;
    }
  }

  /** Requests and mints apart, the treasury of a run is the gate's own run. */
  lemma {:induction false} TreasuryIsGateRun(h: Handlers, events: seq<Event>)
    requires Possible(h, events)
    ensures After(h, events).held == GateRun(map[], Calls(h, events))
    decreases |events|
  {
    if events != [] {
      var n := |events| - 1;
      var s := After(h, events[..n]);
      TreasuryIsGateRun(h, events[..n]);
      StepOnTreasury(h, s, events[n]);
      if CallOf(s, events[n]).Some? {
        RunAppend(map[], Calls(h, events[..n]), CallOf(s, events[n]).value);
      }
    }
  }

  /** The last call of a run that ends by recording a settlement is that settlement's. */
  lemma LastRecorded(h: Handlers, run: seq<Event>, id: string) returns (before: seq<GateCall>, receipt: PaymentReceipt)
    requires Possible(h, run) && run != [] && run[|run| - 1] == SettleRecorded(id)
    ensures Calls(h, run) == before + [GateCall.Settled(receipt)]
    ensures After(h, run).held == GateRun(map[], Calls(h, run))
    ensures id in After(h, run).held && After(h, run).held[id] == receipt
  {
    var n := |run| - 1;
    EveryRunIsGood(h, run[..n]);
    TreasuryIsGateRun(h, run);
    before, receipt := Calls(h, run[..n]), After(h, run[..n]).recording[id];
  }

  /** No more receipts are held than were settled in the ten minutes before receipt `id` cleared. */
  predicate WithinWindow(held: Treasury, calls: seq<GateCall>, id: string) {
    id in held && |held| <= SettledSince(calls, held[id].clearedAt - RECEIPT_STALE_AFTER_SECS)
  }

  lemma BoundedAtLast(held: Treasury, calls: seq<GateCall>, id: string, before: seq<GateCall>, receipt: PaymentReceipt)
    requires calls == before + [GateCall.Settled(receipt)] && held == GateRun(map[], calls)
    requires id in held && held[id] == receipt
    ensures WithinWindow(held, calls, id)
  {
    TreasuryBound(before, receipt);
  }

  /** Whatever else is in flight, just after a settlement is recorded the treasury is within its window. */
  lemma TreasuryStaysBounded(h: Handlers, run: seq<Event>, id: string)
    requires Possible(h, run) && run != [] && run[|run| - 1] == SettleRecorded(id)
    ensures WithinWindow(After(h, run).held, Calls(h, run), id)
  {
    var before, receipt := LastRecorded(h, run, id);
    BoundedAtLast(After(h, run).held, Calls(h, run), id, before, receipt);
  }

  // ----- With the real vault

  /** The handlers of `execute`: the intent's payload and the vault's mint. */
  function VaultHandlers(c: Scheme): Handlers {
    Handlers(
      (i: AgentIntent) => Payload(i),
      (i: AgentIntent, r: PaymentReceipt, t: I64, e: Vault.Entropy) =>
        match Vault.Mint(c, Payload(i), r, t, e) case Ok(credential) => Some(credential) case Err(_) => None)
  }

  /**
    In every run over the real vault each envelope verifies during exactly the
    sixty seconds after its mint; with its intent swapped for another's it does not
    verify at all, unless the two canonical forms are a hash collision.
   */
  lemma DeliveredEnvelopesVerify(c: Scheme, events: seq<Event>, i: nat, other: AgentIntent, now: I64)
    requires Possible(VaultHandlers(c), events)
    requires i < |After(VaultHandlers(c), events).envelopes|
    ensures |After(VaultHandlers(c), events).origins| == |After(VaultHandlers(c), events).envelopes|
    ensures var s := After(VaultHandlers(c), events); var o, params := s.origins[i], s.envelopes[i].params;
      && params.intent == Payload(o.intent)
      && (Settlement.Verify(c, params, now).Ok?
          <==> o.now <= now < o.now + Vault.CREDENTIAL_TTL_SECS < TWO_TO_THE_63)
      && (other != o.intent && Settlement.Verify(c, params.(intent := Payload(other)), now).Ok?
          ==> Collision(c.hash, Settlement.BindingInputs(Payload(o.intent), Payload(other))))
  {
    var h := VaultHandlers(c);
    EveryRunIsGood(h, events);
    var s := After(h, events);
    var o := s.origins[i];
    assert o.Genuine(h) && s.envelopes[i] == o.Envelope(h);
    Settlement.PackagedWindow(c, Payload(o.intent), o.receipt, o.now, o.entropy, now);
    Settlement.IntentIsBound(c, o.intent, o.receipt, o.now, o.entropy, other, now);
  }
}
