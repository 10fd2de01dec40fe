/**
  Paid execution as a transition system. Any number of settlements and execution
  requests are in flight at once; a request's redemption (atomic under the gate's
  lock), its mint and its packaging are separate steps, and anything may happen
  between them. The treasury moves by the functions the gate's methods are proved
  against; payload and mint are parameters, so the laws hold for every vault.
 */
module Protocol {
  import opened Bytes
  import opened Wrappers
  import opened X402
  import opened Intents
  import Json
  import Vault
  import Settlement

  /** What the execute handler calls: the payload of an intent, and the mint. */
  datatype Handlers = Handlers(
    payload: AgentIntent -> Json.Value,
    mint: (AgentIntent, PaymentReceipt, I64, Vault.Entropy) -> Option<Vault.EphemeralCredential>)

  /** Where a credential came from. */
  datatype Origin = Origin(receipt: PaymentReceipt, intent: AgentIntent, now: I64, entropy: Vault.Entropy)
  {
    /** The mint accepted, for the intent the receipt was settled for. */
    predicate Genuine(h: Handlers) {
      intent.intentId == receipt.intentId && h.mint(intent, receipt, now, entropy).Some?
    }

    function Credential(h: Handlers): Vault.EphemeralCredential
      requires Genuine(h)
    {
      h.mint(intent, receipt, now, entropy).value
    }

    function Envelope(h: Handlers): Settlement.OneShotEnvelope
      requires Genuine(h)
    {
      Settlement.Package(h.payload(intent), Credential(h), receipt)
    }
  }

  /**
    What a request has reached behind the guard; a body may fail to parse. A paid
    request can also be given up: its body is refused, its method is, or its
    caller has gone.
   */
  datatype Flight =
    | Paid(receipt: PaymentReceipt, body: Option<AgentIntent>)
    | Minted(receipt: PaymentReceipt, origin: Origin)

  datatype State = State(
    issued: map<string, PaymentReceipt>,      // every receipt a backend ever produced
    recording: map<string, PaymentReceipt>,   // produced, not yet under the lock
    held: Treasury,                           // the gate's map
    flights: map<nat, Flight>,                // requests past the guard
    envelopes: seq<Settlement.OneShotEnvelope>,
    origins: seq<Origin>,                     // what each envelope was made from
    burned: set<string>,                      // presented for another intent
    evicted: set<string>,                     // swept as stale
    spent: set<string>,                       // redeemed, but no envelope came of it
    credentials: set<string>)                 // credential ids minted

  const INITIAL: State := State(map[], map[], map[], map[], [], [], {}, {}, {}, {})

  datatype Event =
    | SettleProduced(receiptId: string, intentId: string, now: I64)
    | SettleRecorded(receiptId: string)
    | Presented(request: nat, receiptId: string, intentId: string, body: Option<AgentIntent>)
    | Abandoned(request: nat)
    | BodyMismatch(request: nat)
    | MintAttempted(request: nat, now: I64, entropy: Vault.Entropy)
    | Packaged(request: nat)

  /** A request that passed the guard with a body naming the receipt's own intent, or another. */
  predicate Waiting(s: State, request: nat, matching: bool) {
    && request in s.flights && s.flights[request].Paid? && s.flights[request].body.Some?
    && (matching <==> s.flights[request].receipt.intentId == s.flights[request].body.value.intentId)
  }

  function MintOf(h: Handlers, s: State, request: nat, now: I64, entropy: Vault.Entropy)
    : Option<Vault.EphemeralCredential>
    requires Waiting(s, request, true)
  {
    h.mint(s.flights[request].body.value, s.flights[request].receipt, now, entropy)
  }

  /**
    Where an event can happen. Fresh ids are the one assumption on the outside:
    a backend never repeats a receipt id and a mint never repeats a credential id.
   */
  predicate Enabled(h: Handlers, s: State, e: Event) {
    match e
    case SettleProduced(id, _, _) => id !in s.issued
    case SettleRecorded(id) => id in s.recording
    case Presented(request, _, _, _) => request !in s.flights
    case Abandoned(request) => request in s.flights && s.flights[request].Paid?
    case BodyMismatch(request) => Waiting(s, request, false)
    case MintAttempted(request, now, entropy) =>
      && Waiting(s, request, true)
      && (MintOf(h, s, request, now, entropy).Some? ==>
            MintOf(h, s, request, now, entropy).value.credentialId !in s.credentials)
    case Packaged(request) =>
      request in s.flights && s.flights[request].Minted? && s.flights[request].origin.Genuine(h)
  }

  function Apply(h: Handlers, s: State, e: Event): State
    requires Enabled(h, s, e)
  {
    match e
    case SettleProduced(id, intentId, now) => Produce(s, FreshReceipt(id, intentId, now))
    case SettleRecorded(id) => RecordOne(s, id)
    case Presented(request, id, intentId, body) => Present(s, request, id, intentId, body)
    case Abandoned(request) => Retire(s, request)
    case BodyMismatch(request) => Retire(s, request)
    case MintAttempted(request, now, entropy) =>
      (match MintOf(h, s, request, now, entropy)
       case None => Retire(s, request)
       case Some(credential) => TakeOff(s, request, now, entropy, credential.credentialId))
    case Packaged(request) => Deliver(h, s, request)
  }

  /** The backend confirms a payment. */
  function Produce(s: State, receipt: PaymentReceipt): State {
    s.(issued := s.issued[receipt.receiptId := receipt], recording := s.recording[receipt.receiptId := receipt])
  }

  /** Under the write lock: sweep what is stale at this settlement's clock, then insert. */
  function RecordOne(s: State, id: string): State
    requires id in s.recording
  {
    var receipt := s.recording[id];
    s.(recording := s.recording - {id},
       evicted := s.evicted + (s.held.Keys - EvictStale(s.held, receipt.clearedAt).Keys),
       held := Record(s.held, receipt, receipt.clearedAt))
  }

  /** Under the write lock: redeem or refuse, and burn whatever was found. */
  function Present(s: State, request: nat, id: string, intentId: string, body: Option<AgentIntent>): State {
    match Redeemed(s.held, id, intentId)
    case Ok(receipt) => s.(held := Burn(s.held, id), flights := s.flights[request := Paid(receipt, body)])
    case Err(IntentMismatch) => s.(held := Burn(s.held, id), burned := s.burned + {id})
    case Err(UnknownReceipt) => s
  }

  /** The request ends without an envelope; its receipt is gone. */
  function Retire(s: State, request: nat): State
    requires request in s.flights
  {
    s.(flights := s.flights - {request}, spent := s.spent + {s.flights[request].receipt.receiptId})
  }

  function TakeOff(s: State, request: nat, now: I64, entropy: Vault.Entropy, credentialId: string): State
    requires Waiting(s, request, true)
  {
    var receipt, intent := s.flights[request].receipt, s.flights[request].body.value;
    s.(flights := s.flights[request := Minted(receipt, Origin(receipt, intent, now, entropy))],
       credentials := s.credentials + {credentialId})
  }

  function Deliver(h: Handlers, s: State, request: nat): State
    requires request in s.flights && s.flights[request].Minted? && s.flights[request].origin.Genuine(h)
  {
    var origin := s.flights[request].origin;
    s.(flights := s.flights - {request}, envelopes := s.envelopes + [origin.Envelope(h)],
       origins := s.origins + [origin])
  }

  // ----- Runs

  predicate Possible(h: Handlers, events: seq<Event>)
    decreases |events|, 0
  {
    events == [] || (var n := |events| - 1; Possible(h, events[..n]) && Enabled(h, After(h, events[..n]), events[n]))
  }

  function After(h: Handlers, events: seq<Event>): State
    requires Possible(h, events)
    decreases |events|, 1
  {
    if events == [] then INITIAL else Apply(h, After(h, events[..|events| - 1]), events[|events| - 1])
  }

  // ----- What every reachable state satisfies

  ghost predicate InFlight(s: State, id: string) {
    exists request :: request in s.flights && s.flights[request].receipt.receiptId == id
  }

  ghost predicate Enveloped(s: State, id: string) {
    exists i | 0 <= i < |s.envelopes| :: s.envelopes[i].params.receiptId == id
  }

  function One(b: bool): nat {
    if b then 1 else 0
  }

  /** In how many places receipt `id` is. */
  ghost function Places(s: State, id: string): nat {
    One(id in s.recording) + One(id in s.held) + One(InFlight(s, id)) + One(Enveloped(s, id))
    + One(id in s.burned) + One(id in s.evicted) + One(id in s.spent)
  }

  /** Every issued receipt is in exactly one place, and nothing else is anywhere. */
  ghost predicate Conserved(s: State) {
    forall id :: Places(s, id) == One(id in s.issued)
  }

  /** No two requests hold one receipt, and no two envelopes were paid by one. */
  predicate NoSharing(s: State) {
    && (forall q, r | q in s.flights && r in s.flights && q != r ::
          s.flights[q].receipt.receiptId != s.flights[r].receipt.receiptId)
    && (forall i, j | 0 <= i < j < |s.envelopes| ::
          s.envelopes[i].params.receiptId != s.envelopes[j].params.receiptId)
  }

  /** Every receipt anywhere is the one its backend issued, for the fixed fee. */
  predicate Authentic(s: State) {
    && (forall id | id in s.issued ::
          s.issued[id].receiptId == id && s.issued[id].amountMicroUsdc == EXECUTION_FEE_MICRO_USDC)
    && (forall id | id in s.recording :: id in s.issued && s.recording[id] == s.issued[id])
    && (forall id | id in s.held :: id in s.issued && s.held[id] == s.issued[id])
    && (forall q | q in s.flights ::
          var r := s.flights[q].receipt; r.receiptId in s.issued && s.issued[r.receiptId] == r)
  }

  /** What has left the building was really minted and packaged. */
  predicate Provenance(h: Handlers, s: State) {
    && |s.origins| == |s.envelopes|
    && (forall i | 0 <= i < |s.origins| ::
          var o := s.origins[i];
          && o.Genuine(h) && s.envelopes[i] == o.Envelope(h)
          && o.receipt.receiptId in s.issued && s.issued[o.receipt.receiptId] == o.receipt)
    && (forall q | q in s.flights && s.flights[q].Minted? ::
          s.flights[q].origin.Genuine(h) && s.flights[q].origin.receipt == s.flights[q].receipt)
  }

  ghost predicate Good(h: Handlers, s: State) {
    Conserved(s) && NoSharing(s) && Authentic(s) && Provenance(h, s)
  }

  // ----- How the places change

  lemma FlightsAfterAdd(s: State, t: State, q: nat, f: Flight)
    requires q !in s.flights && t.flights == s.flights[q := f]
    ensures forall id :: InFlight(t, id) <==> InFlight(s, id) || id == f.receipt.receiptId
  {
    forall id ensures InFlight(t, id) <==> InFlight(s, id) || id == f.receipt.receiptId {
      if InFlight(s, id) {
        var r :| r in s.flights && s.flights[r].receipt.receiptId == id;
        assert r in t.flights && t.flights[r].receipt.receiptId == id;
      }
      assert q in t.flights && t.flights[q] == f;
    }
  }

  lemma FlightsAfterRemove(s: State, t: State, q: nat)
    requires NoSharing(s) && q in s.flights && t.flights == s.flights - {q}
    ensures forall id :: InFlight(t, id) <==> InFlight(s, id) && id != s.flights[q].receipt.receiptId
  {
    forall id ensures InFlight(t, id) <==> InFlight(s, id) && id != s.flights[q].receipt.receiptId {
      if InFlight(s, id) && id != s.flights[q].receipt.receiptId {
        var r :| r in s.flights && s.flights[r].receipt.receiptId == id;
        assert r in t.flights;
      }
      if InFlight(t, id) {
        var r :| r in t.flights && t.flights[r].receipt.receiptId == id;
        assert r in s.flights && r != q;
      }
    }
  }

  lemma FlightsAfterReplace(s: State, t: State, q: nat, f: Flight)
    requires q in s.flights && t.flights == s.flights[q := f] && f.receipt == s.flights[q].receipt
    ensures forall id :: InFlight(t, id) <==> InFlight(s, id)
  {
    forall id ensures InFlight(t, id) <==> InFlight(s, id) {
      if InFlight(s, id) {
        var r :| r in s.flights && s.flights[r].receipt.receiptId == id;
        assert r in t.flights && t.flights[r].receipt.receiptId == id;
      }
      if InFlight(t, id) {
        var r :| r in t.flights && t.flights[r].receipt.receiptId == id;
        assert r in s.flights && s.flights[r].receipt.receiptId == id;
      }
    }
  }

  lemma EnvelopesAfterAppend(s: State, t: State, e: Settlement.OneShotEnvelope)
    requires t.envelopes == s.envelopes + [e]
    ensures forall id :: Enveloped(t, id) <==> Enveloped(s, id) || id == e.params.receiptId
  {
    forall id ensures Enveloped(t, id) <==> Enveloped(s, id) || id == e.params.receiptId {
      if Enveloped(s, id) {
        var i :| 0 <= i < |s.envelopes| && s.envelopes[i].params.receiptId == id;
        assert t.envelopes[i] == s.envelopes[i];
      }
      assert t.envelopes[|s.envelopes|] == e;
    }
  }

  // ----- Each transition keeps the state good

  lemma ProduceConserves(s: State, r: PaymentReceipt)
    requires Conserved(s) && r.receiptId !in s.issued
    ensures Conserved(Produce(s, r))
  {
    var t := Produce(s, r);
    forall id ensures Places(t, id) == One(id in t.issued) {
      assert Places(s, id) == One(id in s.issued);
      assert InFlight(t, id) == InFlight(s, id) && Enveloped(t, id) == Enveloped(s, id);
    }
  }

  lemma RecordConserves(s: State, id: string)
    requires Conserved(s) && Authentic(s) && id in s.recording
    ensures Conserved(RecordOne(s, id))
  {
    var t := RecordOne(s, id);
    assert Places(s, id) == 1;
    forall x ensures Places(t, x) == One(x in t.issued) {
      assert Places(s, x) == One(x in s.issued);
      assert InFlight(t, x) == InFlight(s, x) && Enveloped(t, x) == Enveloped(s, x);
    }
  }

  lemma RedeemConserves(s: State, q: nat, id: string, body: Option<AgentIntent>)
    requires Conserved(s) && Authentic(s) && q !in s.flights && id in s.held
    ensures Conserved(Present(s, q, id, s.held[id].intentId, body))
  {
    var t := Present(s, q, id, s.held[id].intentId, body);
    assert Places(s, id) == 1;
    FlightsAfterAdd(s, t, q, Paid(s.held[id], body));
    forall x ensures Places(t, x) == One(x in t.issued) {
      assert Places(s, x) == One(x in s.issued);
      assert Enveloped(t, x) == Enveloped(s, x);
    }
  }

  lemma RedeemKeepsApart(s: State, q: nat, id: string, body: Option<AgentIntent>)
    requires Conserved(s) && Authentic(s) && NoSharing(s) && q !in s.flights && id in s.held
    ensures NoSharing(Present(s, q, id, s.held[id].intentId, body))
  {
    assert Places(s, id) == 1;
    forall r | r in s.flights ensures s.flights[r].receipt.receiptId != id {
      assert InFlight(s, s.flights[r].receipt.receiptId);
    }
  }

  lemma MismatchConserves(s: State, q: nat, id: string, intentId: string, body: Option<AgentIntent>)
    requires Conserved(s) && id in s.held && s.held[id].intentId != intentId
    ensures Conserved(Present(s, q, id, intentId, body))
  {
    var t := Present(s, q, id, intentId, body);
    assert Places(s, id) == 1;
    forall x ensures Places(t, x) == One(x in t.issued) {
      assert Places(s, x) == One(x in s.issued);
      assert InFlight(t, x) == InFlight(s, x) && Enveloped(t, x) == Enveloped(s, x);
    }
  }

  lemma RetireConserves(s: State, q: nat)
    requires Conserved(s) && NoSharing(s) && q in s.flights
    ensures Conserved(Retire(s, q))
  {
    var t, id := Retire(s, q), s.flights[q].receipt.receiptId;
    assert InFlight(s, id) && Places(s, id) == One(id in s.issued);
    FlightsAfterRemove(s, t, q);
    forall x ensures Places(t, x) == One(x in t.issued) {
      assert Places(s, x) == One(x in s.issued);
      assert Enveloped(t, x) == Enveloped(s, x);
    }
  }

  lemma TakeOffConserves(s: State, q: nat, now: I64, entropy: Vault.Entropy, credentialId: string)
    requires Conserved(s) && Waiting(s, q, true)
    ensures Conserved(TakeOff(s, q, now, entropy, credentialId))
  {
    var t := TakeOff(s, q, now, entropy, credentialId);
    FlightsAfterReplace(s, t, q, t.flights[q]);
    forall x ensures Places(t, x) == One(x in t.issued) {
      assert Places(s, x) == One(x in s.issued);
      assert Enveloped(t, x) == Enveloped(s, x);
    }
  }

  lemma DeliverConserves(h: Handlers, s: State, q: nat)
    requires Good(h, s) && Enabled(h, s, Packaged(q))
    ensures Conserved(Deliver(h, s, q))
  {
    var t, o := Deliver(h, s, q), s.flights[q].origin;
    var id := o.receipt.receiptId;
    assert InFlight(s, id) && Places(s, id) == One(id in s.issued);
    FlightsAfterRemove(s, t, q);
    EnvelopesAfterAppend(s, t, o.Envelope(h));
    forall x ensures Places(t, x) == One(x in t.issued) {
      assert Places(s, x) == One(x in s.issued);
    }
  }

  lemma DeliverKeepsApart(h: Handlers, s: State, q: nat)
    requires Good(h, s) && Enabled(h, s, Packaged(q))
    ensures NoSharing(Deliver(h, s, q))
  {
    var o := s.flights[q].origin;
    var id := o.receipt.receiptId;
    assert InFlight(s, id) && Places(s, id) == One(id in s.issued);
    forall i | 0 <= i < |s.envelopes| ensures s.envelopes[i].params.receiptId != id {
      assert Enveloped(s, s.envelopes[i].params.receiptId);
    }
  }

  // ----- Receipts stay authentic and envelopes keep their origin

  lemma ProduceTruthful(h: Handlers, s: State, r: PaymentReceipt)
    requires Authentic(s) && Provenance(h, s)
    requires r.receiptId !in s.issued && r.amountMicroUsdc == EXECUTION_FEE_MICRO_USDC
    ensures Authentic(Produce(s, r)) && Provenance(h, Produce(s, r))
  {
  }

  lemma RecordTruthful(h: Handlers, s: State, id: string)
    requires Authentic(s) && Provenance(h, s) && id in s.recording
    ensures Authentic(RecordOne(s, id)) && Provenance(h, RecordOne(s, id))
  {
  }

  lemma PresentTruthful(h: Handlers, s: State, q: nat, id: string, intentId: string, body: Option<AgentIntent>)
    requires Authentic(s) && Provenance(h, s)
    ensures Authentic(Present(s, q, id, intentId, body)) && Provenance(h, Present(s, q, id, intentId, body))
  {
  }

  lemma RetireTruthful(h: Handlers, s: State, q: nat)
    requires Authentic(s) && Provenance(h, s) && q in s.flights
    ensures Authentic(Retire(s, q)) && Provenance(h, Retire(s, q))
  {
  }

  lemma TakeOffTruthful(h: Handlers, s: State, q: nat, now: I64, entropy: Vault.Entropy, credentialId: string)
    requires Authentic(s) && Provenance(h, s) && Waiting(s, q, true) && MintOf(h, s, q, now, entropy).Some?
    ensures Authentic(TakeOff(s, q, now, entropy, credentialId))
    ensures Provenance(h, TakeOff(s, q, now, entropy, credentialId))
  {
  }

  lemma DeliverTruthful(h: Handlers, s: State, q: nat)
    requires Authentic(s) && Provenance(h, s) && Enabled(h, s, Packaged(q))
    ensures Authentic(Deliver(h, s, q)) && Provenance(h, Deliver(h, s, q))
  {
  }

  // ----- Every step, every run

  lemma PresentKeeps(h: Handlers, s: State, q: nat, id: string, intentId: string, body: Option<AgentIntent>)
    requires Good(h, s) && q !in s.flights
    ensures Good(h, Present(s, q, id, intentId, body))
  {
    if id in s.held {
      if s.held[id].intentId == intentId {
        RedeemConserves(s, q, id, body);
        RedeemKeepsApart(s, q, id, body);
      } else {
        MismatchConserves(s, q, id, intentId, body);
      }
    }
    PresentTruthful(h, s, q, id, intentId, body);
  }

  lemma RetireKeeps(h: Handlers, s: State, q: nat)
    requires Good(h, s) && q in s.flights
    ensures Good(h, Retire(s, q))
  {
    RetireConserves(s, q);
    RetireTruthful(h, s, q);
  }

  lemma TakeOffKeeps(h: Handlers, s: State, q: nat, now: I64, entropy: Vault.Entropy, credentialId: string)
    requires Good(h, s) && Waiting(s, q, true) && MintOf(h, s, q, now, entropy).Some?
    ensures Good(h, TakeOff(s, q, now, entropy, credentialId))
  {
    TakeOffConserves(s, q, now, entropy, credentialId);
    TakeOffTruthful(h, s, q, now, entropy, credentialId);
  }

  lemma MintKeeps(h: Handlers, s: State, q: nat, now: I64, entropy: Vault.Entropy)
    requires Good(h, s) && Enabled(h, s, MintAttempted(q, now, entropy))
    ensures Good(h, Apply(h, s, MintAttempted(q, now, entropy)))
  {
    match MintOf(h, s, q, now, entropy)
    case Some(credential) => TakeOffKeeps(h, s, q, now, entropy, credential.credentialId);
    case None => RetireKeeps(h, s, q);
  }

  lemma SettleKeeps(h: Handlers, s: State, e: Event)
    requires Good(h, s) && Enabled(h, s, e) && (e.SettleProduced? || e.SettleRecorded?)
    ensures Good(h, Apply(h, s, e))
  {
    match e
    case SettleProduced(id, intentId, now) =>
      ProduceConserves(s, FreshReceipt(id, intentId, now));
      ProduceTruthful(h, s, FreshReceipt(id, intentId, now));
    case SettleRecorded(id) =>
      RecordConserves(s, id);
      RecordTruthful(h, s, id);
  }

  lemma StepKeeps(h: Handlers, s: State, e: Event)
    requires Good(h, s) && Enabled(h, s, e)
    ensures Good(h, Apply(h, s, e))
  {
    match e
    case SettleProduced(_, _, _) => SettleKeeps(h, s, e);
    case SettleRecorded(_) => SettleKeeps(h, s, e);
    case Presented(q, id, intentId, body) => PresentKeeps(h, s, q, id, intentId, body);
    case Abandoned(q) => RetireKeeps(h, s, q);
    case BodyMismatch(q) => RetireKeeps(h, s, q);
    case MintAttempted(q, now, entropy) => MintKeeps(h, s, q, now, entropy);
    case Packaged(q) =>
      DeliverConserves(h, s, q);
      DeliverKeepsApart(h, s, q);
      DeliverTruthful(h, s, q);
  }

  /** Conservation and provenance over every interleaved run. */
  lemma {:induction false} EveryRunIsGood(h: Handlers, events: seq<Event>)
    requires Possible(h, events)
    ensures Good(h, After(h, events))
    decreases |events|
  {
    if events == [] {
      assert forall id :: !InFlight(INITIAL, id) && !Enveloped(INITIAL, id);
    } else {
      var n := |events| - 1;
      EveryRunIsGood(h, events[..n]);
      StepKeeps(h, After(h, events[..n]), events[n]);
    }
  }
}
