/**
  What the handlers are worth: each call is a run of the transition system behind
  any history, a presented receipt never pays twice, an accepted call's envelope
  verifies for its minute, and which calls leave no line in the feed.
 */
module ServerLaws {
  import opened Bytes
  import opened Wrappers
  import opened Crypto
  import opened X402
  import opened Intents
  import opened Protocol
  import opened ProtocolLaws
  import opened Server
  import Mesh
  import Vault
  import Settlement

  // ----- A handled call is a run

  lemma OneMore(h: Handlers, run: seq<Event>, e: Event)
    requires Possible(h, run) && Enabled(h, After(h, run), e)
    ensures Possible(h, run + [e]) && After(h, run + [e]) == Apply(h, After(h, run), e)
  {
    assert (run + [e])[..|run|] == run;
  }

  /** The receipt the guard lets through, if any. */
  function Admitted(held: Treasury, request: Request): Option<PaymentReceipt> {
    match request.receiptHeader
    case None => None
    case Some(id) =>
      match Redeemed(held, id, HeaderIntent(request)) case Ok(receipt) => Some(receipt) case Err(_) => None
  }

  function GuardEvents(q: nat, request: Request): seq<Event> {
    match request.receiptHeader
    case None => []
    case Some(id) => [Event.Presented(q, id, HeaderIntent(request), request.body)]
  }

  /** The mint of a body that names its receipt's intent. */
  predicate Mints(h: Handlers, receipt: PaymentReceipt, body: Option<AgentIntent>, now: I64, e: Vault.Entropy) {
    body.Some? && Origin(receipt, body.value, now, e).Genuine(h)
  }

  function ExecuteEvents(h: Handlers, q: nat, receipt: PaymentReceipt, body: Option<AgentIntent>, now: I64,
                         e: Vault.Entropy): seq<Event>
  {
    if body.None? then [Abandoned(q)]
    else if receipt.intentId != body.value.intentId then [BodyMismatch(q)]
    else if !Mints(h, receipt, body, now, e) then [MintAttempted(q, now, e)]
    else [MintAttempted(q, now, e), Packaged(q)]
  }

  /** The steps of one call, nothing in between. */
  function CallEvents(h: Handlers, held: Treasury, q: nat, request: Request, now: I64, e: Vault.Entropy): seq<Event> {
    match Admitted(held, request)
    case None => GuardEvents(q, request)
    case Some(receipt) => GuardEvents(q, request) + ExecuteEvents(h, q, receipt, request.body, now, e)
  }

  /** The envelope the steps deliver, if any. */
  function Delivered(h: Handlers, receipt: PaymentReceipt, body: Option<AgentIntent>, now: I64, e: Vault.Entropy)
    : seq<Settlement.OneShotEnvelope>
  {
    if Mints(h, receipt, body, now, e) then [Origin(receipt, body.value, now, e).Envelope(h)] else []
  }

  lemma GuardIsARun(h: Handlers, history: seq<Event>, q: nat, request: Request)
    requires Possible(h, history) && q !in After(h, history).flights
    ensures Possible(h, history + GuardEvents(q, request))
    ensures var s, t := After(h, history), After(h, history + GuardEvents(q, request));
      && t.held == Unpresented(s.held, request)
      && t.envelopes == s.envelopes && t.credentials == s.credentials
      && t.flights == match Admitted(s.held, request)
                      case None => s.flights
                      case Some(receipt) => s.flights[q := Paid(receipt, request.body)]
  {
    match request.receiptHeader
    case None => assert history + [] == history;
    case Some(id) =>
      var s := After(h, history);
      OneMore(h, history, Event.Presented(q, id, HeaderIntent(request), request.body));
      if id !in s.held {
        assert Burn(s.held, id) == s.held;
      }
  }

  /** Request `q` is over: it left these envelopes, and nothing else of it remains. */
  predicate Ends(s: State, t: State, q: nat, envelopes: seq<Settlement.OneShotEnvelope>) {
    t.held == s.held && t.flights == s.flights - {q} && t.envelopes == s.envelopes + envelopes
  }

  lemma RefusalIsARun(h: Handlers, history: seq<Event>, q: nat, e: Event)
    requires Possible(h, history) && Enabled(h, After(h, history), e)
    requires e == Abandoned(q) || e == BodyMismatch(q)
          || (e.MintAttempted? && e.request == q && MintOf(h, After(h, history), q, e.now, e.entropy).None?)
    ensures Possible(h, history + [e]) && Ends(After(h, history), After(h, history + [e]), q, [])
  {
    OneMore(h, history, e);
  }

  /** Whatever its body, a paid request can be given up before its mint: its receipt is spent, without an envelope. */
  lemma GivingUpIsARun(h: Handlers, history: seq<Event>, q: nat)
    requires Possible(h, history) && q in After(h, history).flights && After(h, history).flights[q].Paid?
    ensures Possible(h, history + [Abandoned(q)])
    ensures var s, t := After(h, history), After(h, history + [Abandoned(q)]);
      Ends(s, t, q, []) && t.spent == s.spent + {s.flights[q].receipt.receiptId}
  {
    OneMore(h, history, Abandoned(q));
  }

  lemma DeliveryIsARun(h: Handlers, history: seq<Event>, q: nat, now: I64, entropy: Vault.Entropy, o: Origin)
    requires Possible(h, history) && Enabled(h, After(h, history), MintAttempted(q, now, entropy))
    requires var f := After(h, history).flights[q]; o == Origin(f.receipt, f.body.value, now, entropy) && o.Genuine(h)
    ensures var run := history + [MintAttempted(q, now, entropy), Packaged(q)];
      Possible(h, run) && Ends(After(h, history), After(h, run), q, [o.Envelope(h)])
  {
    var minted := history + [MintAttempted(q, now, entropy)];
    OneMore(h, history, MintAttempted(q, now, entropy));
    OneMore(h, minted, Packaged(q));
    assert minted + [Packaged(q)] == history + [MintAttempted(q, now, entropy), Packaged(q)];
    var s := After(h, history);
    assert s.flights[q := After(h, minted).flights[q]] - {q} == s.flights - {q};
  }

  /** If the mint accepts, its credential id is new. */
  predicate FreshMint(h: Handlers, s: State, receipt: PaymentReceipt, body: Option<AgentIntent>, now: I64,
                      e: Vault.Entropy) {
    Mints(h, receipt, body, now, e) ==> Origin(receipt, body.value, now, e).Credential(h).credentialId !in s.credentials
  }

  predicate FreshCall(h: Handlers, s: State, request: Request, now: I64, e: Vault.Entropy) {
    match Admitted(s.held, request)
    case None => true
    case Some(receipt) => FreshMint(h, s, receipt, request.body, now, e)
  }

  lemma ExecuteIsARun(h: Handlers, history: seq<Event>, q: nat, receipt: PaymentReceipt,
                      body: Option<AgentIntent>, now: I64, e: Vault.Entropy)
    requires Possible(h, history)
    requires q in After(h, history).flights && After(h, history).flights[q] == Paid(receipt, body)
    requires FreshMint(h, After(h, history), receipt, body, now, e)
    ensures var run := history + ExecuteEvents(h, q, receipt, body, now, e);
      Possible(h, run) && Ends(After(h, history), After(h, run), q, Delivered(h, receipt, body, now, e))
  {
    if body.None? {
      RefusalIsARun(h, history, q, Abandoned(q));
    } else if receipt.intentId != body.value.intentId {
      RefusalIsARun(h, history, q, BodyMismatch(q));
    } else if !Mints(h, receipt, body, now, e) {
      RefusalIsARun(h, history, q, MintAttempted(q, now, e));
    } else {
      DeliveryIsARun(h, history, q, now, e, Origin(receipt, body.value, now, e));
    }
  }

  /** What the guard's own receipt, if it admits one, goes on to deliver. */
  function DeliveredFor(h: Handlers, held: Treasury, request: Request, now: I64, e: Vault.Entropy)
    : seq<Settlement.OneShotEnvelope>
  {
    match Admitted(held, request) case None => [] case Some(receipt) => Delivered(h, receipt, request.body, now, e)
  }

  /** The state a call handled alone leaves behind state `s`. */
  predicate Handled(s: State, t: State, request: Request, envelopes: seq<Settlement.OneShotEnvelope>) {
    && t.held == Unpresented(s.held, request)
    && t.flights == s.flights
    && t.envelopes == s.envelopes + envelopes
  }

  /** Let in and out again: only the treasury and the envelopes changed. */
  lemma InAndOut(s: State, t: State, u: State, q: nat, f: Flight, request: Request,
                 envelopes: seq<Settlement.OneShotEnvelope>)
    requires q !in s.flights && t.flights == s.flights[q := f]
    requires t.held == Unpresented(s.held, request) && t.envelopes == s.envelopes && Ends(t, u, q, envelopes)
    ensures Handled(s, u, request, envelopes)
  {
    assert s.flights[q := f] - {q} == s.flights;
  }

  lemma InThree(history: seq<Event>, a: seq<Event>, b: seq<Event>)
    ensures history + (a + b) == (history + a) + b
  {
  }

  lemma AdmittedIsARun(h: Handlers, history: seq<Event>, q: nat, request: Request, now: I64, e: Vault.Entropy,
                       receipt: PaymentReceipt, run: seq<Event>)
    requires Possible(h, history) && q !in After(h, history).flights
    requires Admitted(After(h, history).held, request) == Some(receipt)
    requires FreshMint(h, After(h, history), receipt, request.body, now, e)
    requires run == history + (GuardEvents(q, request) + ExecuteEvents(h, q, receipt, request.body, now, e))
    ensures Possible(h, run)
    ensures Handled(After(h, history), After(h, run), request, Delivered(h, receipt, request.body, now, e))
  {
    var guarded := history + GuardEvents(q, request);
    InThree(history, GuardEvents(q, request), ExecuteEvents(h, q, receipt, request.body, now, e));
    GuardIsARun(h, history, q, request);
    ExecuteIsARun(h, guarded, q, receipt, request.body, now, e);
    InAndOut(After(h, history), After(h, guarded), After(h, run), q, Paid(receipt, request.body), request,
             Delivered(h, receipt, request.body, now, e));
  }

  /** For any vault: behind any history, one call handled without interruption is a run. */
  lemma StepsAreARun(h: Handlers, history: seq<Event>, q: nat, request: Request, now: I64, e: Vault.Entropy)
    requires Possible(h, history) && q !in After(h, history).flights
    requires FreshCall(h, After(h, history), request, now, e)
    ensures var s := After(h, history);
      var run := history + CallEvents(h, s.held, q, request, now, e);
      Possible(h, run) && Handled(s, After(h, run), request, DeliveredFor(h, s.held, request, now, e))
  {
    var s := After(h, history);
    match Admitted(s.held, request)
    case None => GuardIsARun(h, history, q, request);
    case Some(receipt) =>
      AdmittedIsARun(h, history, q, request, now, e, receipt, history + CallEvents(h, s.held, q, request, now, e));
  }

  function Envelopes(reply: Reply): seq<Settlement.OneShotEnvelope> {
    match reply case Accepted(envelope) => [envelope] case _ => []
  }

  lemma AnswerIsDelivered(p: Prose, c: Scheme, held: Treasury, request: Request, now: I64, e: Vault.Entropy)
    ensures Envelopes(Handling(p, c, held, request, now, e).0) == DeliveredFor(VaultHandlers(c), held, request, now, e)
  {
  }

  /**
    Behind any history, with any other requests in flight, one call handled
    without interruption is a run: same treasury, and the envelope it answers
    with is the envelope the run delivers.
   */
  lemma CallIsARun(p: Prose, c: Scheme, history: seq<Event>, q: nat, request: Request, now: I64, e: Vault.Entropy)
    requires Possible(VaultHandlers(c), history)
    requires q !in After(VaultHandlers(c), history).flights
    requires e.credentialId !in After(VaultHandlers(c), history).credentials
    ensures var h := VaultHandlers(c);
      var s := After(h, history);
      var run := history + CallEvents(h, s.held, q, request, now, e);
      && Possible(h, run)
      && Handled(s, After(h, run), request, Envelopes(Handling(p, c, s.held, request, now, e).0))
  {
    var h := VaultHandlers(c);
    var s := After(h, history);
    if Admitted(s.held, request).Some? {
      var receipt := Admitted(s.held, request).value;
      if Mints(h, receipt, request.body, now, e) {
        Vault.MintNamesItsEntropy(c, Payload(request.body.value), receipt, now, e);
      }
    }
    StepsAreARun(h, history, q, request, now, e);
    AnswerIsDelivered(p, c, s.held, request, now, e);
  }

  lemma ProducedThenRecorded(s: State, receipt: PaymentReceipt)
    requires receipt.receiptId !in s.recording
    ensures receipt.receiptId in Produce(s, receipt).recording
    ensures var t := RecordOne(Produce(s, receipt), receipt.receiptId);
      t.held == Record(s.held, receipt, receipt.clearedAt) && t.recording.Keys == s.recording.Keys
  {
  }

  /** A settlement handled without interruption is a run too. */
  lemma SettlementIsARun(h: Handlers, history: seq<Event>, receiptId: string, intentId: string, now: I64)
    requires Possible(h, history) && receiptId !in After(h, history).issued
    ensures var run := history + [SettleProduced(receiptId, intentId, now), SettleRecorded(receiptId)];
      && Possible(h, run)
      && After(h, run).held == Record(After(h, history).held, FreshReceipt(receiptId, intentId, now), now)
      && After(h, run).recording.Keys == After(h, history).recording.Keys
  {
    var produced := history + [SettleProduced(receiptId, intentId, now)];
    EveryRunIsGood(h, history);
    OneMore(h, history, SettleProduced(receiptId, intentId, now));
    ProducedThenRecorded(After(h, history), FreshReceipt(receiptId, intentId, now));
    OneMore(h, produced, SettleRecorded(receiptId));
    assert produced + [SettleRecorded(receiptId)]
        == history + [SettleProduced(receiptId, intentId, now), SettleRecorded(receiptId)];
  }

  // ----- One presentation, ever

  /**
    Whatever the first presentation of a receipt led to, and whatever the gate
    did in between short of issuing that id again, every later one is refused.
   */
  lemma SecondPresentationIsRefused(p: Prose, c: Scheme, held: Treasury, first: Request, calls: seq<GateCall>,
                                    second: Request, now: I64, e: Vault.Entropy)
    requires first.receiptHeader.Some? && second.receiptHeader == first.receiptHeader
    requires NeverSettles(calls, first.receiptHeader.value)
    ensures var later := GateRun(Unpresented(held, first), calls);
      Handling(p, c, later, second, now, e).0 == PaymentRequired(HeaderIntent(second))
      && Unpresented(later, second) == later
  {
    var id := first.receiptHeader.value;
    NeverBack(Unpresented(held, first), calls, id);
  }

  // ----- What each call is told, and what the feed is told of it

  /** The guard's five cases, by the headers and the receipt found: answer and post, with the words' arguments. */
  lemma GuardCases(p: Prose, held: Treasury, header: string, id: string, body: Option<AgentIntent>)
    ensures Guard(p, held, Request(Some(header), None, body))
         == (Err(PaymentRequired(header)), [Mesh.Post("gate/x402", Mesh.Restriction, p.restriction)])
    ensures Guard(p, held, Request(None, Some(id), body)) == Guard(p, held, Request(Some(""), Some(id), body))
    ensures Guard(p, held, Request(None, None, body)) == Guard(p, held, Request(Some(""), None, body))
    ensures id !in held ==>
      Guard(p, held, Request(Some(header), Some(id), body))
      == (Err(PaymentRequired(header)), [Mesh.Post("gate/x402", Mesh.Restriction, p.refused(id, UnknownReceipt))])
    ensures id in held && held[id].intentId != header ==>
      Guard(p, held, Request(Some(header), Some(id), body))
      == (Err(PaymentRequired(header)), [Mesh.Post("gate/x402", Mesh.Restriction, p.refused(id, IntentMismatch))])
    ensures id in held && held[id].intentId == header ==>
      Guard(p, held, Request(Some(header), Some(id), body)) == (Ok(held[id]), [])
  {
  }

  /** The cases behind the guard: a refused mint passes its own error on, an accepted one posts two lines in order. */
  lemma HandlingCases(p: Prose, c: Scheme, held: Treasury, id: string, header: string, intent: AgentIntent, now: I64,
                      e: Vault.Entropy)
    requires id in held && held[id].intentId == header
    ensures Handling(p, c, held, Request(Some(header), Some(id), None), now, e) == (BodyRejected, [])
    ensures var minted := Vault.Mint(c, Payload(intent), held[id], now, e);
      Handling(p, c, held, Request(Some(header), Some(id), Some(intent)), now, e)
      == if intent.intentId != header then (WrongIntent, [])
         else if minted.Err? then
           (MintRefused(minted.error), [Mesh.Post("vault/handshake", Mesh.Info, p.mintRefused(minted.error))])
         else
           var envelope := Settlement.Package(Payload(intent), minted.value, held[id]);
           (Accepted(envelope), [Mesh.Post("vault/handshake", Mesh.Credential, p.minted),
                                 Mesh.Post("relay/1shot", Mesh.Settlement, p.staged(envelope, minted.value))])
  {
    GuardCases(p, held, header, id, None);
    GuardCases(p, held, header, id, Some(intent));
  }

  /** What the guard refuses is refused whatever the body. */
  lemma RefusalsPassThrough(p: Prose, c: Scheme, held: Treasury, request: Request, now: I64, e: Vault.Entropy)
    requires Guard(p, held, request).0.Err?
    ensures Handling(p, c, held, request, now, e) == (PaymentRequired(HeaderIntent(request)), Guard(p, held, request).1)
  {
  }

  // ----- What an accepted call is

  /**
    A call is accepted exactly when its receipt is held, header and body both
    name the receipt's intent, and the mint agrees; the envelope then carries
    that intent, that receipt and the fee settled for it, and verifies for exactly a minute.
   */
  lemma AcceptedExactly(p: Prose, c: Scheme, held: Treasury, request: Request, now: I64, e: Vault.Entropy, u: I64)
    ensures Handling(p, c, held, request, now, e).0.Accepted?
       <==> (&& Admitted(held, request).Some? && request.body.Some?
             && Admitted(held, request).value.intentId == request.body.value.intentId
             && Vault.Mint(c, Payload(request.body.value), Admitted(held, request).value, now, e).Ok?)
    ensures Handling(p, c, held, request, now, e).0.Accepted? ==>
      var params := Handling(p, c, held, request, now, e).0.envelope.params;
      && request.receiptHeader.Some? && request.receiptHeader.value in held
      && held[request.receiptHeader.value].intentId == HeaderIntent(request) == request.body.value.intentId
      && params.intent == Payload(request.body.value)
      && params.receiptId == held[request.receiptHeader.value].receiptId
      && params.feeMicroUsdc == held[request.receiptHeader.value].amountMicroUsdc
      && Handling(p, c, held, request, now, e).0.envelope.idempotencyKey == e.credentialId
      && (Settlement.Verify(c, params, u).Ok? <==> now <= u < now + Vault.CREDENTIAL_TTL_SECS < TWO_TO_THE_63)
  {
    if Handling(p, c, held, request, now, e).0.Accepted? {
      Settlement.PackagedWindow(c, Payload(request.body.value), Admitted(held, request).value, now, e, u);
    }
  }

  // ----- What the feed does not show

  /**
    A call leaves no line in the feed exactly when its receipt is good for the
    header's intent but the body does not parse or names another intent. The
    paid receipt is gone then, and nothing was minted.
   */
  lemma SilentExactly(p: Prose, c: Scheme, held: Treasury, request: Request, now: I64, e: Vault.Entropy)
    ensures Handling(p, c, held, request, now, e).1 == []
       <==> (Admitted(held, request).Some?
             && (request.body.None? || request.body.value.intentId != HeaderIntent(request)))
    ensures Handling(p, c, held, request, now, e).1 == [] ==>
      && request.receiptHeader.value in held && request.receiptHeader.value !in Unpresented(held, request)
      && Handling(p, c, held, request, now, e).0 == (if request.body.None? then BodyRejected else WrongIntent)
  {
  }
}
