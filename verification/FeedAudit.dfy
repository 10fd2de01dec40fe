/**
  Which feed lines the steps of a run cause, and what their numbers say about
  receipts, credentials and envelopes. A line is caused by its step and posted
  later, under another lock: `FeedRuns` adds the posts.
 */
module FeedAudit {
  import opened Bytes
  import opened Wrappers
  import opened Crypto
  import opened X402
  import opened Intents
  import opened Protocol
  import opened ProtocolLaws
  import opened Server
  import opened ServerLaws
  import Mesh
  import Vault

  /** A feed line by its sender and its kind. */
  datatype Line = Line(sender: string, kind: Mesh.EventKind)

  const PAID: Line := Line(GATE_HANDLE, Mesh.Payment)
  const REFUSED: Line := Line(GATE_HANDLE, Mesh.Restriction)
  const MINTED: Line := Line(VAULT_HANDLE, Mesh.Credential)
  const UNMINTED: Line := Line(VAULT_HANDLE, Mesh.Info)
  const STAGED: Line := Line(RELAY_HANDLE, Mesh.Settlement)

  /** The line a step causes, if any. */
  function LineOf(h: Handlers, s: State, e: Event): Option<Line>
    requires Enabled(h, s, e)
  {
    match e
    case SettleProduced(_, _, _) => None
    case SettleRecorded(_) => Some(PAID)
    case Presented(_, id, intentId, _) => if Redeemed(s.held, id, intentId).Ok? then None else Some(REFUSED)
    case Abandoned(_) => None
    case BodyMismatch(_) => None
    case MintAttempted(q, now, entropy) =>
      if MintOf(h, s, q, now, entropy).Some? then Some(MINTED) else Some(UNMINTED)
    case Packaged(_) => Some(STAGED)
  }

  /** A paid request ends without a line. */
  predicate Silent(e: Event) {
    e.Abandoned? || e.BodyMismatch?
  }

  /** How often a run causes a line. */
  function Count(h: Handlers, events: seq<Event>, line: Line): nat
    requires Possible(h, events)
    decreases |events|
  {
    if events == [] then 0
    else
      var n := |events| - 1;
      Count(h, events[..n], line) + One(LineOf(h, After(h, events[..n]), events[n]) == Some(line))
  }

  function SilentEnds(events: seq<Event>): nat {
    if events == [] then 0 else SilentEnds(events[..|events| - 1]) + One(Silent(events[|events| - 1]))
  }

  /** Requests holding a minted credential that is not packaged yet. */
  function Holding(s: State): set<nat> {
    set q | q in s.flights && s.flights[q].Minted?
  }

  // ----- One step

  lemma ProduceCounts(s: State, r: PaymentReceipt)
    requires Conserved(s) && r.receiptId !in s.issued
    ensures var t := Produce(s, r); |t.issued| == |s.issued| + 1 && |t.recording| == |s.recording| + 1
  {
    assert Places(s, r.receiptId) == One(r.receiptId in s.issued);
    assert r.receiptId !in s.recording;
  }

  lemma RecordCounts(s: State, id: string)
    requires id in s.recording
    ensures RecordOne(s, id).issued == s.issued && |RecordOne(s, id).recording| == |s.recording| - 1
  {
    var t := RecordOne(s, id);
    assert t.recording.Keys == s.recording.Keys - {id};
    assert |t.recording.Keys| == |s.recording.Keys| - 1;
  }

  lemma OtherCounts(h: Handlers, s: State, e: Event)
    requires Enabled(h, s, e) && !e.SettleProduced? && !e.SettleRecorded?
    ensures Apply(h, s, e).issued == s.issued && Apply(h, s, e).recording == s.recording
    ensures LineOf(h, s, e) != Some(PAID)
  {
  }

  /** Receipts under the lock, or past it. */
  function Recorded(s: State): int {
    |s.issued| - |s.recording|
  }

  lemma StepPayments(h: Handlers, s: State, e: Event)
    requires Good(h, s) && Enabled(h, s, e)
    ensures Recorded(Apply(h, s, e)) == Recorded(s) + One(LineOf(h, s, e) == Some(PAID))
  {
    match e
    case SettleProduced(id, intentId, now) => ProduceCounts(s, FreshReceipt(id, intentId, now));
    case SettleRecorded(id) => RecordCounts(s, id);
    case Presented(_, _, _, _) => OtherCounts(h, s, e);
    case Abandoned(_) => OtherCounts(h, s, e);
    case BodyMismatch(_) => OtherCounts(h, s, e);
    case MintAttempted(_, _, _) => OtherCounts(h, s, e);
    case Packaged(_) => OtherCounts(h, s, e);
  }

  lemma PresentHolding(s: State, q: nat, id: string, intentId: string, body: Option<AgentIntent>)
    requires q !in s.flights
    ensures Holding(Present(s, q, id, intentId, body)) == Holding(s)
  {
  }

  lemma RetireHolding(s: State, q: nat)
    requires q in s.flights && s.flights[q].Paid?
    ensures Holding(Retire(s, q)) == Holding(s)
  {
  }

  lemma TakeOffHolding(s: State, q: nat, now: I64, entropy: Vault.Entropy, credentialId: string)
    requires Waiting(s, q, true)
    ensures |Holding(TakeOff(s, q, now, entropy, credentialId))| == |Holding(s)| + 1
  {
    assert Holding(TakeOff(s, q, now, entropy, credentialId)) == Holding(s) + {q} && q !in Holding(s);
  }

  lemma DeliverHolding(h: Handlers, s: State, q: nat)
    requires Enabled(h, s, Packaged(q))
    ensures |Holding(Deliver(h, s, q))| == |Holding(s)| - 1
  {
    assert Holding(Deliver(h, s, q)) == Holding(s) - {q} && q in Holding(s);
  }

  lemma StepHolding(h: Handlers, s: State, e: Event)
    requires Enabled(h, s, e)
    ensures var t := Apply(h, s, e);
      && |t.envelopes| == |s.envelopes| + One(LineOf(h, s, e) == Some(STAGED))
      && |Holding(t)| + |t.envelopes| == |Holding(s)| + |s.envelopes| + One(LineOf(h, s, e) == Some(MINTED))
  {
    match e
    case SettleProduced(_, _, _) => assert Holding(Apply(h, s, e)) == Holding(s);
    case SettleRecorded(_) => assert Holding(Apply(h, s, e)) == Holding(s);
    case Presented(q, id, intentId, body) => PresentHolding(s, q, id, intentId, body);
    case Abandoned(q) => RetireHolding(s, q);
    case BodyMismatch(q) => RetireHolding(s, q);
    case MintAttempted(q, now, entropy) =>
      if MintOf(h, s, q, now, entropy).Some? {
        TakeOffHolding(s, q, now, entropy, MintOf(h, s, q, now, entropy).value.credentialId);
      } else {
        RetireHolding(s, q);
      }
    case Packaged(q) => DeliverHolding(h, s, q);
  }

  lemma RetireSpends(s: State, q: nat)
    requires Conserved(s) && q in s.flights
    ensures |Retire(s, q).spent| == |s.spent| + 1
  {
    var id := FlightId(s, q);
    assert InFlight(s, id) && Places(s, id) == One(id in s.issued);
    assert id !in s.spent;
  }

  lemma StepSpent(h: Handlers, s: State, e: Event)
    requires Good(h, s) && Enabled(h, s, e)
    ensures |Apply(h, s, e).spent| == |s.spent| + One(LineOf(h, s, e) == Some(UNMINTED)) + One(Silent(e))
  {
    match e
    case Abandoned(q) => RetireSpends(s, q);
    case BodyMismatch(q) => RetireSpends(s, q);
    case MintAttempted(q, now, entropy) =>
      if MintOf(h, s, q, now, entropy).None? {
        RetireSpends(s, q);
      }
    case _ =>
  }

  // ----- Every run

  lemma {:induction false} CausedLinesCount(h: Handlers, events: seq<Event>)
    requires Possible(h, events)
    ensures var s := After(h, events);
      && Count(h, events, PAID) == Recorded(s)
      && Count(h, events, STAGED) == |s.envelopes|
      && Count(h, events, MINTED) == |Holding(s)| + |s.envelopes|
      && Count(h, events, UNMINTED) + SilentEnds(events) == |s.spent|
    decreases |events|
  {
    if events == [] {
      assert Holding(INITIAL) == {};
    } else {
      var n := |events| - 1;
      var s := After(h, events[..n]);
      CausedLinesCount(h, events[..n]);
      EveryRunIsGood(h, events[..n]);
      StepPayments(h, s, events[n]);
      StepHolding(h, s, events[n]);
      StepSpent(h, s, events[n]);
    }
  }

  // ----- The lines are the handlers' posts

  function Lines(posts: seq<Mesh.Post>): seq<Line> {
    seq(|posts|, i requires 0 <= i < |posts| => Line(posts[i].sender, posts[i].kind))
  }

  function Occurrences(lines: seq<Line>, line: Line): nat {
    if lines == [] then 0 else Occurrences(lines[..|lines| - 1], line) + One(lines[|lines| - 1] == line)
  }

  lemma OneOccurrence(a: Line, line: Line)
    ensures Occurrences([a], line) == One(a == line)
  {
    assert [a][..0] == [];
  }

  lemma TwoOccurrences(a: Line, b: Line, line: Line)
    ensures Occurrences([a, b], line) == One(a == line) + One(b == line)
  {
    OneOccurrence(a, line);
    assert [a, b][..1] == [a];
  }

  /** The lines of a call behind the guard. */
  function PaidLines(h: Handlers, receipt: PaymentReceipt, body: Option<AgentIntent>, now: I64, e: Vault.Entropy)
    : seq<Line>
  {
    if body.None? || receipt.intentId != body.value.intentId then []
    else if !Mints(h, receipt, body, now, e) then [UNMINTED]
    else [MINTED, STAGED]
  }

  function CallLines(h: Handlers, held: Treasury, request: Request, now: I64, e: Vault.Entropy): seq<Line> {
    match Admitted(held, request)
    case None => [REFUSED]
    case Some(receipt) => PaidLines(h, receipt, request.body, now, e)
  }

  /** What a call posts, by sender and kind. */
  lemma PostsByLine(p: Prose, c: Scheme, held: Treasury, request: Request, now: I64, e: Vault.Entropy)
    ensures Lines(Handling(p, c, held, request, now, e).1) == CallLines(VaultHandlers(c), held, request, now, e)
  {
  }

  lemma CountOneMore(h: Handlers, run: seq<Event>, e: Event, line: Line)
    requires Possible(h, run) && Enabled(h, After(h, run), e)
    ensures Possible(h, run + [e])
    ensures Count(h, run + [e], line) == Count(h, run, line) + One(LineOf(h, After(h, run), e) == Some(line))
  {
    OneMore(h, run, e);
    assert (run + [e])[..|run|] == run;
  }

  lemma CountPaid(h: Handlers, history: seq<Event>, q: nat, receipt: PaymentReceipt, body: Option<AgentIntent>,
                  now: I64, e: Vault.Entropy, line: Line)
    requires Possible(h, history)
    requires q in After(h, history).flights && After(h, history).flights[q] == Paid(receipt, body)
    requires FreshMint(h, After(h, history), receipt, body, now, e)
    ensures var run := history + ExecuteEvents(h, q, receipt, body, now, e);
      && Possible(h, run)
      && Count(h, run, line) == Count(h, history, line) + Occurrences(PaidLines(h, receipt, body, now, e), line)
  {
    if body.None? {
      CountOneMore(h, history, Abandoned(q), line);
    } else if receipt.intentId != body.value.intentId {
      CountOneMore(h, history, BodyMismatch(q), line);
    } else {
      var mint := MintAttempted(q, now, e);
      CountOneMore(h, history, mint, line);
      OneOccurrence(UNMINTED, line);
      TwoOccurrences(MINTED, STAGED, line);
      if Mints(h, receipt, body, now, e) {
        OneMore(h, history, mint);
        CountOneMore(h, history + [mint], Packaged(q), line);
        assert history + [mint] + [Packaged(q)] == history + [mint, Packaged(q)];
      }
    }
  }

  lemma CountAdmitted(h: Handlers, history: seq<Event>, q: nat, request: Request, now: I64, e: Vault.Entropy,
                      line: Line, receipt: PaymentReceipt, run: seq<Event>)
    requires Possible(h, history) && q !in After(h, history).flights
    requires Admitted(After(h, history).held, request) == Some(receipt)
    requires FreshMint(h, After(h, history), receipt, request.body, now, e)
    requires run == history + (GuardEvents(q, request) + ExecuteEvents(h, q, receipt, request.body, now, e))
    ensures Possible(h, run)
    ensures Count(h, run, line)
         == Count(h, history, line) + Occurrences(PaidLines(h, receipt, request.body, now, e), line)
  {
    var id := request.receiptHeader.value;
    var present := Event.Presented(q, id, HeaderIntent(request), request.body);
    var guarded := history + [present];
    CountOneMore(h, history, present, line);
    OneMore(h, history, present);
    CountPaid(h, guarded, q, receipt, request.body, now, e, line);
    assert run == guarded + ExecuteEvents(h, q, receipt, request.body, now, e);
  }

  lemma CountRefused(h: Handlers, history: seq<Event>, q: nat, request: Request, line: Line, run: seq<Event>)
    requires Possible(h, history) && q !in After(h, history).flights && request.receiptHeader.Some?
    requires Admitted(After(h, history).held, request).None? && run == history + GuardEvents(q, request)
    ensures Possible(h, run)
    ensures Count(h, run, line) == Count(h, history, line) + Occurrences([REFUSED], line)
  {
    OneOccurrence(REFUSED, line);
    var present := Event.Presented(q, request.receiptHeader.value, HeaderIntent(request), request.body);
    CountOneMore(h, history, present, line);
  }

  /** A call with a receipt causes exactly its own posts, beside the lines of whatever ran before. */
  lemma CallCausesItsPosts(h: Handlers, history: seq<Event>, q: nat, request: Request, now: I64, e: Vault.Entropy,
                         line: Line)
    requires Possible(h, history) && q !in After(h, history).flights && request.receiptHeader.Some?
    requires FreshCall(h, After(h, history), request, now, e)
    ensures var s := After(h, history);
      var run := history + CallEvents(h, s.held, q, request, now, e);
      && Possible(h, run)
      && Count(h, run, line) == Count(h, history, line) + Occurrences(CallLines(h, s.held, request, now, e), line)
  {
    var held := After(h, history).held;
    var run := history + CallEvents(h, held, q, request, now, e);
    if Admitted(held, request).Some? {
      CountAdmitted(h, history, q, request, now, e, line, Admitted(held, request).value, run);
    } else {
      CountRefused(h, history, q, request, line, run);
    }
  }

  /** So does a settlement: the one payment line that its handler posts for the receipt. */
  lemma SettlementCausesItsPost(h: Handlers, history: seq<Event>, p: Prose, receipt: PaymentReceipt, line: Line)
    requires Possible(h, history) && receipt.receiptId !in After(h, history).issued
    requires receipt.amountMicroUsdc == 500_000
    ensures var id := receipt.receiptId;
      var run := history + [SettleProduced(id, receipt.intentId, receipt.clearedAt), SettleRecorded(id)];
      var post := Mesh.Post("gate/x402", Mesh.Payment, p.settled(receipt));
      && Possible(h, run)
      && Count(h, run, line) == Count(h, history, line) + Occurrences(Lines([post]), line)
  {
    var id := receipt.receiptId;
    var produce, record := SettleProduced(id, receipt.intentId, receipt.clearedAt), SettleRecorded(id);
    SettlementIsARun(h, history, id, receipt.intentId, receipt.clearedAt);
    OneMore(h, history, produce);
    CountOneMore(h, history, produce, line);
    CountOneMore(h, history + [produce], record, line);
    assert history + [produce] + [record] == history + [produce, record];
    assert Lines([Mesh.Post("gate/x402", Mesh.Payment, p.settled(receipt))]) == [PAID];
    OneOccurrence(PAID, line);
  }
}
