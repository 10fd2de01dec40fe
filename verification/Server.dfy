/**
  The HTTP handlers over the shared gate and feed. Each method takes the source's
  steps with its early returns; what it does to the treasury, the feed and the
  caller is a function of the treasury it found. A request handled without
  interruption is a run of the transition system, so its laws hold for the server.
 */
module Server {
  import opened Bytes
  import opened Wrappers
  import opened Crypto
  import opened X402
  import opened Intents
  import opened Protocol
  import Mesh
  import Vault
  import Settlement

  const GATE_HANDLE: string := "gate/x402"
  const VAULT_HANDLE: string := "vault/handshake"
  const RELAY_HANDLE: string := "relay/1shot"

  /** What each feed line says. */
  datatype Prose = Prose(
    restriction: string,
    refused: (string, X402Error) -> string,
    settled: PaymentReceipt -> string,
    settleFailed: (string, SettlementError) -> string,
    mintRefused: Vault.VaultError -> string,
    minted: string,
    staged: (Settlement.OneShotEnvelope, Vault.EphemeralCredential) -> string)

  /** A call of `/execute`: its two headers, and its body if it parses. */
  datatype Request = Request(intentHeader: Option<string>, receiptHeader: Option<string>, body: Option<AgentIntent>)

  datatype Reply =
    | PaymentRequired(intentId: string)
    | BodyRejected
    | WrongIntent
    | MintRefused(error: Vault.VaultError)
    | Accepted(envelope: Settlement.OneShotEnvelope)

  // ----- What the handlers do

  /** An absent header reads as the empty string. */
  function HeaderIntent(request: Request): string {
    match request.intentHeader case Some(id) => id case None => ""
  }

  /** What the guard decides and posts, given the treasury it finds. */
  function Guard(p: Prose, held: Treasury, request: Request): (Result<PaymentReceipt, Reply>, seq<Mesh.Post>) {
    match request.receiptHeader
    case None =>
      (Err(PaymentRequired(HeaderIntent(request))), [Mesh.Post(GATE_HANDLE, Mesh.Restriction, p.restriction)])
    case Some(id) =>
      match Redeemed(held, id, HeaderIntent(request))
      case Ok(receipt) => (Ok(receipt), [])
      case Err(e) =>
        (Err(PaymentRequired(HeaderIntent(request))), [Mesh.Post(GATE_HANDLE, Mesh.Restriction, p.refused(id, e))])
  }

  /** What the guard leaves of the treasury: whatever it finds is gone. */
  function Unpresented(held: Treasury, request: Request): Treasury {
    match request.receiptHeader case None => held case Some(id) => Burn(held, id)
  }

  /** What `execute` answers and posts. */
  function Execution(p: Prose, c: Scheme, receipt: PaymentReceipt, intent: AgentIntent, now: I64, e: Vault.Entropy)
    : (Reply, seq<Mesh.Post>)
  {
    if receipt.intentId != intent.intentId then (WrongIntent, [])
    else
      match Vault.Mint(c, Payload(intent), receipt, now, e)
      case Err(error) => (MintRefused(error), [Mesh.Post(VAULT_HANDLE, Mesh.Info, p.mintRefused(error))])
      case Ok(credential) =>
        var envelope := Settlement.Package(Payload(intent), credential, receipt);
        (Accepted(envelope),
         [Mesh.Post(VAULT_HANDLE, Mesh.Credential, p.minted),
          Mesh.Post(RELAY_HANDLE, Mesh.Settlement, p.staged(envelope, credential))])
  }

  /** A whole call: the guard, the body, and `execute`. */
  function Handling(p: Prose, c: Scheme, held: Treasury, request: Request, now: I64, e: Vault.Entropy)
    : (Reply, seq<Mesh.Post>)
  {
    match Guard(p, held, request)
    case (Err(reply), posts) => (reply, posts)
    case (Ok(receipt), posts) =>
      match request.body
      case None => (BodyRejected, posts)
      case Some(intent) => Execution(p, c, receipt, intent, now, e)
  }

  class HandoffState {
    const gate: X402Gate
    const mesh: Mesh.MeshBus

    constructor (backend: Backend)
      ensures fresh(gate) && fresh(mesh) && gate.backend == backend
      ensures gate.receipts == map[] && Feed() == Mesh.Bus(0, [])
    {
      gate := new X402Gate(backend);
      mesh := new Mesh.MeshBus();
    }

    function Feed(): Mesh.Bus
      reads mesh
    {
      Mesh.Bus(mesh.number, mesh.log)
    }

    method X402Settle(p: Prose, intentId: string, hasPayment: bool, now: I64, receiptId: string)
      returns (r: Result<PaymentReceipt, SettlementError>)
      modifies gate`receipts, mesh
      ensures r == BackendSettle(gate.backend, receiptId, intentId, hasPayment, now)
      ensures gate.receipts == if r.Ok? then Record(old(gate.receipts), r.value, now) else old(gate.receipts)
      ensures r.Ok? ==> r.value == PaymentReceipt(receiptId, intentId, 500_000, now)
      ensures r.Ok? ==>
        Feed() == Mesh.PostAll(old(Feed()), [Mesh.Post("gate/x402", Mesh.Payment, p.settled(r.value))])
      ensures r.Err? ==>
        Feed() == Mesh.PostAll(old(Feed()),
                               [Mesh.Post("gate/x402", Mesh.Restriction, p.settleFailed(intentId, r.error))])
    {
      r := gate.Settle(intentId, hasPayment, now, receiptId);
      if r.Ok? {
        Mesh.PostOne(Feed(), Mesh.Post(GATE_HANDLE, Mesh.Payment, p.settled(r.value)));
        var _ := mesh.Post(Mesh.Post(GATE_HANDLE, Mesh.Payment, p.settled(r.value)));
      } else {
        Mesh.PostOne(Feed(), Mesh.Post(GATE_HANDLE, Mesh.Restriction, p.settleFailed(intentId, r.error)));
        var _ := mesh.Post(Mesh.Post(GATE_HANDLE, Mesh.Restriction, p.settleFailed(intentId, r.error)));
      }
    }

    method PaymentGuard(p: Prose, request: Request) returns (r: Result<PaymentReceipt, Reply>)
      modifies gate`receipts, mesh
      ensures r == Guard(p, old(gate.receipts), request).0
      ensures gate.receipts == Unpresented(old(gate.receipts), request)
      ensures Feed() == Mesh.PostAll(old(Feed()), Guard(p, old(gate.receipts), request).1)
    {
      var intentId := if request.intentHeader.Some? then request.intentHeader.value else "";
      if request.receiptHeader.None? {
        Mesh.PostOne(Feed(), Mesh.Post(GATE_HANDLE, Mesh.Restriction, p.restriction));
        var _ := mesh.Post(Mesh.Post(GATE_HANDLE, Mesh.Restriction, p.restriction));
        return Err(PaymentRequired(intentId));
      }
      var receiptId := request.receiptHeader.value;
      var redeemed := gate.Redeem(receiptId, intentId);
      if redeemed.Err? {
        Mesh.PostOne(Feed(), Mesh.Post(GATE_HANDLE, Mesh.Restriction, p.refused(receiptId, redeemed.error)));
        var _ := mesh.Post(Mesh.Post(GATE_HANDLE, Mesh.Restriction, p.refused(receiptId, redeemed.error)));
        return Err(PaymentRequired(intentId));
      }
      r := Ok(redeemed.value);
    }

    method Execute(p: Prose, c: Scheme, receipt: PaymentReceipt, intent: AgentIntent, now: I64, e: Vault.Entropy)
      returns (reply: Reply)
      modifies mesh
      ensures reply == Execution(p, c, receipt, intent, now, e).0
      ensures Feed() == Mesh.PostAll(old(Feed()), Execution(p, c, receipt, intent, now, e).1)
    {
      if receipt.intentId != intent.intentId {
        return WrongIntent;
      }
      var payload := Payload(intent);
      var minted := Vault.MintCredential(c, payload, receipt, now, e);
      if minted.Err? {
        Mesh.PostOne(Feed(), Mesh.Post(VAULT_HANDLE, Mesh.Info, p.mintRefused(minted.error)));
        var _ := mesh.Post(Mesh.Post(VAULT_HANDLE, Mesh.Info, p.mintRefused(minted.error)));
        return MintRefused(minted.error);
      }
      var credential := minted.value;
      ghost var line1 := Mesh.Post(VAULT_HANDLE, Mesh.Credential, p.minted);
      var _ := mesh.Post(Mesh.Post(VAULT_HANDLE, Mesh.Credential, p.minted));
      var envelope := Settlement.Package(payload, credential, receipt);
      ghost var line2 := Mesh.Post(RELAY_HANDLE, Mesh.Settlement, p.staged(envelope, credential));
      Mesh.PostTwo(old(Feed()), line1, line2);
      var _ := mesh.Post(Mesh.Post(RELAY_HANDLE, Mesh.Settlement, p.staged(envelope, credential)));
      reply := Accepted(envelope);
    }

    /** The route: the guard in front, then the body, then the handler. */
    method Handle(p: Prose, c: Scheme, request: Request, now: I64, e: Vault.Entropy) returns (reply: Reply)
      modifies gate`receipts, mesh
      ensures reply == Handling(p, c, old(gate.receipts), request, now, e).0
      ensures gate.receipts == Unpresented(old(gate.receipts), request)
      ensures Feed() == Mesh.PostAll(old(Feed()), Handling(p, c, old(gate.receipts), request, now, e).1)
    {
      var guarded := PaymentGuard(p, request);
      if guarded.Err? {
        return guarded.error;
      }
      if request.body.None? {
        return BodyRejected;
      }
      reply := Execute(p, c, guarded.value, request.body.value, now, e);
    }
  }
}
