/**
  The payment gate: an in-memory treasury of settled, unredeemed receipts. The
  class updates its map in place; what each call does is a function of the map,
  and the laws below hold for every sequence of calls.
 */
module X402 {
  import opened Bytes
  import opened Wrappers

  const EXECUTION_FEE_MICRO_USDC: U64 := 500_000
  const RECEIPT_STALE_AFTER_SECS: I64 := 600

  datatype PaymentReceipt = PaymentReceipt(
    receiptId: string,
    intentId: string,
    amountMicroUsdc: U64,
    clearedAt: I64)

  datatype X402Error = UnknownReceipt | IntentMismatch

  type Treasury = map<string, PaymentReceipt>

  // ----- The settlement backend

  datatype SettlementError = MissingPayment | Rejected | Transport

  /** The backend, with what a live facilitator would answer to this payment. */
  datatype Backend = Mock | Facilitator(verdict: Result<(), SettlementError>)

  /** A receipt for the fixed fee, stamped with the caller's clock and a fresh id. */
  function FreshReceipt(receiptId: string, intentId: string, now: I64): PaymentReceipt {
    PaymentReceipt(receiptId, intentId, EXECUTION_FEE_MICRO_USDC, now)
  }

  /** `SettlementBackend::settle`. */
  function BackendSettle(backend: Backend, receiptId: string, intentId: string, hasPayment: bool, now: I64)
    : (r: Result<PaymentReceipt, SettlementError>)
    ensures r.Ok? ==> r.value == PaymentReceipt(receiptId, intentId, 500_000, now)
    ensures backend.Mock? ==> r.Ok?
    ensures backend.Facilitator? ==> (r.Ok? <==> hasPayment && backend.verdict.Ok?)
    ensures r.Err? ==> r.error == if hasPayment then backend.verdict.error else MissingPayment
  {
    match backend
    case Mock => Ok(FreshReceipt(receiptId, intentId, now))
    case Facilitator(verdict) =>
      if !hasPayment then Err(MissingPayment)
      else match verdict
        case Ok(_) => Ok(FreshReceipt(receiptId, intentId, now))
        case Err(e) => Err(e)
  }

  // ----- The treasury's transitions

  predicate Fresh(r: PaymentReceipt, now: I64) {
    SaturatingSub(now, r.clearedAt) < RECEIPT_STALE_AFTER_SECS
  }

  /** `evict_stale`. */
  function EvictStale(held: Treasury, now: I64): Treasury {
    map id | id in held && Fresh(held[id], now) :: held[id]
  }

  /** Under the write lock: sweep, then insert. */
  function Record(held: Treasury, receipt: PaymentReceipt, now: I64): Treasury {
    EvictStale(held, now)[receipt.receiptId := receipt]
  }

  /** Under the write lock: take the receipt out; it is gone whatever the intent. */
  function Burn(held: Treasury, receiptId: string): Treasury {
    held - {receiptId}
  }

  function Redeemed(held: Treasury, receiptId: string, intentId: string): Result<PaymentReceipt, X402Error> {
    if receiptId !in held then Err(UnknownReceipt)
    else if held[receiptId].intentId != intentId then Err(IntentMismatch)
    else Ok(held[receiptId])
  }

  // ----- What they leave in the treasury, receipt by receipt

  /** Every receipt ten minutes old or older is gone, and nothing else changed. */
  ghost predicate Sweeps(before: Treasury, now: I64, after: Treasury) {
    && (forall id :: id in after <==> id in before && now < before[id].clearedAt + 600)
    && (forall id | id in after :: after[id] == before[id])
  }

  /** The receipt is held under its own id, and all others are swept. */
  ghost predicate Records(before: Treasury, receipt: PaymentReceipt, after: Treasury) {
    && receipt.receiptId in after && after[receipt.receiptId] == receipt
    && (forall id | id != receipt.receiptId ::
          id in after <==> id in before && receipt.clearedAt < before[id].clearedAt + 600)
    && (forall id | id in after && id != receipt.receiptId :: after[id] == before[id])
  }

  /** This receipt is gone, and nothing else changed. */
  ghost predicate Takes(before: Treasury, receiptId: string, after: Treasury) {
    && (forall id :: id in after <==> id in before && id != receiptId)
    && (forall id | id in after :: after[id] == before[id])
  }

  lemma SweepExactly(before: Treasury, now: I64, after: Treasury)
    ensures Sweeps(before, now, after) <==> after == EvictStale(before, now)
  {
  }

  lemma RecordExactly(before: Treasury, receipt: PaymentReceipt, after: Treasury)
    ensures Records(before, receipt, after) <==> after == Record(before, receipt, receipt.clearedAt)
  {
    var swept := EvictStale(before, receipt.clearedAt);
    SweepExactly(before, receipt.clearedAt, swept);
    if Records(before, receipt, after) {
      assert after == swept[receipt.receiptId := receipt];
    }
  }

  lemma BurnExactly(before: Treasury, receiptId: string, after: Treasury)
    ensures Takes(before, receiptId, after) <==> after == Burn(before, receiptId)
  {
    if Takes(before, receiptId, after) {
      assert after == before - {receiptId};
    }
  }

  /** A receipt fresh from the backend pays for the intent it was settled for, and for no other, once. */
  lemma FreshReceiptPays(held: Treasury, receiptId: string, intentId: string, presented: string, now: I64)
    ensures var recorded := Record(held, FreshReceipt(receiptId, intentId, now), now);
      && Redeemed(recorded, receiptId, intentId) == Ok(PaymentReceipt(receiptId, intentId, 500_000, now))
      && (presented != intentId ==> Redeemed(recorded, receiptId, presented) == Err(IntentMismatch))
      && Redeemed(Burn(recorded, receiptId), receiptId, presented) == Err(UnknownReceipt)
  {
  }

  class X402Gate {
    var receipts: Treasury
    const backend: Backend

    constructor (backend: Backend)
      ensures receipts == map[] && this.backend == backend
    {
      receipts, this.backend := map[], backend;
    }

    method Settle(intentId: string, hasPayment: bool, now: I64, receiptId: string)
      returns (r: Result<PaymentReceipt, SettlementError>)
      modifies this`receipts
      ensures r == BackendSettle(backend, receiptId, intentId, hasPayment, now)
      ensures receipts == if r.Ok? then Record(old(receipts), r.value, now) else old(receipts)
      ensures r.Ok? ==> Records(old(receipts), PaymentReceipt(receiptId, intentId, 500_000, now), receipts)
    {
      r := BackendSettle(backend, receiptId, intentId, hasPayment, now);
      if r.Err? {
        return;
      }
      RecordExactly(receipts, r.value, Record(receipts, r.value, now));
      Sweep(now);
      receipts := receipts[r.value.receiptId := r.value];
    }

    method MockSettle(intentId: string, now: I64, receiptId: string) returns (receipt: PaymentReceipt)
      modifies this`receipts
      ensures receipt == PaymentReceipt(receiptId, intentId, 500_000, now)
      ensures receipts == Record(old(receipts), receipt, now) && Records(old(receipts), receipt, receipts)
    {
      receipt := PaymentReceipt(receiptId, intentId, EXECUTION_FEE_MICRO_USDC, now);
      RecordExactly(receipts, receipt, Record(receipts, receipt, now));
      Sweep(now);
      receipts := receipts[receipt.receiptId := receipt];
    }

    method Sweep(now: I64)
      modifies this`receipts
      ensures receipts == EvictStale(old(receipts), now) && Sweeps(old(receipts), now, receipts)
    {
      receipts := map id | id in receipts && SaturatingSub(now, receipts[id].clearedAt) < RECEIPT_STALE_AFTER_SECS
                    :: receipts[id];
    }

    method Redeem(receiptId: string, intentId: string) returns (r: Result<PaymentReceipt, X402Error>)
      modifies this`receipts
      ensures r == Redeemed(old(receipts), receiptId, intentId)
      ensures receipts == Burn(old(receipts), receiptId)
      ensures r == Err(UnknownReceipt) <==> receiptId !in old(receipts)
      ensures r == Err(IntentMismatch) <==> receiptId in old(receipts) && old(receipts)[receiptId].intentId != intentId
      ensures r.Ok? ==> r.value == old(receipts)[receiptId]
      ensures Takes(old(receipts), receiptId, receipts)
    {
      if receiptId !in receipts {
        assert receipts - {receiptId} == receipts;
        return Err(UnknownReceipt);
      }
      var receipt := receipts[receiptId];
      receipts := receipts - {receiptId};
      if receipt.intentId != intentId {
        return Err(IntentMismatch);
      }
      r := Ok(receipt);
    }
  }

  /** Settle for one intent, then present the receipt for another or the same, twice. */
  method SettleThenRedeem(gate: X402Gate, intentId: string, hasPayment: bool, now: I64, receiptId: string,
                          presented: string)
    returns (settled: Result<PaymentReceipt, SettlementError>, paid: Result<PaymentReceipt, X402Error>,
             again: Result<PaymentReceipt, X402Error>)
    modifies gate`receipts
    ensures settled.Ok? ==>
      paid == if presented == intentId then Ok(PaymentReceipt(receiptId, intentId, 500_000, now))
              else Err(IntentMismatch)
    ensures again == Err(UnknownReceipt)
  {
    settled := gate.Settle(intentId, hasPayment, now, receiptId);
    paid := gate.Redeem(receiptId, presented);
    again := gate.Redeem(receiptId, presented);
  }

  // ----- Runs of the gate

  /** One call: a settlement recorded at its own clearing time, or a presentation. */
  datatype GateCall = Settled(receipt: PaymentReceipt) | Presented(receiptId: string, intentId: string)

  function GateStep(held: Treasury, call: GateCall): Treasury {
    match call
    case Settled(r) => Record(held, r, r.clearedAt)
    case Presented(id, _) => Burn(held, id)
  }

  function GateRun(held: Treasury, calls: seq<GateCall>): Treasury
    decreases |calls|
  {
    if calls == [] then held else GateRun(GateStep(held, calls[0]), calls[1..])
  }

  /** Saturation never changes the keep-or-drop decision, over all of `i64`. */
  lemma SaturationIsHarmless(r: PaymentReceipt, now: I64)
    ensures Fresh(r, now) <==> now < r.clearedAt + RECEIPT_STALE_AFTER_SECS
  {
  }

  /** Settlements in the run that cleared after `since`. */
  function SettledSince(calls: seq<GateCall>, since: int): nat {
    if calls == [] then 0
    else (if calls[0].Settled? && calls[0].receipt.clearedAt > since then 1 else 0)
         + SettledSince(calls[1..], since)
  }

  /** Whether the call is a settlement that cleared after `since`, as a number. */
  function Late(call: GateCall, since: int): nat {
    if call.Settled? && call.receipt.clearedAt > since then 1 else 0
  }

  predicate LateAt(calls: seq<GateCall>, since: int, i: nat) {
    i < |calls| && Late(calls[i], since) == 1
  }

  /** The places of such calls in the run. */
  function LateSettlements(calls: seq<GateCall>, since: int): set<nat> {
    set i: nat | i < |calls| && LateAt(calls, since, i)
  }

  lemma {:induction false} SettledSinceLast(calls: seq<GateCall>, last: GateCall, since: int)
    ensures SettledSince(calls + [last], since) == SettledSince(calls, since) + Late(last, since)
  {
    if calls == [] {
      assert [] + [last] == [last] && [last][1..] == [];
    } else {
      assert (calls + [last])[0] == calls[0] && (calls + [last])[1..] == calls[1..] + [last];
      SettledSinceLast(calls[1..], last, since);
    }
  }

  lemma LateLast(calls: seq<GateCall>, last: GateCall, since: int, all: seq<GateCall>)
    requires all == calls + [last]
    ensures |LateSettlements(all, since)| == |LateSettlements(calls, since)| + Late(last, since)
  {
    var n: nat, before, after := |calls|, LateSettlements(calls, since), LateSettlements(all, since);
    assert forall i: nat | i < n :: LateAt(all, since, i) == LateAt(calls, since, i);
    assert LateAt(all, since, n) == (Late(last, since) == 1);
    if Late(last, since) == 1 {
      assert after == before + {n};
    } else {
      assert after == before;
    }
  }

  lemma {:induction false} SettledSinceCounts(calls: seq<GateCall>, since: int)
    ensures SettledSince(calls, since) == |LateSettlements(calls, since)|
    decreases |calls|
  {
    if calls != [] {
      var n := |calls| - 1;
      assert calls == calls[..n] + [calls[n]];
      SettledSinceCounts(calls[..n], since);
      SettledSinceLast(calls[..n], calls[n], since);
      LateLast(calls[..n], calls[n], since, calls);
    }
  }

  function HeldSince(held: Treasury, since: int): set<string> {
    set id | id in held && held[id].clearedAt > since
  }

  lemma SubsetSize<T>(a: set<T>, b: set<T>)
    requires a <= b
    ensures |a| <= |b|
  {
    assert b == a + (b - a);
  }

  lemma StepGrowsByOne(held: Treasury, call: GateCall, since: int)
    ensures |HeldSince(GateStep(held, call), since)|
         <= |HeldSince(held, since)| + (if call.Settled? && call.receipt.clearedAt > since then 1 else 0)
  {
    var before, after := HeldSince(held, since), HeldSince(GateStep(held, call), since);
    match call
    case Settled(r) =>
      if r.clearedAt > since {
        SubsetSize(after, before + {r.receiptId});
      } else {
        SubsetSize(after, before);
      }
    case Presented(_, _) =>
      SubsetSize(after, before);
  }

  lemma {:induction false} HeldWithinSettled(held: Treasury, calls: seq<GateCall>, since: int)
    ensures |HeldSince(GateRun(held, calls), since)| <= |HeldSince(held, since)| + SettledSince(calls, since)
    decreases |calls|
  {
    if calls != [] {
      StepGrowsByOne(held, calls[0], since);
      HeldWithinSettled(GateStep(held, calls[0]), calls[1..], since);
    }
  }

  lemma {:induction false} RunAppend(held: Treasury, calls: seq<GateCall>, call: GateCall)
    ensures GateRun(held, calls + [call]) == GateStep(GateRun(held, calls), call)
    decreases |calls|
  {
    if calls == [] {
      assert [] + [call] == [call];
      assert GateRun(held, [call]) == GateRun(GateStep(held, call), []);
    } else {
      assert (calls + [call])[0] == calls[0] && (calls + [call])[1..] == calls[1..] + [call];
      RunAppend(GateStep(held, calls[0]), calls[1..], call);
    }
  }

  /**
    Just after a settlement at time t the treasury is no larger than the number of
    settlements that cleared after t - 600: in any run, whatever the clocks did.
   */
  lemma TreasuryBound(calls: seq<GateCall>, last: PaymentReceipt)
    ensures var run := calls + [Settled(last)];
      |GateRun(map[], run)| <= SettledSince(run, last.clearedAt - RECEIPT_STALE_AFTER_SECS)
  {
    var run := calls + [Settled(last)];
    var since := last.clearedAt - RECEIPT_STALE_AFTER_SECS;
    RunAppend(map[], calls, Settled(last));
    var held := GateRun(map[], run);
    HeldWithinSettled(map[], run, since);
    assert HeldSince(held, since) == held.Keys;
    assert HeldSince(map[], since) == {};
  }

  /** No call presents receipt `id`, and none settles under its id again. */
  predicate LeavesAlone(calls: seq<GateCall>, id: string) {
    forall i | 0 <= i < |calls| ::
      if calls[i].Settled? then calls[i].receipt.receiptId != id else calls[i].receiptId != id
  }

  /** Every settlement in the run clears less than ten minutes after `cleared`. */
  predicate AllBefore(calls: seq<GateCall>, cleared: I64) {
    forall i | 0 <= i < |calls| && calls[i].Settled? ::
      calls[i].receipt.clearedAt < cleared + RECEIPT_STALE_AFTER_SECS
  }

  /** No settlement in the run reuses receipt id `id`. */
  predicate NeverSettles(calls: seq<GateCall>, id: string) {
    forall i | 0 <= i < |calls| && calls[i].Settled? :: calls[i].receipt.receiptId != id
  }

  lemma {:induction false} NeverBack(held: Treasury, calls: seq<GateCall>, id: string)
    requires id !in held && NeverSettles(calls, id)
    ensures id !in GateRun(held, calls)
    decreases |calls|
  {
    if calls != [] {
      assert forall i | 0 <= i < |calls[1..]| :: calls[1..][i] == calls[i + 1];
      NeverBack(GateStep(held, calls[0]), calls[1..], id);
    }
  }

  /** An unpresented receipt stays redeemable exactly while every settlement is within its ten minutes. */
  lemma {:induction false} Retention(held: Treasury, calls: seq<GateCall>, id: string)
    requires id in held && LeavesAlone(calls, id)
    ensures AllBefore(calls, held[id].clearedAt) <==> id in GateRun(held, calls)
    ensures id in GateRun(held, calls) ==> Redeemed(GateRun(held, calls), id, held[id].intentId) == Ok(held[id])
    decreases |calls|
  {
    if calls != [] {
      var next := GateStep(held, calls[0]);
      assert forall i | 0 <= i < |calls[1..]| :: calls[1..][i] == calls[i + 1];
      if id in next {
        assert next[id] == held[id];
        Retention(next, calls[1..], id);
        assert AllBefore(calls, held[id].clearedAt) <==> AllBefore(calls[1..], held[id].clearedAt) by {
          assert calls[0].Settled? ==> Fresh(held[id], calls[0].receipt.clearedAt);
          assert forall i | 0 < i < |calls| :: calls[i] == calls[1..][i - 1];
        }
      } else {
        assert calls[0].Settled? && !Fresh(held[id], calls[0].receipt.clearedAt);
        NeverBack(next, calls[1..], id);
      }
    }
  }
}
