/** Agent intents and the JSON payload the vault signs for them. */
module Intents {
  import opened Bytes
  import opened Json

  datatype OrderSide = Buy | Sell

  datatype LimitOrder = LimitOrder(
    pair: string,
    side: OrderSide,
    limitPriceUsdCents: U64,
    quantityWei: string,
    venue: string)

  datatype AgentIntent = AgentIntent(
    intentId: string,
    agentHandle: string,
    action: string,
    order: LimitOrder)

  function SideText(side: OrderSide): string {
    match side
    case Buy => "buy"
    case Sell => "sell"
  }

  function OrderMembers(order: LimitOrder): seq<Member> {
    [Member("pair", Str(order.pair)),
     Member("side", Str(SideText(order.side))),
     Member("limit_price_usd_cents", Num(PosInt(order.limitPriceUsdCents))),
     Member("quantity_wei", Str(order.quantityWei)),
     Member("venue", Str(order.venue))]
  }

  function IntentMembers(intent: AgentIntent): seq<Member> {
    [Member("intent_id", Str(intent.intentId)),
     Member("agent_handle", Str(intent.agentHandle)),
     Member("action", Str(intent.action)),
     Member("order", Object(OrderMembers(intent.order)))]
  }

  lemma OrderKeysDistinct(order: LimitOrder)
    ensures DistinctKeys(OrderMembers(order))
  {
    var ms := OrderMembers(order);
    assert |ms[0].key| == 4 && |ms[1].key| == 4 && |ms[2].key| == 21 && |ms[3].key| == 12 && |ms[4].key| == 5;
    assert ms[0].key[0] == 'p' && ms[1].key[0] == 's';
  }

  lemma IntentKeysDistinct(intent: AgentIntent)
    ensures DistinctKeys(IntentMembers(intent))
  {
    var ms := IntentMembers(intent);
    assert |ms[0].key| == 9 && |ms[1].key| == 12 && |ms[2].key| == 6 && |ms[3].key| == 5;
  }

  /** `AgentIntent::payload`: a value without floats, so the printer never refuses it. */
  function Payload(intent: AgentIntent): (v: Value)
    ensures WellFormed(v) && FloatFree(v)
  {
    IntentKeysDistinct(intent);
    OrderKeysDistinct(intent.order);
    assert WellFormed(Object(OrderMembers(intent.order))) && FloatFree(Object(OrderMembers(intent.order)));
    Object(IntentMembers(intent))
  }

  /** The object has this value under this key. */
  predicate Carries(v: Value, key: string, value: Value) {
    v.Object? && HasKey(v.members, key) && Lookup(v.members, key) == value
  }

  lemma CarriesOwn(ms: seq<Member>, i: nat)
    requires DistinctKeys(ms) && i < |ms|
    ensures Carries(Object(ms), ms[i].key, ms[i].value)
  {
    assert ms[i].key == ms[i].key;
    assert HasKey(ms, ms[i].key);
  }

  lemma OrderFields(order: LimitOrder, v: Value)
    requires v == Object(OrderMembers(order))
    ensures Carries(v, "pair", Str(order.pair))
    ensures Carries(v, "side", Str("buy")) <==> order.side == Buy
    ensures Carries(v, "side", Str("sell")) <==> order.side == Sell
    ensures Carries(v, "limit_price_usd_cents", Num(PosInt(order.limitPriceUsdCents)))
    ensures Carries(v, "quantity_wei", Str(order.quantityWei))
    ensures Carries(v, "venue", Str(order.venue))
  {
    OrderKeysDistinct(order);
    var ms := OrderMembers(order);
    CarriesOwn(ms, 0);
    CarriesOwn(ms, 1);
    CarriesOwn(ms, 2);
    CarriesOwn(ms, 3);
    CarriesOwn(ms, 4);
    assert |"buy"| != |"sell"|;
  }

  /** Each of the nine fields is in the payload under its own key, and nothing else is. */
  lemma PayloadFields(intent: AgentIntent)
    ensures Payload(intent).Object? && |Payload(intent).members| == 4
    ensures Carries(Payload(intent), "intent_id", Str(intent.intentId))
    ensures Carries(Payload(intent), "agent_handle", Str(intent.agentHandle))
    ensures Carries(Payload(intent), "action", Str(intent.action))
    ensures HasKey(Payload(intent).members, "order")
    ensures var order := Lookup(Payload(intent).members, "order");
      && order.Object? && |order.members| == 5
      && Carries(order, "pair", Str(intent.order.pair))
      && (Carries(order, "side", Str("buy")) <==> intent.order.side == Buy)
      && (Carries(order, "side", Str("sell")) <==> intent.order.side == Sell)
      && Carries(order, "limit_price_usd_cents", Num(PosInt(intent.order.limitPriceUsdCents)))
      && Carries(order, "quantity_wei", Str(intent.order.quantityWei))
      && Carries(order, "venue", Str(intent.order.venue))
  {
    IntentKeysDistinct(intent);
    var ms := IntentMembers(intent);
    CarriesOwn(ms, 0);
    CarriesOwn(ms, 1);
    CarriesOwn(ms, 2);
    CarriesOwn(ms, 3);
    assert Lookup(Payload(intent).members, "order") == Object(OrderMembers(intent.order));
    OrderFields(intent.order, Lookup(Payload(intent).members, "order"));
  }

  lemma MemberAt(ms: seq<Member>, ns: seq<Member>, i: nat)
    requires DistinctKeys(ns) && |ms| == |ns| && i < |ms| && ms[i].key == ns[i].key
    requires Same(Object(ms), Object(ns))
    ensures Same(ms[i].value, ns[i].value)
  {
    assert HasKey(ns, ms[i].key);
    assert IndexOf(ns, ms[i].key) == i;
  }

  lemma OrderDecides(a: LimitOrder, b: LimitOrder)
    requires Same(Object(OrderMembers(a)), Object(OrderMembers(b)))
    ensures a == b
  {
    OrderKeysDistinct(b);
    var ms, ns := OrderMembers(a), OrderMembers(b);
    MemberAt(ms, ns, 0);
    MemberAt(ms, ns, 1);
    MemberAt(ms, ns, 2);
    MemberAt(ms, ns, 3);
    MemberAt(ms, ns, 4);
    assert |SideText(a.side)| == |SideText(b.side)|;
  }

  /** Different intents have different payloads, as JSON values. */
  lemma PayloadDecidesIntent(a: AgentIntent, b: AgentIntent)
    ensures Same(Payload(a), Payload(b)) <==> a == b
  {
    IntentKeysDistinct(b);
    if Same(Payload(a), Payload(b)) {
      var ms, ns := IntentMembers(a), IntentMembers(b);
      MemberAt(ms, ns, 0);
      MemberAt(ms, ns, 1);
      MemberAt(ms, ns, 2);
      MemberAt(ms, ns, 3);
      OrderDecides(a.order, b.order);
    }
    SameReflexive(Payload(b));
  }

  lemma {:induction false} SameReflexive(v: Value)
    requires WellFormed(v)
    ensures Same(v, v)
    decreases v
  {
    match v
    case Array(items) =>
      forall i | 0 <= i < |items| ensures Same(items[i], items[i]) {
        SameReflexive(items[i]);
      }
    case Object(ms) =>
      forall i | 0 <= i < |ms| ensures HasKey(ms, ms[i].key) && Same(ms[i].value, ms[IndexOf(ms, ms[i].key)].value) {
        assert ms[i].key == ms[i].key;
        assert HasKey(ms, ms[i].key);
        SameReflexive(ms[i].value);
      }
    case _ =>
  }
}
