/**
  JSON values as `serde_json` holds them. An object is the sequence of its
  members in iteration order; that its keys are distinct is the map's own
  invariant, stated by `WellFormed`.
 */
module Json {
  import opened Bytes
  import opened Wrappers

  type NegI64 = x: int | -0x8000_0000_0000_0000 <= x < 0 witness -1

  /** The three representations of a number; a float is kept by its bit pattern. */
  datatype Number = PosInt(u: U64) | NegInt(i: NegI64) | Float(bits: U64)
  {
    function AsU64(): Option<U64> {
      match this
      case PosInt(u) => Some(u)
      case _ => None
    }

    function AsI64(): Option<I64> {
      match this
      case PosInt(u) => if u < TWO_TO_THE_63 then Some(u) else None
      case NegInt(i) => Some(i)
      case Float(_) => None
    }
  }

  datatype Value =
    | Null
    | Bool(b: bool)
    | Num(n: Number)
    | Str(s: string)
    | Array(items: seq<Value>)
    | Object(members: seq<Member>)

  datatype Member = Member(key: string, value: Value)

  /** No float at any depth. */
  predicate FloatFree(v: Value) {
    match v
    case Num(n) => !n.Float?
    case Array(items) => forall i | 0 <= i < |items| :: FloatFree(items[i])
    case Object(ms) => forall i | 0 <= i < |ms| :: FloatFree(ms[i].value)
    case _ => true
  }

  predicate DistinctKeys(ms: seq<Member>) {
    forall i, j | 0 <= i < j < |ms| :: ms[i].key != ms[j].key
  }

  /** Every object, at any depth, has distinct keys. */
  predicate WellFormed(v: Value) {
    match v
    case Array(items) => forall i | 0 <= i < |items| :: WellFormed(items[i])
    case Object(ms) => DistinctKeys(ms) && forall i | 0 <= i < |ms| :: WellFormed(ms[i].value)
    case _ => true
  }

  predicate HasKey(ms: seq<Member>, key: string) {
    exists i | 0 <= i < |ms| :: ms[i].key == key
  }

  /** Where the map finds `key`. */
  function IndexOf(ms: seq<Member>, key: string): (i: nat)
    requires HasKey(ms, key)
    ensures i < |ms| && ms[i].key == key
  {
    if ms[0].key == key then 0 else 1 + IndexOf(ms[1..], key)
  }

  function Lookup(ms: seq<Member>, key: string): (v: Value)
    requires HasKey(ms, key)
    ensures exists i | 0 <= i < |ms| :: ms[i] == Member(key, v)
  {
    ms[IndexOf(ms, key)].value
  }

  /**
    Equality of JSON values: arrays in order, objects by key. On values without
    floats it is what `==` on `serde_json` values means, whatever order a map
    iterates in; floats are compared by bit pattern, so the two zeros differ here.
   */
  predicate Same(v: Value, w: Value) {
    match (v, w)
    case (Array(xs), Array(ys)) =>
      |xs| == |ys| && forall i | 0 <= i < |xs| :: Same(xs[i], ys[i])
    case (Object(ms), Object(ns)) =>
      && |ms| == |ns|
      && forall i | 0 <= i < |ms| ::
           HasKey(ns, ms[i].key) && Same(ms[i].value, ns[IndexOf(ns, ms[i].key)].value)
    case _ => v == w
  }
}
