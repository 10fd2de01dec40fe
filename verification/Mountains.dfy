/**
  The shape of a Merkle Mountain Range, for any pairing function `f` over any
  kind of node: the greedy split of `n` leaves into mountains, the tree over one
  mountain, and the siblings of a leaf. Nothing here depends on what `f` hashes.
 */
module Mountains {

  // ----- Powers of two and the greedy split

  function Pow2(k: nat): (p: nat)
    ensures p >= 1
  {
    if k == 0 then 1 else 2 * Pow2(k - 1)
  }

  lemma Doubled(m: nat)
    ensures (2 * m) % 2 == 0 && (2 * m) / 2 == m
  {
  }

  lemma Pow2Even(k: nat)
    requires k > 0
    ensures Pow2(k) % 2 == 0 && Pow2(k) / 2 == Pow2(k - 1)
  {
    Doubled(Pow2(k - 1));
  }

  lemma {:induction false} Pow2Monotone(a: nat, b: nat)
    requires a <= b
    ensures Pow2(a) <= Pow2(b)
  {
    if a < b {
      Pow2Monotone(a, b - 1);
    }
  }

  lemma {:induction false} Pow2Add(a: nat, b: nat)
    ensures Pow2(a + b) == Pow2(a) * Pow2(b)
  {
    if a > 0 {
      Pow2Add(a - 1, b);
    }
  }

  lemma Log2Exists(n: nat)
    requires n > 0
    ensures exists k: nat :: Pow2(k) <= n < Pow2(k + 1)
  {
    var k := 0;
    while Pow2(k + 1) <= n
      invariant Pow2(k) <= n
      decreases n - Pow2(k)
    {
      k := k + 1;
    }
  }

  /** The exponent of the largest power of two that fits in `n`. */
  ghost function Log2(n: nat): (k: nat)
    requires n > 0
    ensures Pow2(k) <= n < Pow2(k + 1)
  {
    Log2Exists(n);
    var k: nat :| Pow2(k) <= n < Pow2(k + 1);
    k
  }

  /** The exponent a doubling loop stops at is the only one that fits. */
  lemma Log2Unique(n: nat, k: nat)
    requires 0 < n && Pow2(k) <= n < Pow2(k + 1)
    ensures Log2(n) == k
  {
    var j := Log2(n);
    if j < k {
      Pow2Monotone(j + 1, k);
    } else if k < j {
      Pow2Monotone(k + 1, j);
    }
  }

  lemma Log2Monotone(m: nat, n: nat)
    requires 0 < m <= n
    ensures Log2(m) <= Log2(n)
  {
    if Log2(n) < Log2(m) {
      Pow2Monotone(Log2(n) + 1, Log2(m));
    }
  }

  /** The size of the first mountain over `n` leaves. */
  ghost function FirstSize(n: nat): (s: nat)
    requires n > 0
    ensures 0 < s <= n < 2 * s
  {
    Pow2(Log2(n))
  }

  /** The mountain sizes for `n` leaves, left to right. */
  ghost function Sizes(n: nat): seq<nat> {
    if n == 0 then [] else [FirstSize(n)] + Sizes(n - FirstSize(n))
  }

  /** Where a leaf sits: which mountain, which slot in it, and the mountain's height. */
  datatype Place = Place(peak: nat, local: nat, height: nat)

  ghost function Locate(n: nat, i: nat): (p: Place)
    requires i < n
    ensures p.local <= i && p.local < Pow2(p.height)
  {
    if i < FirstSize(n) then Place(0, i, Log2(n))
    else
      var p := Locate(n - FirstSize(n), i - FirstSize(n));
      p.(peak := p.peak + 1)
  }

  // ----- One mountain

  /** The root of a perfect binary tree with 2^k leaves. */
  function Tree<D>(f: (D, D) -> D, xs: seq<D>, k: nat): D
    requires |xs| == Pow2(k)
  {
    if k == 0 then xs[0]
    else f(Tree(f, xs[..Pow2(k - 1)], k - 1), Tree(f, xs[Pow2(k - 1)..], k - 1))
  }

  /** Neighbouring pairs of a level; an unpaired last node is left out. */
  function PairUp<D>(f: (D, D) -> D, xs: seq<D>): (ys: seq<D>)
    ensures |ys| == |xs| / 2
  {
    if |xs| < 2 then [] else [f(xs[0], xs[1])] + PairUp(f, xs[2..])
  }

  /** The nodes `t` levels above `xs`. */
  function Level<D>(f: (D, D) -> D, xs: seq<D>, t: nat): seq<D>
    decreases t
  {
    if t == 0 then xs else Level(f, PairUp(f, xs), t - 1)
  }

  function UnpairedLast<D>(xs: seq<D>): seq<D> {
    if |xs| % 2 == 1 then [xs[|xs| - 1]] else []
  }

  /** The slot a node is paired with. */
  function Buddy(i: nat): nat {
    if i % 2 == 0 then i + 1 else i - 1
  }

  /** The siblings of leaf `i` in a perfect tree, lowest first. */
  function Siblings<D>(f: (D, D) -> D, xs: seq<D>, i: nat, k: nat): (p: seq<D>)
    requires |xs| == Pow2(k) && i < |xs|
    ensures |p| == k
    decreases k
  {
    if k == 0 then [] else [xs[Buddy(i)]] + Siblings(f, PairUp(f, xs), i / 2, k - 1)
  }

  /** Climb from `cur` at slot `pos`, meeting the nodes of `path`. */
  function Fold<D>(f: (D, D) -> D, cur: D, path: seq<D>, pos: nat): D
    decreases |path|
  {
    if path == [] then cur
    else Fold(f, if pos % 2 == 0 then f(cur, path[0]) else f(path[0], cur), path[1..], pos / 2)
  }

  /** What is left of a slot after n halvings. */
  function HighBits(pos: nat, n: nat): (q: nat)
    ensures q <= pos
    decreases n
  {
    if n == 0 then pos else HighBits(pos / 2, n - 1)
  }

  /** What n halvings drop. */
  function LowBits(pos: nat, n: nat): nat
    decreases n
  {
    if n == 0 then 0 else pos % 2 + 2 * LowBits(pos / 2, n - 1)
  }

  // ----- The whole range, mountain by mountain

  ghost function Peaks<D>(f: (D, D) -> D, xs: seq<D>): seq<D> {
    if xs == [] then []
    else
      var size := FirstSize(|xs|);
      [Tree(f, xs[..size], Log2(|xs|))] + Peaks(f, xs[size..])
  }

  ghost function ProofOf<D>(f: (D, D) -> D, xs: seq<D>, i: nat): seq<D>
    requires i < |xs|
  {
    var size := FirstSize(|xs|);
    if i < size then Siblings(f, xs[..size], i, Log2(|xs|)) else ProofOf(f, xs[size..], i - size)
  }

  // ----- The same range, level by level

  /** At each level an unpaired last node is a peak; lower levels lie further right. */
  function PeaksByLevel<D>(f: (D, D) -> D, xs: seq<D>): seq<D>
    decreases |xs|
  {
    if xs == [] then [] else PeaksByLevel(f, PairUp(f, xs)) + UnpairedLast(xs)
  }

  /** The proof of leaf `i`: climb until the node has no buddy. */
  function ProofByLevel<D>(f: (D, D) -> D, xs: seq<D>, i: nat): seq<D>
    requires i < |xs|
    decreases |xs|
  {
    if Buddy(i) >= |xs| then [] else [xs[Buddy(i)]] + ProofByLevel(f, PairUp(f, xs), i / 2)
  }
}
