/**
  The laws of the range. The code's greedy, per-mountain computation equals the
  level-by-level one; from that, proofs fold back to their peak, old proofs are
  prefixes of new ones, and appending a leaf is a binary carry.
 */
module MountainLaws {
  import opened Mountains

  // ----- One level

  lemma PairUpCons<D>(f: (D, D) -> D, x: D, y: D, rest: seq<D>)
    ensures PairUp(f, [x, y] + rest) == [f(x, y)] + PairUp(f, rest)
  {
    assert ([x, y] + rest)[2..] == rest;
  }

  lemma {:induction false} PairUpConcat<D>(f: (D, D) -> D, a: seq<D>, b: seq<D>)
    requires |a| % 2 == 0
    ensures PairUp(f, a + b) == PairUp(f, a) + PairUp(f, b)
    decreases |a|
  {
    if a == [] {
      assert a + b == b;
    } else {
      var x, y, rest := a[0], a[1], a[2..];
      PairUpConcat(f, rest, b);
      PairUpCons(f, x, y, rest);
      PairUpCons(f, x, y, rest + b);
      assert a == [x, y] + rest && a + b == [x, y] + (rest + b);
    }
  }

  lemma {:induction false} PairUpAt<D>(f: (D, D) -> D, xs: seq<D>, m: nat)
    requires 2 * m + 1 < |xs|
    ensures PairUp(f, xs)[m] == f(xs[2 * m], xs[2 * m + 1])
    decreases m
  {
    if m > 0 {
      PairUpAt(f, xs[2..], m - 1);
    }
  }

  lemma {:induction false} PairUpPrefix<D>(f: (D, D) -> D, xs: seq<D>, zs: seq<D>)
    requires xs <= zs
    ensures PairUp(f, xs) <= PairUp(f, zs)
    decreases |xs|
  {
    if |xs| >= 2 {
      PairUpPrefix(f, xs[2..], zs[2..]);
    }
  }

  // ----- Level by level equals recursive

  lemma TreeCons<D>(f: (D, D) -> D, left: seq<D>, right: seq<D>, k: nat, whole: seq<D>)
    requires |left| == |right| == Pow2(k) && whole == left + right
    ensures |whole| == Pow2(k + 1) && Tree(f, whole, k + 1) == f(Tree(f, left, k), Tree(f, right, k))
  {
    assert whole[..Pow2(k)] == left && whole[Pow2(k)..] == right;
  }

  lemma TreeOfTwo<D>(f: (D, D) -> D, x: D, y: D)
    ensures Tree(f, [x, y], 1) == f(x, y) && PairUp(f, [x, y]) == [f(x, y)]
  {
    TreeCons(f, [x], [y], 0, [x, y]);
    PairUpCons(f, x, y, []);
    assert [x, y] + [] == [x, y];
  }

  /** Two halves with the roots of the halves below them. */
  lemma TreesAbove<D>(f: (D, D) -> D, left: seq<D>, right: seq<D>, k: nat, below: seq<D>,
                      a: seq<D>, b: seq<D>, up: seq<D>)
    requires |left| == |right| == Pow2(k + 1) && |a| == |b| == Pow2(k)
    requires below == left + right && up == a + b
    requires Tree(f, a, k) == Tree(f, left, k + 1) && Tree(f, b, k) == Tree(f, right, k + 1)
    ensures |below| == Pow2(k + 2) && |up| == Pow2(k + 1) && Tree(f, up, k + 1) == Tree(f, below, k + 2)
  {
    TreeCons(f, left, right, k + 1, below);
    TreeCons(f, a, b, k, up);
  }

  /** Pairing a level of a perfect tree does not change its root. */
  lemma {:induction false} TreeByLevel<D>(f: (D, D) -> D, xs: seq<D>, k: nat)
    requires |xs| == Pow2(k + 1)
    ensures Tree(f, PairUp(f, xs), k) == Tree(f, xs, k + 1)
  {
    if k == 0 {
      assert Pow2(1) == 2 && xs == [xs[0], xs[1]];
      TreeOfTwo(f, xs[0], xs[1]);
    } else {
      var left, right := xs[..Pow2(k)], xs[Pow2(k)..];
      assert xs == left + right;
      Pow2Even(k);
      PairUpConcat(f, left, right);
      TreeByLevel(f, left, k - 1);
      TreeByLevel(f, right, k - 1);
      TreesAbove(f, left, right, k - 1, xs, PairUp(f, left), PairUp(f, right), PairUp(f, xs));
    }
  }

  /** A level of a perfect tree is a perfect tree under the same root. */
  lemma {:induction false} LevelOfTree<D>(f: (D, D) -> D, xs: seq<D>, k: nat, t: nat, up: nat, level: seq<D>)
    requires |xs| == Pow2(k) && k == t + up && level == Level(f, xs, t)
    ensures |level| == Pow2(up) && Tree(f, level, up) == Tree(f, xs, k)
    decreases t
  {
    if t > 0 {
      Pow2Even(k);
      TreeByLevel(f, xs, k - 1);
      LevelOfTree(f, PairUp(f, xs), k - 1, t - 1, up, level);
    }
  }

  /** One step of a climb. */
  lemma FoldCons<D>(f: (D, D) -> D, cur: D, sibling: D, path: seq<D>, pos: nat, up: nat, next: D)
    requires up == pos / 2 && next == if pos % 2 == 0 then f(cur, sibling) else f(sibling, cur)
    ensures Fold(f, cur, [sibling] + path, pos) == Fold(f, next, path, up)
  {
    assert ([sibling] + path)[1..] == path;
  }

  lemma SiblingsCons<D>(f: (D, D) -> D, xs: seq<D>, i: nat, k: nat, up: nat, level: seq<D>)
    requires k > 0 && |xs| == Pow2(k) && i < |xs| && up == i / 2 && level == PairUp(f, xs)
    ensures Buddy(i) < |xs| && up < |level| == Pow2(k - 1)
    ensures Siblings(f, xs, i, k) == [xs[Buddy(i)]] + Siblings(f, level, up, k - 1)
  {
    Pow2Even(k);
  }

  lemma SlotParity(i: nat, up: nat)
    requires up == i / 2
    ensures i % 2 == 0 ==> i == 2 * up && Buddy(i) == 2 * up + 1
    ensures i % 2 != 0 ==> i == 2 * up + 1 && Buddy(i) == 2 * up
  {
  }

  /** The node above a slot is the hash of the pair there. */
  lemma PairAbove<D>(f: (D, D) -> D, xs: seq<D>, i: nat, up: nat, level: seq<D>)
    requires i < |xs| && 2 * up + 1 < |xs| && up == i / 2 && level == PairUp(f, xs)
    ensures Buddy(i) < |xs| && up < |level|
    ensures level[up] == if i % 2 == 0 then f(xs[i], xs[Buddy(i)]) else f(xs[Buddy(i)], xs[i])
  {
    SlotParity(i, up);
    PairUpAt(f, xs, up);
  }

  /** Folding a leaf with its siblings rebuilds the root of its mountain. */
  lemma {:induction false} FoldRebuilds<D>(f: (D, D) -> D, xs: seq<D>, i: nat, k: nat)
    requires |xs| == Pow2(k) && i < |xs|
    ensures Fold(f, xs[i], Siblings(f, xs, i, k), i) == Tree(f, xs, k)
    decreases k
  {
    if k > 0 {
      var up, level := i / 2, PairUp(f, xs);
      Pow2Even(k);
      SiblingsCons(f, xs, i, k, up, level);
      PairAbove(f, xs, i, up, level);
      FoldCons(f, xs[i], xs[Buddy(i)], Siblings(f, level, up, k - 1), i, up, level[up]);
      FoldRebuilds(f, level, up, k - 1);
      TreeByLevel(f, xs, k - 1);
    }
  }

  // ----- The greedy split equals the level-by-level one

  lemma {:induction false} FirstPeak<D>(f: (D, D) -> D, a: seq<D>, b: seq<D>, k: nat)
    requires |a| == Pow2(k) && |b| < Pow2(k)
    ensures PeaksByLevel(f, a + b) == [Tree(f, a, k)] + PeaksByLevel(f, b)
    decreases k
  {
    if k == 0 {
      assert a + b == a && PairUp(f, a) == [];
    } else {
      var top := [Tree(f, a, k)];
      Pow2Even(k);
      PairUpConcat(f, a, b);
      FirstPeak(f, PairUp(f, a), PairUp(f, b), k - 1);
      TreeByLevel(f, a, k - 1);
      assert UnpairedLast(a + b) == UnpairedLast(b);
      if b == [] {
        assert PeaksByLevel(f, PairUp(f, b)) == [];
      } else {
        var rest := PeaksByLevel(f, PairUp(f, b));
        assert (top + rest) + UnpairedLast(b) == top + (rest + UnpairedLast(b));
      }
    }
  }

  /** The code's greedy peaks are the unpaired nodes of the levels. */
  lemma {:induction false} PeaksAgree<D>(f: (D, D) -> D, xs: seq<D>)
    ensures Peaks(f, xs) == PeaksByLevel(f, xs)
    decreases |xs|
  {
    if xs != [] {
      var size := FirstSize(|xs|);
      assert xs == xs[..size] + xs[size..];
      FirstPeak(f, xs[..size], xs[size..], Log2(|xs|));
      PeaksAgree(f, xs[size..]);
    }
  }

  lemma {:induction false} ProofInFirst<D>(f: (D, D) -> D, a: seq<D>, b: seq<D>, i: nat, k: nat)
    requires |a| == Pow2(k) && |b| < Pow2(k) && i < |a|
    ensures ProofByLevel(f, a + b, i) == Siblings(f, a, i, k)
    decreases k
  {
    if k > 0 {
      Pow2Even(k);
      PairUpConcat(f, a, b);
      ProofInFirst(f, PairUp(f, a), PairUp(f, b), i / 2, k - 1);
    }
  }

  /** Slots past an even boundary climb like slots counted from it. */
  lemma PastBoundary(m: nat, j: nat, i: nat)
    requires m % 2 == 0 && i == m + j
    ensures Buddy(i) == m + Buddy(j) && i / 2 == m / 2 + j / 2
  {
  }

  /** One step up from a node that has a buddy. */
  lemma Climb<D>(f: (D, D) -> D, xs: seq<D>, i: nat, sibling: D, up: seq<D>, slot: nat)
    requires i < |xs| && Buddy(i) < |xs| && xs[Buddy(i)] == sibling && PairUp(f, xs) == up && slot == i / 2
    ensures ProofByLevel(f, xs, i) == [sibling] + ProofByLevel(f, up, slot)
  {
  }

  lemma {:induction false} ProofInRest<D>(f: (D, D) -> D, a: seq<D>, b: seq<D>, j: nat, k: nat, i: nat)
    requires |a| == Pow2(k) && |b| < Pow2(k) && j < |b| && i == |a| + j
    ensures ProofByLevel(f, a + b, i) == ProofByLevel(f, b, j)
    decreases k
  {
    Pow2Even(k);
    PastBoundary(|a|, j, i);
    var x := Buddy(j);
    if x < |b| {
      var u, v := PairUp(f, a), PairUp(f, b);
      PairUpConcat(f, a, b);
      ProofInRest(f, u, v, j / 2, k - 1, i / 2);
      Climb(f, a + b, i, b[x], u + v, i / 2);
      Climb(f, b, j, b[x], v, j / 2);
    }
  }

  /** The code's proof, built inside one mountain, is the climb to an unpaired node. */
  lemma {:induction false} ProofAgrees<D>(f: (D, D) -> D, xs: seq<D>, i: nat)
    requires i < |xs|
    ensures ProofOf(f, xs, i) == ProofByLevel(f, xs, i)
    decreases |xs|
  {
    var size := FirstSize(|xs|);
    var a, b := xs[..size], xs[size..];
    assert xs == a + b && |a| == Pow2(Log2(|xs|)) && |b| < |a|;
    if i < size {
      ProofInFirst(f, a, b, i, Log2(|xs|));
    } else {
      var j: nat := i - size;
      ProofAgrees(f, b, j);
      ProofInRest(f, a, b, j, Log2(|xs|), i);
    }
  }

  /** A whole mountain in front of fewer leaves is the first mountain. */
  lemma PeaksOfMountain<D>(f: (D, D) -> D, a: seq<D>, b: seq<D>, k: nat)
    requires |a| == Pow2(k) && |b| < Pow2(k)
    ensures FirstSize(|a + b|) == |a| && Log2(|a + b|) == k
    ensures Peaks(f, a + b) == [Tree(f, a, k)] + Peaks(f, b)
  {
    Log2Unique(|a + b|, k);
    assert (a + b)[..|a|] == a && (a + b)[|a|..] == b;
  }

  // ----- Which bits of a slot a path reads

  /** The two parts are quotient and remainder by 2^n. */
  lemma {:induction false} BitsSplit(pos: nat, n: nat)
    ensures pos == HighBits(pos, n) * Pow2(n) + LowBits(pos, n) && LowBits(pos, n) < Pow2(n)
    decreases n
  {
    if n > 0 {
      BitsSplit(pos / 2, n - 1);
      Halves(HighBits(pos, n), n, HighBits(pos, n) * Pow2(n - 1));
    }
  }

  lemma {:induction false} SmallSlot(pos: nat, n: nat)
    requires pos < Pow2(n)
    ensures LowBits(pos, n) == pos
    decreases n
  {
    if n > 0 {
      SmallSlot(pos / 2, n - 1);
    }
  }

  /** A path of length n reads the n low bits of the slot. */
  lemma {:induction false} FoldLowBits<D>(f: (D, D) -> D, cur: D, path: seq<D>, pos: nat, q: nat, low: nat)
    requires pos == q * Pow2(|path|) + low
    ensures Fold(f, cur, path, pos) == Fold(f, cur, path, low)
    decreases |path|
  {
    if path != [] {
      var z := q * Pow2(|path| - 1);
      Halves(q, |path|, z);
      assert pos == low + 2 * z;
      SameParity(low, z, pos);
      var next := if pos % 2 == 0 then f(cur, path[0]) else f(path[0], cur);
      FoldLowBits(f, next, path[1..], pos / 2, q, low / 2);
    }
  }

  lemma Halves(q: nat, n: nat, z: nat)
    requires n > 0 && z == q * Pow2(n - 1)
    ensures q * Pow2(n) == 2 * z
  {
  }

  lemma SameParity(low: nat, z: nat, pos: nat)
    requires pos == low + 2 * z
    ensures pos % 2 == low % 2 && pos / 2 == low / 2 + z
  {
  }

  /** The first e steps of a climb, then the rest from the slot that is left. */
  lemma {:induction false} FoldInTwo<D>(f: (D, D) -> D, cur: D, path: seq<D>, e: nat, pos: nat, q: nat, low: nat)
    requires e <= |path| && pos == q * Pow2(e) + low && low < Pow2(e)
    ensures Fold(f, cur, path, pos) == Fold(f, Fold(f, cur, path[..e], pos), path[e..], q)
    decreases e
  {
    if e == 0 {
      assert path[..0] == [] && path[0..] == path;
    } else {
      var z := q * Pow2(e - 1);
      Halves(q, e, z);
      assert pos == low + 2 * z;
      SameParity(low, z, pos);
      var next := if pos % 2 == 0 then f(cur, path[0]) else f(path[0], cur);
      FoldInTwo(f, next, path[1..], e - 1, pos / 2, q, low / 2);
      assert path[1..][..e - 1] == path[..e][1..] && path[1..][e - 1..] == path[e..];
    }
  }

  /** A node `len` levels below the root folds up to it from any slot with its low bits. */
  lemma NodeFolds<D>(f: (D, D) -> D, xs: seq<D>, k: nat, len: nat, pos: nat, nodes: seq<D>, slot: nat)
    requires |xs| == Pow2(k) && len <= k && nodes == Level(f, xs, k - len) && slot == LowBits(pos, len)
    ensures slot < |nodes| == Pow2(len)
    ensures Fold(f, nodes[slot], Siblings(f, nodes, slot, len), pos) == Tree(f, xs, k)
  {
    LevelOfTree(f, xs, k, k - len, len, nodes);
    BitsSplit(pos, len);
    FoldRebuilds(f, nodes, slot, len);
    FoldLowBits(f, nodes[slot], Siblings(f, nodes, slot, len), pos, HighBits(pos, len), slot);
  }

  // ----- Places and blocks

  lemma LocateFirst(n: nat, i: nat, size: nat, p: Place)
    requires i < n && size == FirstSize(n) && i < size && p == Locate(n, i)
    ensures p.peak == 0 && p.local == i && p.height == Log2(n) && Pow2(p.height) == size
  {
  }

  lemma LocateRest(n: nat, i: nat, size: nat, p: Place, q: Place)
    requires i < n && size == FirstSize(n) <= i && p == Locate(n, i) && q == Locate(n - size, i - size)
    ensures p.local == q.local && p.height == q.height && p.peak == q.peak + 1
  {
  }

  lemma SizesCons(n: nat, first: nat, tail: seq<nat>)
    requires n > 0 && first == FirstSize(n) && tail == Sizes(n - first)
    ensures Sizes(n) == [first] + tail
  {
  }

  lemma {:induction false} PlaceInSizes(n: nat, i: nat, p: Place)
    requires i < n && p == Locate(n, i)
    ensures p.peak < |Sizes(n)| && Sizes(n)[p.peak] == Pow2(p.height)
    ensures i - p.local + Pow2(p.height) <= n && p.height <= Log2(n)
  {
    var size := FirstSize(n);
    SizesCons(n, size, Sizes(n - size));
    if i < size {
      LocateFirst(n, i, size, p);
    } else {
      var q := Locate(n - size, i - size);
      LocateRest(n, i, size, p, q);
      PlaceInSizes(n - size, i - size, q);
      Log2Monotone(n - size, n);
    }
  }

  /** The leaves of the mountain holding leaf `i`. */
  ghost function Block<D>(xs: seq<D>, i: nat): (b: seq<D>)
    requires i < |xs|
    ensures var p := Locate(|xs|, i); |b| == Pow2(p.height) && b[p.local] == xs[i]
  {
    var size := FirstSize(|xs|);
    if i < size then xs[..size] else Block(xs[size..], i - size)
  }

  lemma BlockInRest<D>(xs: seq<D>, i: nat, size: nat, rest: seq<D>)
    requires i < |xs| && size == FirstSize(|xs|) <= i && rest == xs[size..]
    ensures Block(xs, i) == Block(rest, i - size)
  {
  }

  /** Past the first mountain, block, peaks and proof are those of the rest. */
  lemma InTheRest<D>(f: (D, D) -> D, xs: seq<D>, i: nat, size: nat, rest: seq<D>)
    requires i < |xs| && size == FirstSize(|xs|) <= i && rest == xs[size..]
    ensures Block(xs, i) == Block(rest, i - size) && ProofOf(f, xs, i) == ProofOf(f, rest, i - size)
    ensures exists d :: Peaks(f, xs) == [d] + Peaks(f, rest)
  {
    assert Peaks(f, xs) == [Tree(f, xs[..size], Log2(|xs|))] + Peaks(f, rest);
  }

  /** The peak a leaf's place names is the tree over the block the leaf sits in. */
  lemma {:induction false} PeakOfPlace<D>(f: (D, D) -> D, xs: seq<D>, i: nat)
    requires i < |xs|
    ensures var p := Locate(|xs|, i);
      p.peak < |Peaks(f, xs)| && Peaks(f, xs)[p.peak] == Tree(f, Block(xs, i), p.height)
    decreases |xs|
  {
    var size, p := FirstSize(|xs|), Locate(|xs|, i);
    if i < size {
      LocateFirst(|xs|, i, size, p);
    } else {
      var rest := xs[size..];
      LocateRest(|xs|, i, size, p, Locate(|rest|, i - size));
      InTheRest(f, xs, i, size, rest);
      PeakOfPlace(f, rest, i - size);
    }
  }

  lemma {:induction false} ProofOfPlace<D>(f: (D, D) -> D, xs: seq<D>, i: nat)
    requires i < |xs|
    ensures var p := Locate(|xs|, i); ProofOf(f, xs, i) == Siblings(f, Block(xs, i), p.local, p.height)
    decreases |xs|
  {
    var size, p := FirstSize(|xs|), Locate(|xs|, i);
    if i < size {
      LocateFirst(|xs|, i, size, p);
    } else {
      var rest := xs[size..];
      LocateRest(|xs|, i, size, p, Locate(|rest|, i - size));
      InTheRest(f, xs, i, size, rest);
      ProofOfPlace(f, rest, i - size);
    }
  }

  /** A generated proof, folded from its leaf, gives exactly the peak its place names. */
  lemma ProofReachesPeak<D>(f: (D, D) -> D, xs: seq<D>, i: nat)
    requires i < |xs|
    ensures var p := Locate(|xs|, i);
      && |ProofOf(f, xs, i)| == p.height
      && p.peak < |Peaks(f, xs)|
      && Fold(f, xs[i], ProofOf(f, xs, i), p.local) == Peaks(f, xs)[p.peak]
  {
    var p := Locate(|xs|, i);
    PeakOfPlace(f, xs, i);
    ProofOfPlace(f, xs, i);
    FoldRebuilds(f, Block(xs, i), p.local, p.height);
  }

  // ----- The split is the binary expansion of the leaf count

  function Sum(ns: seq<nat>): nat {
    if ns == [] then 0 else ns[0] + Sum(ns[1..])
  }

  ghost predicate IsPow2(n: nat) {
    exists k: nat :: n == Pow2(k)
  }

  ghost predicate DecreasingPowers(ns: seq<nat>) {
    && (forall j | 0 <= j < |ns| :: IsPow2(ns[j]))
    && (forall j | 0 < j < |ns| :: ns[j] < ns[j - 1])
  }

  /** The split writes `n` in binary: strictly decreasing powers of two that sum to `n`. */
  lemma {:induction false} SizesAreBinaryDigits(n: nat)
    ensures DecreasingPowers(Sizes(n)) && Sum(Sizes(n)) == n
  {
    if n > 0 {
      SizesAreBinaryDigits(n - FirstSize(n));
      assert IsPow2(FirstSize(n));
    }
  }

  lemma {:induction false} DecreasingPowersBound(ns: seq<nat>, k: nat)
    requires DecreasingPowers(ns) && (ns != [] ==> ns[0] < Pow2(k))
    ensures Sum(ns) < Pow2(k)
    decreases |ns|
  {
    if ns != [] {
      assert IsPow2(ns[0]);
      var j: nat :| ns[0] == Pow2(j);
      if k <= j {
        Pow2Monotone(k, j);
      }
      DecreasingPowersBound(ns[1..], j);
      Pow2Monotone(j + 1, k);
    }
  }

  /** No other list of strictly decreasing powers of two sums to `n`. */
  lemma {:induction false} SizesUnique(n: nat, ns: seq<nat>)
    requires DecreasingPowers(ns) && Sum(ns) == n
    ensures ns == Sizes(n)
    decreases |ns|
  {
    if ns != [] {
      assert IsPow2(ns[0]);
      var k: nat :| ns[0] == Pow2(k);
      DecreasingPowersBound(ns[1..], k);
      Log2Unique(n, k);
      SizesUnique(n - ns[0], ns[1..]);
    }
  }

  /** 2^(k-1), .., 2, 1. */
  function PowersBelow(k: nat): (ns: seq<nat>)
    ensures |ns| == k && forall j | 0 <= j < k :: ns[j] == Pow2(k - 1 - j)
  {
    if k == 0 then [] else [Pow2(k - 1)] + PowersBelow(k - 1)
  }

  function Doubles(ns: seq<nat>): (ds: seq<nat>)
    ensures |ds| == |ns| && forall j | 0 <= j < |ns| :: ds[j] == 2 * ns[j]
  {
    seq(|ns|, j requires 0 <= j < |ns| => 2 * ns[j])
  }

  lemma DoublesAppend(ns: seq<nat>, x: nat, y: nat)
    requires y == 2 * x
    ensures Doubles(ns + [x]) == Doubles(ns) + [y]
  {
  }

  lemma DoublesOfPowers(ns: seq<nat>, k: nat)
    ensures Doubles(ns + PowersBelow(k)) + [1] == Doubles(ns) + PowersBelow(k + 1)
  {
  }

  lemma FirstSizeOfDouble(m: nat, b: nat, n: nat)
    requires m > 0 && b < 2 && n == 2 * m + b
    ensures FirstSize(n) == 2 * FirstSize(m)
  {
    Log2Unique(n, Log2(m) + 1);
  }

  /** Twice the leaves, twice every mountain; one leaf more is a mountain of its own. */
  lemma {:induction false} SizesOfDouble(m: nat, b: nat, n: nat)
    requires b < 2 && n == 2 * m + b
    ensures Sizes(n) == Doubles(Sizes(m)) + if b == 1 then [1] else []
    decreases m
  {
    if m == 0 {
      if b == 1 {
        Log2Unique(1, 0);
        assert FirstSize(1) == 1 && Sizes(0) == [];
      }
    } else {
      var first, rest := FirstSize(m), m - FirstSize(m);
      FirstSizeOfDouble(m, b, n);
      SizesOfDouble(rest, b, n - 2 * first);
      DoublesOfFirst(first, Sizes(rest));
    }
  }

  lemma DoublesOfFirst(x: nat, ns: seq<nat>)
    ensures Doubles([x] + ns) == [2 * x] + Doubles(ns)
  {
  }

  lemma NextOfEven(m: nat, n: nat)
    requires n == 2 * m
    ensures Sizes(n + 1) == Sizes(n) + [1]
  {
    SizesOfDouble(m, 0, n);
    SizesOfDouble(m, 1, n + 1);
  }

  lemma NextOfOdd(m: nat, n: nat, k: nat, above: seq<nat>)
    requires n == 2 * m + 1 && Sizes(m) == above + PowersBelow(k) && Sizes(m + 1) == above + [Pow2(k)]
    ensures Sizes(n) == Doubles(above) + PowersBelow(k + 1)
    ensures Sizes(n + 1) == Doubles(above) + [Pow2(k + 1)]
  {
    SizesOfDouble(m, 1, n);
    SizesOfDouble(m + 1, 0, n + 1);
    DoublesOfPowers(above, k);
    DoublesAppend(above, Pow2(k), Pow2(k + 1));
  }

  lemma {:induction false} SizesOfNext(n: nat) returns (kept: seq<nat>)
    ensures Sizes(n) == kept + PowersBelow(TrailingOnes(n))
    ensures Sizes(n + 1) == kept + [Pow2(TrailingOnes(n))]
  {
    var m := n / 2;
    if n % 2 == 0 {
      kept := Sizes(n);
      NextOfEven(m, n);
      assert PowersBelow(0) == [] && kept + [] == kept;
    } else {
      var above := SizesOfNext(m);
      kept := Doubles(above);
      NextOfOdd(m, n, TrailingOnes(m), above);
    }
  }

  /**
    The carry of an append, in sizes: with k trailing one bits the last k mountains
    have sizes 2^(k-1), .., 2, 1, and one mountain of size 2^k replaces them all.
   */
  lemma SizesCarry(n: nat)
    ensures var k, ns := TrailingOnes(n), Sizes(n);
      && k <= |ns|
      && ns[|ns| - k..] == PowersBelow(k)
      && Sizes(n + 1) == ns[..|ns| - k] + [Pow2(k)]
  {
    var kept := SizesOfNext(n);
    assert (kept + PowersBelow(TrailingOnes(n)))[..|kept|] == kept;
  }

  /** There is one peak for each mountain of the split. */
  lemma {:induction false} PeakCount<D>(f: (D, D) -> D, xs: seq<D>)
    ensures |Peaks(f, xs)| == |Sizes(|xs|)|
    decreases |xs|
  {
    if xs != [] {
      PeakCount(f, xs[FirstSize(|xs|)..]);
    }
  }

  /** The sum of the first `j` sizes: where mountain `j` starts. */
  function Offset(ns: seq<nat>, j: nat): nat
    requires j <= |ns|
  {
    if j == 0 then 0 else ns[0] + Offset(ns[1..], j - 1)
  }

  lemma OffsetCons(first: nat, tail: seq<nat>, j: nat)
    requires j <= |tail|
    ensures Offset([first] + tail, j + 1) == first + Offset(tail, j)
  {
    assert ([first] + tail)[1..] == tail;
  }

  lemma {:induction false} PlaceStart(n: nat, i: nat, p: Place)
    requires i < n && p == Locate(n, i)
    ensures p.peak < |Sizes(n)| && Offset(Sizes(n), p.peak) == i - p.local
  {
    var first := FirstSize(n);
    var tail := Sizes(n - first);
    SizesCons(n, first, tail);
    if i < first {
      LocateFirst(n, i, first, p);
    } else {
      var q := Locate(n - first, i - first);
      LocateRest(n, i, first, p, q);
      PlaceStart(n - first, i - first, q);
      OffsetCons(first, tail, q.peak);
    }
  }

  /** Mountain `j` of the split covers leaf `i`. */
  predicate Covers(ns: seq<nat>, j: nat, i: nat)
    requires j < |ns|
  {
    Offset(ns, j) <= i < Offset(ns, j) + ns[j]
  }

  lemma CoversCons(first: nat, tail: seq<nat>, j: nat, i: nat)
    requires j < |tail|
    ensures Covers([first] + tail, j + 1, i) == (first <= i && Covers(tail, j, i - first))
  {
    OffsetCons(first, tail, j);
  }

  /** The place found for a leaf is the one mountain that covers it. */
  lemma {:induction false} PlaceIsUnique(n: nat, i: nat, p: Place, j: nat)
    requires i < n && p == Locate(n, i) && j < |Sizes(n)|
    ensures (j == p.peak) == Covers(Sizes(n), j, i)
  {
    var first := FirstSize(n);
    var tail := Sizes(n - first);
    SizesCons(n, first, tail);
    if j > 0 {
      CoversCons(first, tail, j - 1, i);
    }
    if i < first {
      LocateFirst(n, i, first, p);
    } else {
      var q := Locate(n - first, i - first);
      LocateRest(n, i, first, p, q);
      if j > 0 {
        PlaceIsUnique(n - first, i - first, q, j - 1);
      }
    }
  }

  /** A multiple of a size is still one behind a larger mountain. */
  lemma MultipleBehind(before: nat, shift: nat, height: nat, top: nat, q: nat)
    requires top == shift + height && q == before + Pow2(shift)
    ensures q * Pow2(height) == before * Pow2(height) + Pow2(top)
  {
    Pow2Add(shift, height);
    Distribute(before, Pow2(shift), Pow2(height));
  }

  lemma Distribute(a: int, b: int, c: int)
    ensures (a + b) * c == a * c + b * c
  {
  }

  /** A mountain starts at a multiple of its own size. */
  lemma {:induction false} StartIsMultiple(n: nat, i: nat, p: Place) returns (q: nat)
    requires i < n && p == Locate(n, i)
    ensures i - p.local == q * Pow2(p.height)
  {
    var size := FirstSize(n);
    if i < size {
      LocateFirst(n, i, size, p);
      q := 0;
    } else {
      var rest := Locate(n - size, i - size);
      LocateRest(n, i, size, p, rest);
      var before := StartIsMultiple(n - size, i - size, rest);
      PlaceInSizes(n, i, p);
      var shift: nat := Log2(n) - p.height;
      q := before + Pow2(shift);
      MultipleBehind(before, shift, p.height, Log2(n), q);
    }
  }

  // ----- Proof persistence

  lemma {:induction false} ProofGrows<D>(f: (D, D) -> D, xs: seq<D>, zs: seq<D>, i: nat)
    requires i < |xs| && xs <= zs
    ensures ProofByLevel(f, xs, i) <= ProofByLevel(f, zs, i)
    decreases |xs|
  {
    if Buddy(i) < |xs| {
      PairUpPrefix(f, xs, zs);
      ProofGrows(f, PairUp(f, xs), PairUp(f, zs), i / 2);
    }
  }

  /** Whatever is appended later, an old proof is the beginning of the new one. */
  lemma ProofPersists<D>(f: (D, D) -> D, xs: seq<D>, ys: seq<D>, i: nat)
    requires i < |xs|
    ensures ProofOf(f, xs, i) <= ProofOf(f, xs + ys, i)
  {
    ProofAgrees(f, xs, i);
    ProofAgrees(f, xs + ys, i);
    ProofGrows(f, xs, xs + ys, i);
  }

  // ----- Append is a binary carry

  function TrailingOnes(n: nat): nat {
    if n % 2 == 0 then 0 else 1 + TrailingOnes(n / 2)
  }

  /** Fold the `k` rightmost peaks, from the right, into `node`. */
  function Carry<D>(f: (D, D) -> D, peaks: seq<D>, node: D, k: nat): (r: seq<D>)
    requires k <= |peaks|
    ensures |r| == |peaks| + 1 - k
    ensures r[..|peaks| - k] == peaks[..|peaks| - k]
  {
    if k == 0 then peaks + [node]
    else
      var last := |peaks| - 1;
      assert peaks[..last][..last - (k - 1)] == peaks[..|peaks| - k];
      Carry(f, peaks[..last], f(peaks[last], node), k - 1)
  }

  lemma AppendToEven<D>(f: (D, D) -> D, xs: seq<D>, leaf: D)
    requires |xs| % 2 == 0
    ensures PairUp(f, xs + [leaf]) == PairUp(f, xs)
  {
    PairUpConcat(f, xs, [leaf]);
  }

  lemma {:induction false} AppendToOdd<D>(f: (D, D) -> D, xs: seq<D>, leaf: D)
    requires |xs| % 2 == 1
    ensures PairUp(f, xs + [leaf]) == PairUp(f, xs) + [f(xs[|xs| - 1], leaf)]
    decreases |xs|
  {
    if |xs| == 1 {
      assert (xs + [leaf])[2..] == [];
    } else {
      var pair := [f(xs[0], xs[1])];
      AppendToOdd(f, xs[2..], leaf);
      assert (xs + [leaf])[2..] == xs[2..] + [leaf];
      assert PairUp(f, xs + [leaf]) == pair + PairUp(f, xs[2..] + [leaf]);
    }
  }

  lemma CarryStep<D>(f: (D, D) -> D, above: seq<D>, last: D, node: D, k: nat)
    requires k <= |above|
    ensures Carry(f, above + [last], node, k + 1) == Carry(f, above, f(last, node), k)
  {
    assert (above + [last])[..|above|] == above;
  }

  lemma TopOfEven<D>(f: (D, D) -> D, xs: seq<D>)
    requires |xs| % 2 == 0
    ensures PeaksByLevel(f, xs) == PeaksByLevel(f, PairUp(f, xs))
  {
  }

  lemma TopOfOdd<D>(f: (D, D) -> D, xs: seq<D>)
    requires |xs| % 2 == 1
    ensures PeaksByLevel(f, xs) == PeaksByLevel(f, PairUp(f, xs)) + [xs[|xs| - 1]]
  {
  }

  lemma {:induction false} AppendByLevel<D>(f: (D, D) -> D, xs: seq<D>, leaf: D)
    ensures TrailingOnes(|xs|) <= |PeaksByLevel(f, xs)|
    ensures PeaksByLevel(f, xs + [leaf]) == Carry(f, PeaksByLevel(f, xs), leaf, TrailingOnes(|xs|))
    decreases |xs|
  {
    if |xs| % 2 == 0 {
      AppendToEven(f, xs, leaf);
      TopOfEven(f, xs);
      TopOfOdd(f, xs + [leaf]);
    } else {
      var last, up := xs[|xs| - 1], PairUp(f, xs);
      AppendToOdd(f, xs, leaf);
      AppendByLevel(f, up, f(last, leaf));
      CarryStep(f, PeaksByLevel(f, up), last, leaf, TrailingOnes(|up|));
      TopOfOdd(f, xs);
      TopOfEven(f, xs + [leaf]);
    }
  }

  /** The new peaks are the old ones with the trailing mountains carried into the new leaf. */
  lemma AppendIsCarry<D>(f: (D, D) -> D, xs: seq<D>, leaf: D)
    ensures TrailingOnes(|xs|) <= |Peaks(f, xs)|
    ensures Peaks(f, xs + [leaf]) == Carry(f, Peaks(f, xs), leaf, TrailingOnes(|xs|))
  {
    PeaksAgree(f, xs);
    PeaksAgree(f, xs + [leaf]);
    AppendByLevel(f, xs, leaf);
  }
}
