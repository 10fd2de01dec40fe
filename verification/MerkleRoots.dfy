/**
  What a root says about its leaves: for one leaf count it fixes them up to a
  collision; across counts, exactly which ranges share a root, and exactly which
  counts can.
 */
module MerkleRoots {
  import opened Bytes
  import opened Mountains
  import opened MountainLaws
  import opened MerkleBinding

  // ----- Perfect trees of one height

  /** `x` is hashed while building the perfect tree over `xs`. */
  predicate TreeHashes(h: HashFn, xs: seq<Digest>, k: nat, x: seq<byte>)
    requires |xs| == Pow2(k)
    decreases k
  {
    && k > 0
    && var left, right := xs[..Pow2(k - 1)], xs[Pow2(k - 1)..];
       || x == FoldInput(Tree(Pairing(h), left, k - 1), Tree(Pairing(h), right, k - 1), 0)
       || TreeHashes(h, left, k - 1, x)
       || TreeHashes(h, right, k - 1, x)
  }

  /** Two different perfect trees of one height with the same root hash a collision. */
  function TreeCollision(h: HashFn, xs: seq<Digest>, ys: seq<Digest>, k: nat): (c: (seq<byte>, seq<byte>))
    requires |xs| == |ys| == Pow2(k) && xs != ys
    requires Tree(Pairing(h), xs, k) == Tree(Pairing(h), ys, k)
    ensures Collision(h, c) && TreeHashes(h, xs, k, c.0) && TreeHashes(h, ys, k, c.1)
    decreases k
  {
    if k == 0 then ([], [])
    else
      var half := Pow2(k - 1);
      var a, b: Digest := Tree(Pairing(h), xs[..half], k - 1), Tree(Pairing(h), xs[half..], k - 1);
      var c, d: Digest := Tree(Pairing(h), ys[..half], k - 1), Tree(Pairing(h), ys[half..], k - 1);
      if a + b != c + d then (a + b, c + d)
      else
        assert FoldInput(a, b, 0) == FoldInput(c, d, 0);
        FoldInputInjective(a, b, c, d, 0);
        assert xs == xs[..half] + xs[half..] && ys == ys[..half] + ys[half..];
        if xs[..half] != ys[..half] then TreeCollision(h, xs[..half], ys[..half], k - 1)
        else TreeCollision(h, xs[half..], ys[half..], k - 1)
  }

  /** `x` is hashed while building some mountain over `xs`. */
  ghost predicate PeaksHash(h: HashFn, xs: seq<Digest>, x: seq<byte>)
    decreases |xs|
  {
    && xs != []
    && var size := FirstSize(|xs|);
       TreeHashes(h, xs[..size], Log2(|xs|), x) || PeaksHash(h, xs[size..], x)
  }

  /** `x` is hashed while computing the root of `xs`. */
  ghost predicate RootHashes(h: HashFn, xs: seq<Digest>, x: seq<byte>) {
    PeaksHash(h, xs, x) || x == Flatten(Peaks(Pairing(h), xs))
  }

  // ----- Exactly when two roots are equal, for any two counts

  /**
    Mountain by mountain, the shorter one's leaves are the nodes of the taller one
    at its own height. Such ranges cannot be told apart by their roots.
   */
  ghost predicate SameUpToLevels<D>(f: (D, D) -> D, xs: seq<D>, ys: seq<D>)
    decreases |xs|
  {
    if xs == [] || ys == [] then xs == ys
    else
      var m, n := FirstSize(|xs|), FirstSize(|ys|);
      && SameMountain(f, xs[..m], Log2(|xs|), ys[..n], Log2(|ys|))
      && SameUpToLevels(f, xs[m..], ys[n..])
  }

  predicate SameMountain<D(==)>(f: (D, D) -> D, xs: seq<D>, k: nat, ys: seq<D>, l: nat) {
    if k <= l then xs == Level(f, ys, l - k) else ys == Level(f, xs, k - l)
  }

  lemma SameMountainSameTree<D>(f: (D, D) -> D, xs: seq<D>, k: nat, ys: seq<D>, l: nat)
    requires |xs| == Pow2(k) && |ys| == Pow2(l) && SameMountain(f, xs, k, ys, l)
    ensures Tree(f, xs, k) == Tree(f, ys, l)
  {
    if k <= l {
      LevelAt(f, ys, l, k, xs);
    } else {
      LevelAt(f, xs, k, l, ys);
    }
  }

  lemma LevelAt<D>(f: (D, D) -> D, tall: seq<D>, l: nat, k: nat, low: seq<D>)
    requires |tall| == Pow2(l) && k <= l && low == Level(f, tall, l - k)
    ensures |low| == Pow2(k) && Tree(f, low, k) == Tree(f, tall, l)
  {
    LevelOfTree(f, tall, l, l - k, k, low);
  }

  lemma {:induction false} SameUpToLevelsSamePeaks<D>(f: (D, D) -> D, xs: seq<D>, ys: seq<D>)
    requires SameUpToLevels(f, xs, ys)
    ensures Peaks(f, xs) == Peaks(f, ys)
    decreases |xs|
  {
    if xs != [] && ys != [] {
      var m, n := FirstSize(|xs|), FirstSize(|ys|);
      SameMountainSameTree(f, xs[..m], Log2(|xs|), ys[..n], Log2(|ys|));
      SameUpToLevelsSamePeaks(f, xs[m..], ys[n..]);
    }
  }

  /** Two trees with one root, cut to the height of the lower, and the inputs in which they differ there. */
  function MountainDivergence(h: HashFn, xs: seq<Digest>, k: nat, ys: seq<Digest>, l: nat): (c: (seq<byte>, seq<byte>))
    requires |xs| == Pow2(k) && |ys| == Pow2(l) && !SameMountain(Pairing(h), xs, k, ys, l)
    requires Tree(Pairing(h), xs, k) == Tree(Pairing(h), ys, l)
    ensures Collision(h, c) && TreeHashes(h, xs, k, c.0) && TreeHashes(h, ys, l, c.1)
  {
    if k <= l then
      LevelOfTree(Pairing(h), ys, l, l - k, k, Level(Pairing(h), ys, l - k));
      var c := TreeCollision(h, xs, Level(Pairing(h), ys, l - k), k);
      LevelHashes(h, ys, l, l - k, c.1);
      c
    else
      LevelOfTree(Pairing(h), xs, k, k - l, l, Level(Pairing(h), xs, k - l));
      var c := TreeCollision(h, Level(Pairing(h), xs, k - l), ys, l);
      LevelHashes(h, xs, k, k - l, c.0);
      c
  }

  /** What is hashed above a level is hashed in the whole tree. */
  lemma {:induction false} LevelHashes(h: HashFn, xs: seq<Digest>, k: nat, t: nat, x: seq<byte>)
    requires |xs| == Pow2(k) && t <= k && |Level(Pairing(h), xs, t)| == Pow2(k - t)
    requires TreeHashes(h, Level(Pairing(h), xs, t), k - t, x)
    ensures TreeHashes(h, xs, k, x)
    decreases t
  {
    if t > 0 {
      Pow2Even(k);
      LevelHashes(h, PairUp(Pairing(h), xs), k - 1, t - 1, x);
      OneLevelHashes(h, xs, k - 1, x);
    }
  }

  lemma {:induction false} OneLevelHashes(h: HashFn, xs: seq<Digest>, k: nat, x: seq<byte>)
    requires |xs| == Pow2(k + 1) && |PairUp(Pairing(h), xs)| == Pow2(k)
    requires TreeHashes(h, PairUp(Pairing(h), xs), k, x)
    ensures TreeHashes(h, xs, k + 1, x)
  {
    var f, half := Pairing(h), Pow2(k);
    var left, right := xs[..half], xs[half..];
    Pow2Even(k);
    assert xs == left + right;
    PairUpConcat(f, left, right);
    var up, quarter := PairUp(f, xs), Pow2(k - 1);
    assert up[..quarter] == PairUp(f, left) && up[quarter..] == PairUp(f, right);
    TreeByLevel(f, left, k - 1);
    TreeByLevel(f, right, k - 1);
    if TreeHashes(h, PairUp(f, left), k - 1, x) {
      OneLevelHashes(h, left, k - 1, x);
    } else if TreeHashes(h, PairUp(f, right), k - 1, x) {
      OneLevelHashes(h, right, k - 1, x);
    }
  }

  /** The first mountains that share a peak without being levels of one tree. */
  ghost function PeaksDivergence(h: HashFn, xs: seq<Digest>, ys: seq<Digest>): (c: (seq<byte>, seq<byte>))
    requires Peaks(Pairing(h), xs) == Peaks(Pairing(h), ys) && !SameUpToLevels(Pairing(h), xs, ys)
    ensures Collision(h, c) && PeaksHash(h, xs, c.0) && PeaksHash(h, ys, c.1)
    decreases |xs|
  {
    var f := Pairing(h);
    var ps, qs := Peaks(f, xs), Peaks(f, ys);
    var m, n := FirstSize(|xs|), FirstSize(|ys|);
    assert ps[0] == qs[0] && ps[1..] == qs[1..];
    assert ps[1..] == Peaks(f, xs[m..]) && qs[1..] == Peaks(f, ys[n..]);
    if !SameMountain(f, xs[..m], Log2(|xs|), ys[..n], Log2(|ys|)) then
      MountainDivergence(h, xs[..m], Log2(|xs|), ys[..n], Log2(|ys|))
    else PeaksDivergence(h, xs[m..], ys[n..])
  }

  /** The inputs in which the computations of two roots part. */
  ghost function RootDivergence(h: HashFn, xs: seq<Digest>, ys: seq<Digest>): (c: (seq<byte>, seq<byte>))
    ensures Collision(h, c) ==> RootHashes(h, xs, c.0) && RootHashes(h, ys, c.1)
  {
    var f := Pairing(h);
    if Peaks(f, xs) != Peaks(f, ys) then (Flatten(Peaks(f, xs)), Flatten(Peaks(f, ys)))
    else if !SameUpToLevels(f, xs, ys) then PeaksDivergence(h, xs, ys)
    else ([], [])
  }

  /**
    Two ranges, of whatever counts, have one root exactly when each pair of
    mountains is two levels of one tree, or the hash inputs in which the two
    computations part collide; an empty range, whose root is all zero and hashes
    nothing, shares it exactly with a range whose peaks hash to zero.
   */
  lemma RootsEqualExactly(h: HashFn, xs: seq<Digest>, ys: seq<Digest>)
    ensures Root(h, xs) == Root(h, ys)
       <==> SameUpToLevels(Pairing(h), xs, ys)
            || if xs != [] && ys != [] then Collision(h, RootDivergence(h, xs, ys))
               else h(Flatten(Peaks(Pairing(h), xs + ys))) == ZERO_DIGEST
  {
    if xs != [] && ys != [] {
      FilledRootsEqualExactly(h, xs, ys);
    } else {
      OneIsEmpty(xs, ys);
    }
  }

  lemma OneIsEmpty<D>(xs: seq<D>, ys: seq<D>)
    requires xs == [] || ys == []
    ensures xs + ys == if xs == [] then ys else xs
  {
  }

  lemma FilledRootsEqualExactly(h: HashFn, xs: seq<Digest>, ys: seq<Digest>)
    requires xs != [] && ys != []
    ensures Root(h, xs) == Root(h, ys)
       <==> SameUpToLevels(Pairing(h), xs, ys) || Collision(h, RootDivergence(h, xs, ys))
  {
    var ps, qs := Peaks(Pairing(h), xs), Peaks(Pairing(h), ys);
    if SameUpToLevels(Pairing(h), xs, ys) {
      SameUpToLevelsSamePeaks(Pairing(h), xs, ys);
    }
    if ps != qs && Flatten(ps) == Flatten(qs) {
      FlattenInjective(ps, qs);
    }
  }

  lemma {:induction false} SameCountSame<D>(f: (D, D) -> D, xs: seq<D>, ys: seq<D>)
    requires |xs| == |ys| && SameUpToLevels(f, xs, ys)
    ensures xs == ys
    decreases |xs|
  {
    if xs != [] {
      var m := FirstSize(|xs|);
      SameCountSame(f, xs[m..], ys[m..]);
      assert xs == xs[..m] + xs[m..] && ys == ys[..m] + ys[m..];
    }
  }

  /** For one leaf count a root fixes every leaf, or computing the two roots hashes a collision. */
  ghost function RootCollision(h: HashFn, xs: seq<Digest>, ys: seq<Digest>): (c: (seq<byte>, seq<byte>))
    requires |xs| == |ys| && xs != ys && Root(h, xs) == Root(h, ys)
    ensures Collision(h, c) && RootHashes(h, xs, c.0) && RootHashes(h, ys, c.1)
  {
    if SameUpToLevels(Pairing(h), xs, ys) then
      SameCountSame(Pairing(h), xs, ys);
      assert false;
      ([], [])
    else
      RootsEqualExactly(h, xs, ys);
      RootDivergence(h, xs, ys)
  }

  /** Hashing a level of an even number of nodes leaves the root as it is. */
  lemma EvenLevelKeepsRoot(h: HashFn, xs: seq<Digest>)
    requires |xs| % 2 == 0
    ensures Root(h, xs) == Root(h, PairUp(Pairing(h), xs))
  {
    PeaksAgree(Pairing(h), xs);
    PeaksAgree(Pairing(h), PairUp(Pairing(h), xs));
    TopOfEven(Pairing(h), xs);
  }

  /**
    Ranges with different numbers of mountains share a root exactly when their
    peaks collide, or hash to zero beside an empty range.
   */
  lemma DifferentMountainCounts(h: HashFn, xs: seq<Digest>, ys: seq<Digest>)
    requires |Sizes(|xs|)| != |Sizes(|ys|)|
    ensures Root(h, xs) == Root(h, ys)
       <==> if xs != [] && ys != [] then Collision(h, (Flatten(Peaks(Pairing(h), xs)), Flatten(Peaks(Pairing(h), ys))))
            else h(Flatten(Peaks(Pairing(h), xs + ys))) == ZERO_DIGEST
  {
    PeakCount(Pairing(h), xs);
    PeakCount(Pairing(h), ys);
    if xs == [] || ys == [] {
      OneIsEmpty(xs, ys);
    }
  }

  /** Two mountains of any two heights with one root: two levels of one tree. */
  lemma TwinMountains<D>(f: (D, D) -> D, d: D, k: nat, l: nat) returns (a: seq<D>, b: seq<D>)
    ensures |a| == Pow2(k) && |b| == Pow2(l) && Tree(f, a, k) == Tree(f, b, l)
  {
    var top := if k <= l then l else k;
    var block := seq(Pow2(top), _ => d);
    a, b := Level(f, block, top - k), Level(f, block, top - l);
    LevelOfTree(f, block, top, top - k, k, a);
    LevelOfTree(f, block, top, top - l, l, b);
  }

  /** Ranges of `m` and `n` leaves with the same peaks. */
  lemma {:induction false} Twins<D>(f: (D, D) -> D, d: D, m: nat, n: nat) returns (xs: seq<D>, ys: seq<D>)
    requires |Sizes(m)| == |Sizes(n)|
    ensures |xs| == m && |ys| == n && Peaks(f, xs) == Peaks(f, ys)
    decreases m
  {
    if m == 0 || n == 0 {
      xs, ys := [], [];
    } else {
      var a, b := TwinMountains(f, d, Log2(m), Log2(n));
      var restX, restY := Twins(f, d, m - FirstSize(m), n - FirstSize(n));
      xs, ys := a + restX, b + restY;
      PeaksOfMountain(f, a, restX, Log2(m));
      PeaksOfMountain(f, b, restY, Log2(n));
    }
  }

  /** Some ranges of these two sizes have one root. */
  ghost predicate CanShareRoot(h: HashFn, m: nat, n: nat) {
    exists xs: seq<Digest>, ys: seq<Digest> :: |xs| == m && |ys| == n && Root(h, xs) == Root(h, ys)
  }

  /** A hash that tells inputs of one length from all others. */
  function LengthHash(length: nat): HashFn {
    (x: seq<byte>) => if |x| == length then seq(32, _ => 1) else ZERO_DIGEST
  }

  lemma TwinsShareRoot(h: HashFn, m: nat, n: nat)
    requires |Sizes(m)| == |Sizes(n)|
    ensures CanShareRoot(h, m, n)
  {
    var xs, ys := Twins(Pairing(h), ZERO_DIGEST, m, n);
    assert Root(h, xs) == Root(h, ys);
  }

  /** Hashing `length` bytes gives a root that no other length gives, and no empty range has. */
  lemma LengthHashRoot(length: nat, xs: seq<Digest>)
    requires length > 0
    ensures Root(LengthHash(length), xs)[0] == if 32 * |Sizes(|xs|)| == length then 1 else 0
  {
    PeakCount(Pairing(LengthHash(length)), xs);
  }

  lemma LengthHashTellsApart(m: nat, n: nat)
    requires |Sizes(m)| != |Sizes(n)|
    ensures !CanShareRoot(LengthHash(32 * |Sizes(if m > 0 then m else n)|), m, n)
  {
    var length := 32 * |Sizes(if m > 0 then m else n)|;
    forall xs: seq<Digest>, ys: seq<Digest> | |xs| == m && |ys| == n
      ensures Root(LengthHash(length), xs) != Root(LengthHash(length), ys)
    {
      LengthHashRoot(length, xs);
      LengthHashRoot(length, ys);
    }
  }

  /** Two counts can share a root under every hash exactly when they have equally many mountains. */
  lemma CountsShareRootsExactly(m: nat, n: nat)
    ensures (forall h: HashFn :: CanShareRoot(h, m, n)) <==> |Sizes(m)| == |Sizes(n)|
  {
    if |Sizes(m)| == |Sizes(n)| {
      forall h: HashFn ensures CanShareRoot(h, m, n) {
        TwinsShareRoot(h, m, n);
      }
    } else {
      LengthHashTellsApart(m, n);
    }
  }
}
