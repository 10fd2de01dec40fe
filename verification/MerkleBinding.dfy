/**
  The hashed range: how peaks become a root, which proofs are accepted, and what
  acceptance and equal roots say about the leaves. The hash is arbitrary, so
  binding is stated constructively: a function computes two colliding inputs.
 */
module MerkleBinding {
  import opened Bytes
  import opened Mountains
  import opened MountainLaws

  /** `hash_pair`: the hash of two digests side by side. */
  function Pairing(h: HashFn): (Digest, Digest) -> Digest {
    (a: Digest, b: Digest) => h(a + b)
  }

  function Flatten(ds: seq<Digest>): (bs: seq<byte>)
    ensures |bs| == 32 * |ds|
  {
    if ds == [] then [] else ds[0] + Flatten(ds[1..])
  }

  /** Bagging the peaks: all zero when there are none. */
  function RootOf(h: HashFn, peaks: seq<Digest>): Digest {
    if peaks == [] then ZERO_DIGEST else h(Flatten(peaks))
  }

  ghost function Root(h: HashFn, leaves: seq<Digest>): Digest {
    RootOf(h, Peaks(Pairing(h), leaves))
  }

  /** The bytes are the digests side by side, the first digest first. */
  predicate SideBySide(bs: seq<byte>, ds: seq<Digest>) {
    |bs| == 32 * |ds| && forall i | 0 <= i < |ds| :: bs[32 * i..32 * i + 32] == ds[i]
  }

  lemma {:induction false} FlattenAt(ds: seq<Digest>, i: nat)
    requires i < |ds|
    ensures Flatten(ds)[32 * i..32 * i + 32] == ds[i]
  {
    var rest := Flatten(ds[1..]);
    assert Flatten(ds) == ds[0] + rest;
    if i > 0 {
      FlattenAt(ds[1..], i - 1);
      assert Flatten(ds)[32 * i..32 * i + 32] == rest[32 * (i - 1)..32 * (i - 1) + 32];
    }
  }

  /** One text of bytes, and no other, has the digests as its blocks of 32, in order. */
  lemma FlattenExactly(bs: seq<byte>, ds: seq<Digest>)
    ensures SideBySide(bs, ds) <==> bs == Flatten(ds)
  {
    forall i | 0 <= i < |ds| ensures Flatten(ds)[32 * i..32 * i + 32] == ds[i] {
      FlattenAt(ds, i);
    }
    if SideBySide(bs, ds) {
      BlocksDecide(bs, Flatten(ds), ds);
    }
  }

  lemma BlocksDecide(a: seq<byte>, b: seq<byte>, ds: seq<Digest>)
    requires SideBySide(a, ds) && SideBySide(b, ds)
    ensures a == b
  {
    forall k | 0 <= k < |a| ensures a[k] == b[k] {
      var i := k / 32;
      assert a[k] == a[32 * i..32 * i + 32][k - 32 * i] == ds[i][k - 32 * i];
      assert b[k] == b[32 * i..32 * i + 32][k - 32 * i];
    }
  }

  /** What a root is: the hash of the peaks in order, or all zeros without any. */
  ghost predicate IsRoot(h: HashFn, peaks: seq<Digest>, root: Digest) {
    if peaks == [] then forall i | 0 <= i < 32 :: root[i] == 0
    else exists bs :: SideBySide(bs, peaks) && root == h(bs)
  }

  lemma RootExactly(h: HashFn, peaks: seq<Digest>, root: Digest)
    ensures IsRoot(h, peaks, root) <==> root == RootOf(h, peaks)
  {
    if peaks == [] {
      assert ZERO_DIGEST == seq(32, _ => 0);
    } else {
      FlattenExactly(Flatten(peaks), peaks);
      forall bs | SideBySide(bs, peaks) ensures bs == Flatten(peaks) {
        FlattenExactly(bs, peaks);
      }
    }
  }

  /** The peaks with the one above leaf `i` replaced. */
  ghost function WithPeak(h: HashFn, leaves: seq<Digest>, i: nat, d: Digest): (ps: seq<Digest>)
    requires i < |leaves|
    ensures var p := Locate(|leaves|, i); p.peak < |ps| == |Peaks(Pairing(h), leaves)| && ps[p.peak] == d
  {
    var p := Locate(|leaves|, i);
    PeakOfPlace(Pairing(h), leaves, i);
    Peaks(Pairing(h), leaves)[p.peak := d]
  }

  /** The peaks with the one above leaf `i` replaced by what `leaf` and `path` fold to. */
  ghost function ClaimedPeaks(h: HashFn, leaves: seq<Digest>, leaf: Digest, path: seq<Digest>, i: nat)
    : (ps: seq<Digest>)
    requires i < |leaves|
    ensures var p := Locate(|leaves|, i);
      && p.peak < |ps| == |Peaks(Pairing(h), leaves)|
      && ps[p.peak] == Fold(Pairing(h), leaf, path, p.local)
  {
    WithPeak(h, leaves, i, Fold(Pairing(h), leaf, path, Locate(|leaves|, i).local))
  }

  /** `leaf` with `path` is accepted at index `i` against the root `expected`. */
  ghost predicate Accepts(h: HashFn, leaves: seq<Digest>, leaf: Digest, path: seq<Digest>, i: nat, expected: Digest) {
    i < |leaves| && RootOf(h, ClaimedPeaks(h, leaves, leaf, path, i)) == expected
  }

  // ----- The first ranges, hash by hash

  lemma TwoPaired(f: (Digest, Digest) -> Digest, a: Digest, b: Digest)
    ensures PairUp(f, [a]) == [] && PairUp(f, [a, b]) == [f(a, b)]
  {
    PairUpCons(f, a, b, []);
    assert [a, b] + [] == [a, b];
  }

  lemma FourPaired(f: (Digest, Digest) -> Digest, a: Digest, b: Digest, c: Digest, d: Digest)
    ensures PairUp(f, [a, b, c]) == [f(a, b)]
    ensures PairUp(f, [a, b, c, d]) == [f(a, b), f(c, d)]
  {
    TwoPaired(f, c, d);
    assert [a, b, c][2..] == [c] && [a, b, c, d][2..] == [c, d];
  }

  lemma OnePeak(f: (Digest, Digest) -> Digest, x: Digest)
    ensures PeaksByLevel(f, [x]) == [x]
  {
    assert PairUp(f, [x]) == [];
  }

  lemma SmallPeaks(f: (Digest, Digest) -> Digest, a: Digest, b: Digest, c: Digest, d: Digest)
    ensures Peaks(f, [a]) == [a]
    ensures Peaks(f, [a, b]) == [f(a, b)]
    ensures Peaks(f, [a, b, c]) == [f(a, b), c]
    ensures Peaks(f, [a, b, c, d]) == [f(f(a, b), f(c, d))]
  {
    TwoPaired(f, a, b);
    FourPaired(f, a, b, c, d);
    TwoPaired(f, f(a, b), f(c, d));
    PeaksAgree(f, [a]);
    PeaksAgree(f, [a, b]);
    PeaksAgree(f, [a, b, c]);
    PeaksAgree(f, [a, b, c, d]);
    OnePeak(f, a);
    OnePeak(f, f(a, b));
    OnePeak(f, f(f(a, b), f(c, d)));
    assert PeaksByLevel(f, [f(a, b), f(c, d)]) == [f(f(a, b), f(c, d))];
  }

  lemma OneDigest(d: Digest)
    ensures Flatten([d]) == d
  {
    assert [d][1..] == [] && d + [] == d;
  }

  lemma TwoDigests(c: Digest, d: Digest)
    ensures Flatten([c, d]) == c + d
  {
    OneDigest(d);
    assert [c, d][1..] == [d];
  }

  /** The roots of the first four ranges, written out: left before right, and the larger mountain first. */
  lemma SmallRoots(h: HashFn, a: Digest, b: Digest, c: Digest, d: Digest)
    ensures Root(h, [a]) == h(a)
    ensures Root(h, [a, b]) == h(h(a + b))
    ensures Root(h, [a, b, c]) == h(h(a + b) + c)
    ensures Root(h, [a, b, c, d]) == h(h(h(a + b) + h(c + d)))
  {
    SmallPeaks(Pairing(h), a, b, c, d);
    OneDigest(a);
    OneDigest(h(a + b));
    TwoDigests(h(a + b), c);
    OneDigest(h(h(a + b) + h(c + d)));
  }

  /** The proofs over four leaves: the neighbour first, then the node across. */
  lemma SmallProofs(h: HashFn, a: Digest, b: Digest, c: Digest, d: Digest)
    ensures var f := Pairing(h);
      && ProofOf(f, [a, b, c, d], 0) == [b, h(c + d)]
      && ProofOf(f, [a, b, c, d], 1) == [a, h(c + d)]
      && ProofOf(f, [a, b, c, d], 2) == [d, h(a + b)]
      && ProofOf(f, [a, b, c, d], 3) == [c, h(a + b)]
      && ProofOf(f, [a, b, c], 2) == []
  {
    var f := Pairing(h);
    FourPaired(f, a, b, c, d);
    TwoPaired(f, f(a, b), f(c, d));
    ProofAgrees(f, [a, b, c, d], 0);
    ProofAgrees(f, [a, b, c, d], 1);
    ProofAgrees(f, [a, b, c, d], 2);
    ProofAgrees(f, [a, b, c, d], 3);
    ProofAgrees(f, [a, b, c], 2);
    var top := [f(a, b), f(c, d)];
    assert ProofByLevel(f, top, 0) == [f(c, d)] && ProofByLevel(f, top, 1) == [f(a, b)] by {
      assert ProofByLevel(f, [f(f(a, b), f(c, d))], 0) == [];
    }
  }

  // ----- Completeness

  /** Every generated proof is accepted for its leaf, and is no longer than log2 of the leaf count. */
  lemma InclusionComplete(h: HashFn, leaves: seq<Digest>, i: nat)
    requires i < |leaves|
    ensures Accepts(h, leaves, leaves[i], ProofOf(Pairing(h), leaves, i), i, Root(h, leaves))
    ensures |ProofOf(Pairing(h), leaves, i)| == Locate(|leaves|, i).height <= Log2(|leaves|)
  {
    ProofReachesPeak(Pairing(h), leaves, i);
    PlaceInSizes(|leaves|, i, Locate(|leaves|, i));
    var peaks := Peaks(Pairing(h), leaves);
    assert ClaimedPeaks(h, leaves, leaves[i], ProofOf(Pairing(h), leaves, i), i) == peaks;
  }

  // ----- Binding of proofs

  /** The bytes hashed when `cur` meets `sibling` at slot `pos`. */
  function FoldInput(cur: Digest, sibling: Digest, pos: nat): seq<byte> {
    if pos % 2 == 0 then cur + sibling else sibling + cur
  }

  /** `x` is hashed while folding `cur` up along `path`. */
  predicate FoldHashes(h: HashFn, cur: Digest, path: seq<Digest>, pos: nat, x: seq<byte>)
    decreases |path|
  {
    && path != []
    && var input := FoldInput(cur, path[0], pos);
       x == input || FoldHashes(h, h(input), path[1..], pos / 2, x)
  }

  lemma FoldInputInjective(a: Digest, s: Digest, b: Digest, t: Digest, pos: nat)
    requires FoldInput(a, s, pos) == FoldInput(b, t, pos)
    ensures a == b && s == t
  {
    var x, y := FoldInput(a, s, pos), FoldInput(b, t, pos);
    assert x[..32] == y[..32] && x[32..] == y[32..];
    if pos % 2 == 0 {
      assert x[..32] == a && y[..32] == b && x[32..] == s && y[32..] == t;
    } else {
      assert x[..32] == s && y[..32] == t && x[32..] == a && y[32..] == b;
    }
  }

  /** Two different ways up to the same digest meet in two inputs that collide. */
  function FoldCollision(h: HashFn, a: Digest, p: seq<Digest>, b: Digest, q: seq<Digest>, pos: nat)
    : (c: (seq<byte>, seq<byte>))
    requires |p| == |q| && (a, p) != (b, q)
    requires Fold(Pairing(h), a, p, pos) == Fold(Pairing(h), b, q, pos)
    ensures Collision(h, c) && FoldHashes(h, a, p, pos, c.0) && FoldHashes(h, b, q, pos, c.1)
    decreases |p|
  {
    var x, y := FoldInput(a, p[0], pos), FoldInput(b, q[0], pos);
    if x != y && h(x) == h(y) then (x, y)
    else
      assert (h(x), p[1..]) != (h(y), q[1..]) by {
        if x == y {
          FoldInputInjective(a, p[0], b, q[0], pos);
          assert p == [p[0]] + p[1..] && q == [q[0]] + q[1..];
        }
      }
      FoldCollision(h, h(x), p[1..], h(y), q[1..], pos / 2)
  }

  lemma {:induction false} FlattenInjective(ps: seq<Digest>, qs: seq<Digest>)
    requires |ps| == |qs| && Flatten(ps) == Flatten(qs)
    ensures ps == qs
  {
    if ps != [] {
      var x, y := Flatten(ps), Flatten(qs);
      assert x[..32] == ps[0] && y[..32] == qs[0];
      assert x[32..] == Flatten(ps[1..]) && y[32..] == Flatten(qs[1..]);
      FlattenInjective(ps[1..], qs[1..]);
    }
  }

  /** Two lists of equally many peaks with the same root are equal or their bytes collide. */
  lemma RootsOfPeaks(h: HashFn, ps: seq<Digest>, qs: seq<Digest>)
    requires |ps| == |qs| && RootOf(h, ps) == RootOf(h, qs)
    ensures ps == qs || Collision(h, (Flatten(ps), Flatten(qs)))
  {
    if ps != [] && Flatten(ps) == Flatten(qs) {
      FlattenInjective(ps, qs);
    }
  }

  /** `x` is hashed while checking `leaf` with `path` at index `i`. */
  ghost predicate OpeningHashes(h: HashFn, leaves: seq<Digest>, leaf: Digest, path: seq<Digest>, i: nat, x: seq<byte>)
    requires i < |leaves|
  {
    || FoldHashes(h, leaf, path, Locate(|leaves|, i).local, x)
    || x == Flatten(ClaimedPeaks(h, leaves, leaf, path, i))
  }

  /**
    Two different openings of one index, of equal length and accepted against one
    root, hash two different inputs to one digest: at the peaks or on the way up.
   */
  ghost function OpeningCollision(h: HashFn, leaves: seq<Digest>, i: nat, root: Digest,
                                  a: Digest, p: seq<Digest>, b: Digest, q: seq<Digest>)
    : (c: (seq<byte>, seq<byte>))
    requires |p| == |q| && (a, p) != (b, q)
    requires Accepts(h, leaves, a, p, i, root) && Accepts(h, leaves, b, q, i, root)
    ensures Collision(h, c)
    ensures OpeningHashes(h, leaves, a, p, i, c.0) && OpeningHashes(h, leaves, b, q, i, c.1)
  {
    var ps, qs := ClaimedPeaks(h, leaves, a, p, i), ClaimedPeaks(h, leaves, b, q, i);
    RootsOfPeaks(h, ps, qs);
    if ps != qs then (Flatten(ps), Flatten(qs))
    else FoldCollision(h, a, p, b, q, Locate(|leaves|, i).local)
  }

  /**
    A proof of the generated length that the forest's own root accepts is the
    generated one, or checking the two hashes a collision.
   */
  ghost function ForgeryCollision(h: HashFn, leaves: seq<Digest>, i: nat, leaf: Digest, path: seq<Digest>)
    : (c: (seq<byte>, seq<byte>))
    requires i < |leaves| && |path| == |ProofOf(Pairing(h), leaves, i)|
    requires Accepts(h, leaves, leaf, path, i, Root(h, leaves))
    requires leaf != leaves[i] || path != ProofOf(Pairing(h), leaves, i)
    ensures Collision(h, c)
    ensures OpeningHashes(h, leaves, leaf, path, i, c.0)
    ensures OpeningHashes(h, leaves, leaves[i], ProofOf(Pairing(h), leaves, i), i, c.1)
  {
    InclusionComplete(h, leaves, i);
    OpeningCollision(h, leaves, i, Root(h, leaves), leaf, path, leaves[i], ProofOf(Pairing(h), leaves, i))
  }

  // ----- Exactly what is accepted, for paths of every length

  /**
    The inputs in which two openings of one length part: the two lists of peaks,
    or else the step of the climbs at which different inputs give one digest.
   */
  ghost function Divergence(h: HashFn, leaves: seq<Digest>, i: nat,
                            a: Digest, p: seq<Digest>, b: Digest, q: seq<Digest>, pos: nat)
    : (c: (seq<byte>, seq<byte>))
    requires i < |leaves| && |p| == |q|
    ensures Collision(h, c) ==>
      || (FoldHashes(h, a, p, pos, c.0) && FoldHashes(h, b, q, pos, c.1))
      || c == (Flatten(WithPeak(h, leaves, i, Fold(Pairing(h), a, p, pos))),
               Flatten(WithPeak(h, leaves, i, Fold(Pairing(h), b, q, pos))))
  {
    var x, y := Fold(Pairing(h), a, p, pos), Fold(Pairing(h), b, q, pos);
    if x != y then (Flatten(WithPeak(h, leaves, i, x)), Flatten(WithPeak(h, leaves, i, y)))
    else if (a, p) != (b, q) then FoldCollision(h, a, p, b, q, pos)
    else ([], [])
  }

  lemma DifferentPeaks(h: HashFn, leaves: seq<Digest>, i: nat, x: Digest, y: Digest)
    requires i < |leaves| && x != y
    ensures RootOf(h, WithPeak(h, leaves, i, x)) == RootOf(h, WithPeak(h, leaves, i, y))
       <==> Collision(h, (Flatten(WithPeak(h, leaves, i, x)), Flatten(WithPeak(h, leaves, i, y))))
  {
    var ps, qs := WithPeak(h, leaves, i, x), WithPeak(h, leaves, i, y);
    if Flatten(ps) == Flatten(qs) {
      FlattenInjective(ps, qs);
    }
  }

  /** Beside an opening that gives the root, another of its length does so only by a collision. */
  lemma BesideHonest(h: HashFn, leaves: seq<Digest>, i: nat,
                     a: Digest, p: seq<Digest>, b: Digest, q: seq<Digest>, pos: nat)
    requires i < |leaves| && |p| == |q|
    requires RootOf(h, WithPeak(h, leaves, i, Fold(Pairing(h), b, q, pos))) == Root(h, leaves)
    ensures RootOf(h, WithPeak(h, leaves, i, Fold(Pairing(h), a, p, pos))) == Root(h, leaves)
       <==> (a, p) == (b, q) || Collision(h, Divergence(h, leaves, i, a, p, b, q, pos))
  {
    var x, y := Fold(Pairing(h), a, p, pos), Fold(Pairing(h), b, q, pos);
    if x != y {
      DifferentPeaks(h, leaves, i, x, y);
    }
  }

  /** A node of a mountain with its own siblings. */
  datatype Opening = Opening(node: Digest, path: seq<Digest>)

  /** The opening with a path of length `len` that belongs to index `i`: a node that many levels below the peak. */
  ghost function NodeOpening(h: HashFn, leaves: seq<Digest>, i: nat, len: nat): (o: Opening)
    requires i < |leaves| && len <= Locate(|leaves|, i).height
    ensures |o.path| == len
    ensures var p := Locate(|leaves|, i);
      Fold(Pairing(h), o.node, o.path, p.local) == Tree(Pairing(h), Block(leaves, i), p.height)
  {
    var p := Locate(|leaves|, i);
    var nodes, slot := Level(Pairing(h), Block(leaves, i), p.height - len), LowBits(p.local, len);
    NodeFolds(Pairing(h), Block(leaves, i), p.height, len, p.local, nodes, slot);
    Opening(nodes[slot], Siblings(Pairing(h), nodes, slot, len))
  }

  /** At full length it is the leaf with its generated proof. */
  lemma FullNodeOpening(h: HashFn, leaves: seq<Digest>, i: nat)
    requires i < |leaves|
    ensures NodeOpening(h, leaves, i, Locate(|leaves|, i).height)
         == Opening(leaves[i], ProofOf(Pairing(h), leaves, i))
  {
    ProofOfPlace(Pairing(h), leaves, i);
    SmallSlot(Locate(|leaves|, i).local, Locate(|leaves|, i).height);
  }

  lemma NodeReachesPeak(h: HashFn, leaves: seq<Digest>, i: nat, len: nat)
    requires i < |leaves| && len <= Locate(|leaves|, i).height
    ensures var p, o := Locate(|leaves|, i), NodeOpening(h, leaves, i, len);
      && p.peak < |Peaks(Pairing(h), leaves)|
      && Fold(Pairing(h), o.node, o.path, p.local) == Peaks(Pairing(h), leaves)[p.peak]
  {
    PeakOfPlace(Pairing(h), leaves, i);
  }

  /** Putting a peak where it already is changes nothing. */
  lemma SamePeak(h: HashFn, leaves: seq<Digest>, i: nat, d: Digest)
    requires i < |leaves|
    requires var p := Locate(|leaves|, i);
      p.peak < |Peaks(Pairing(h), leaves)| && d == Peaks(Pairing(h), leaves)[p.peak]
    ensures WithPeak(h, leaves, i, d) == Peaks(Pairing(h), leaves)
  {
  }

  /**
    The check does not compare the length of a path with the height of the
    mountain. A path no longer than that height is accepted exactly for the node
    that many levels below the peak, with its own siblings, or on a collision. The
    full length is the case of `ForgeryCollision`, by `FullNodeOpening`.
   */
  lemma ShortPathExactly(h: HashFn, leaves: seq<Digest>, i: nat, leaf: Digest, path: seq<Digest>)
    requires i < |leaves| && |path| <= Locate(|leaves|, i).height
    ensures var o := NodeOpening(h, leaves, i, |path|);
      Accepts(h, leaves, leaf, path, i, Root(h, leaves))
      <==> (leaf == o.node && path == o.path)
           || Collision(h, Divergence(h, leaves, i, leaf, path, o.node, o.path, Locate(|leaves|, i).local))
  {
    var o, pos := NodeOpening(h, leaves, i, |path|), Locate(|leaves|, i).local;
    NodeReachesPeak(h, leaves, i, |path|);
    SamePeak(h, leaves, i, Fold(Pairing(h), o.node, o.path, pos));
    BesideHonest(h, leaves, i, leaf, path, o.node, o.path, pos);
  }

  ghost predicate IsPairHash(h: HashFn, d: Digest) {
    exists a: Digest, b: Digest :: d == h(a + b)
  }

  /** A climb of at least one step ends in the hash of a pair. */
  lemma {:induction false} FoldIsPairHash(h: HashFn, leaf: Digest, path: seq<Digest>, pos: nat)
    requires path != []
    ensures IsPairHash(h, Fold(Pairing(h), leaf, path, pos))
    decreases |path|
  {
    if |path| == 1 {
      var a, b := if pos % 2 == 0 then leaf else path[0], if pos % 2 == 0 then path[0] else leaf;
      assert path[1..] == [] && Fold(Pairing(h), leaf, path, pos) == h(a + b);
    } else {
      FoldIsPairHash(h, h(FoldInput(leaf, path[0], pos)), path[1..], pos / 2);
    }
  }

  /**
    A longer path is accepted exactly when its surplus steps fold to a leaf of the
    mountain, which is then itself the hash of a pair, and the rest is that leaf's
    own proof; or on a collision.
   */
  lemma LongPathExactly(h: HashFn, leaves: seq<Digest>, i: nat, leaf: Digest, path: seq<Digest>, extra: nat)
    requires i < |leaves| && |path| == Locate(|leaves|, i).height + extra
    ensures var f, block, slot := Pairing(h), Block(leaves, i), HighBits(Locate(|leaves|, i).local, extra);
      var reached := Fold(f, leaf, path[..extra], Locate(|leaves|, i).local);
      var proof := Siblings(f, block, slot, Locate(|leaves|, i).height);
      Accepts(h, leaves, leaf, path, i, Root(h, leaves))
      <==> (reached == block[slot] && path[extra..] == proof)
           || Collision(h, Divergence(h, leaves, i, reached, path[extra..], block[slot], proof, slot))
    ensures extra > 0 ==> IsPairHash(h, Fold(Pairing(h), leaf, path[..extra], Locate(|leaves|, i).local))
  {
    var f, p, block := Pairing(h), Locate(|leaves|, i), Block(leaves, i);
    var slot := HighBits(p.local, extra);
    var reached := Fold(f, leaf, path[..extra], p.local);
    var proof := Siblings(f, block, slot, p.height);
    BitsSplit(p.local, extra);
    FoldInTwo(f, leaf, path, extra, p.local, slot, LowBits(p.local, extra));
    FoldRebuilds(f, block, slot, p.height);
    PeakOfPlace(f, leaves, i);
    SamePeak(h, leaves, i, Fold(f, block[slot], proof, slot));
    BesideHonest(h, leaves, i, reached, path[extra..], block[slot], proof, slot);
    if extra > 0 {
      FoldIsPairHash(h, leaf, path[..extra], p.local);
    }
  }
}
