/**
  The loops of the accumulator over plain sequences, for any pairing function:
  the doubling search, the two greedy walks over the mountains, the level-by-level
  hashing, the extraction of siblings and the climb back up.
 */
module MountainLoops {
  import opened Mountains
  import opened MountainLaws

  lemma DropDrop<D>(xs: seq<D>, i: nat, m: nat)
    requires i + m <= |xs|
    ensures xs[i..][m..] == xs[i + m..]
  {
  }

  /** One more element done, one fewer to do. */
  lemma Shift<D>(done: seq<D>, x: D, rest: seq<D>)
    ensures done + ([x] + rest) == (done + [x]) + rest
  {
  }

  /** The peaks of the mountains before leaf `i` are done. */
  ghost predicate PeaksUpTo<D>(f: (D, D) -> D, xs: seq<D>, done: seq<D>, i: nat)
    requires i <= |xs|
  {
    done + Peaks(f, xs[i..]) == Peaks(f, xs)
  }

  lemma PeaksCons<D>(f: (D, D) -> D, left: seq<D>, size: nat, k: nat, rest: seq<D>)
    requires left != [] && size == FirstSize(|left|) && k == Log2(|left|) && rest == left[size..]
    ensures size == Pow2(k) && Peaks(f, left) == [Tree(f, left[..size], k)] + Peaks(f, rest)
  {
  }

  /** Standing at leaf `i`, the greedy walk takes one mountain and goes on behind it. */
  lemma PeaksStep<D>(f: (D, D) -> D, xs: seq<D>, done: seq<D>, i: nat, next: seq<D>, j: nat)
    requires i < |xs| && PeaksUpTo(f, xs, done, i)
    requires j == i + FirstSize(|xs| - i)
    requires next == done + [Tree(f, xs[i..][..j - i], Log2(|xs| - i))]
    ensures j <= |xs| && PeaksUpTo(f, xs, next, j)
  {
    var size: nat, k := j - i, Log2(|xs| - i);
    DropDrop(xs, i, size);
    PeaksCons(f, xs[i..], size, k, xs[j..]);
    Shift(done, Tree(f, xs[i..][..size], k), Peaks(f, xs[j..]));
  }

  lemma DropSlice<D>(xs: seq<D>, m: nat, a: nat, b: nat)
    requires a <= b && m + b <= |xs|
    ensures xs[m..][a..b] == xs[m + a..m + b]
  {
  }

  lemma FirstBlock<D>(xs: seq<D>, i: nat, start: nat, end: nat)
    requires i < |xs| && i < FirstSize(|xs|)
    requires start == i - Locate(|xs|, i).local && end == start + Pow2(Locate(|xs|, i).height)
    ensures end <= |xs| && Block(xs, i) == xs[start..end]
  {
  }

  /** A block of the rest, seen from the whole. */
  lemma RestBlock<D>(xs: seq<D>, i: nat, size: nat, a: nat, b: nat, start: nat, end: nat)
    requires i < |xs| && size == FirstSize(|xs|) <= i && a <= b <= |xs| - size
    requires Block(xs[size..], i - size) == xs[size..][a..b]
    requires start == size + a && end == size + b
    ensures Block(xs, i) == xs[start..end]
  {
    BlockInRest(xs, i, size, xs[size..]);
    DropSlice(xs, size, a, b);
  }

  /** The block of a leaf is the slice its place describes. */
  lemma {:induction false} BlockIsSlice<D>(xs: seq<D>, i: nat, p: Place, start: nat, end: nat)
    requires i < |xs| && p == Locate(|xs|, i) && start == i - p.local && end == start + Pow2(p.height)
    ensures end <= |xs| && Block(xs, i) == xs[start..end]
    decreases |xs|
  {
    var size := FirstSize(|xs|);
    if i < size {
      FirstBlock(xs, i, start, end);
    } else {
      var q := Locate(|xs| - size, i - size);
      LocateRest(|xs|, i, size, p, q);
      var a: nat, b: nat := start - size, end - size;
      BlockIsSlice(xs[size..], i - size, q, a, b);
      RestBlock(xs, i, size, a, b, start, end);
    }
  }

  /** A level in chunks of two: pairs are hashed, an unpaired last node moves up as it is. */
  function Round<D>(f: (D, D) -> D, level: seq<D>): seq<D> {
    PairUp(f, level) + UnpairedLast(level)
  }

  lemma ChunkStep<D>(f: (D, D) -> D, level: seq<D>, c: nat)
    requires c < |level|
    ensures c + 2 <= |level| ==> Round(f, level[c..]) == [f(level[c], level[c + 1])] + Round(f, level[c + 2..])
    ensures c + 2 > |level| ==> Round(f, level[c..]) == [level[c]]
  {
    if c + 2 <= |level| {
      DropDrop(level, c, 2);
      assert UnpairedLast(level[c..]) == UnpairedLast(level[c + 2..]);
    }
  }

  /** On a level of a perfect tree no chunk is short, and the tree above is unchanged. */
  lemma LevelStep<D>(f: (D, D) -> D, level: seq<D>, j: nat)
    requires j > 0 && |level| == Pow2(j)
    ensures Round(f, level) == PairUp(f, level)
    ensures |PairUp(f, level)| == Pow2(j - 1)
    ensures Tree(f, PairUp(f, level), j - 1) == Tree(f, level, j)
  {
    Pow2Even(j);
    TreeByLevel(f, level, j - 1);
  }

  /** A level with more than one node is not the top. */
  lemma NotTheTop(j: nat)
    ensures j > 0 <==> Pow2(j) > 1
  {
  }

  /** All levels over one mountain, the leaves first. */
  function Levels<D>(f: (D, D) -> D, block: seq<D>, k: nat): (r: seq<seq<D>>)
    ensures |r| == k + 1 && r[0] == block
    decreases k
  {
    if k == 0 then [block] else [block] + Levels(f, PairUp(f, block), k - 1)
  }

  // ----- The loops

  /** The largest power of two that fits, by doubling. */
  method LargestFit(remaining: nat) returns (size: nat)
    requires remaining > 0
    ensures size == FirstSize(remaining)
  {
    size := 1;
    ghost var k := 0;
    while size * 2 <= remaining
      invariant size == Pow2(k) && size <= remaining
      decreases remaining - size
    {
      size, k := size * 2, k + 1;
    }
    Log2Unique(remaining, k);
  }

  /** What `find_peak_for_leaf` reports: peak index, slot in the mountain, mountain size. */
  datatype Found = Found(peak: nat, local: nat, size: nat)

  method FindMountain(n: nat, index: nat) returns (found: Found)
    requires index < n
    ensures var p := Locate(n, index); found == Found(p.peak, p.local, Pow2(p.height))
  {
    ghost var p := Locate(n, index);
    ghost var here, left: nat, slot: nat := p, n, index;
    var peakIdx: nat, offset: nat := 0, 0;
    while offset < n
      invariant left == n - offset && slot == index - offset && slot < left && here == Locate(left, slot)
      invariant p.peak == peakIdx + here.peak && p.local == here.local && p.height == here.height
      decreases n - offset
    {
      var remaining := n - offset;
      var size := LargestFit(remaining);
      if index < offset + size {
        LocateFirst(left, slot, size, here);
        return Found(peakIdx, index - offset, size);
      }
      ghost var there := Locate(left - size, slot - size);
      LocateRest(left, slot, size, here, there);
      here, left, slot := there, left - size, slot - size;
      offset := offset + size;
      peakIdx := peakIdx + 1;
    }
  }

  /** One round over `level` in chunks of two. */
  method PairChunks<D>(f: (D, D) -> D, level: seq<D>) returns (next: seq<D>)
    ensures next == Round(f, level)
  {
    next := [];
    var c: nat := 0;
    ghost var rest := Round(f, level);
    assert level[0..] == level;
    while c < |level|
      invariant c <= |level| && rest == Round(f, level[c..])
      invariant next + rest == Round(f, level)
    {
      ChunkStep(f, level, c);
      if c + 2 <= |level| {
        rest := Round(f, level[c + 2..]);
        Shift(next, f(level[c], level[c + 1]), rest);
        next := next + [f(level[c], level[c + 1])];
        c := c + 2;
      } else {
        rest := [];
        next := next + [level[c]];
        c := |level|;
      }
    }
  }

  method BuildTree<D>(f: (D, D) -> D, block: seq<D>, ghost k: nat) returns (d: D)
    requires |block| == Pow2(k)
    ensures d == Tree(f, block, k)
  {
    NotTheTop(k);
    if |block| == 1 {
      return block[0];
    }
    ghost var j: nat := k;
    var level := block;
    while |level| > 1
      invariant |level| == Pow2(j)
      invariant Tree(f, level, j) == Tree(f, block, k)
      decreases j
    {
      NotTheTop(j);
      LevelStep(f, level, j);
      var next := PairChunks(f, level);
      level, j := next, j - 1;
    }
    NotTheTop(j);
    d := level[0];
  }

  method ComputePeaks<D>(f: (D, D) -> D, leaves: seq<D>) returns (peaks: seq<D>)
    ensures peaks == Peaks(f, leaves)
  {
    peaks := [];
    var n := |leaves|;
    var i: nat := 0;
    assert leaves[0..] == leaves;
    while i < n
      invariant i <= n && PeaksUpTo(f, leaves, peaks, i)
    {
      var remaining := n - i;
      var size := LargestFit(remaining);
      ghost var k := Log2(remaining);
      var peak := BuildTree(f, leaves[i..][..size], k);
      ghost var done, before := peaks, i;
      i := i + size;
      peaks := peaks + [peak];
      PeaksStep(f, leaves, done, before, peaks, i);
    }
    assert leaves[n..] == [];
  }

  /** All intermediate levels over one mountain, the leaves first. */
  method BuildLevels<D>(f: (D, D) -> D, block: seq<D>, ghost k: nat) returns (levels: seq<seq<D>>)
    requires |block| == Pow2(k)
    ensures levels == Levels(f, block, k)
  {
    ghost var j: nat, below: seq<seq<D>>, above := k, [], Levels(f, block, k);
    var level := block;
    levels := [level];
    while |level| > 1
      invariant |level| == Pow2(j) && levels == below + [level]
      invariant above == Levels(f, level, j) && below + above == Levels(f, block, k)
      decreases j
    {
      NotTheTop(j);
      LevelStep(f, level, j);
      var next := PairChunks(f, level);
      j := j - 1;
      above := Levels(f, next, j);
      Shift(below, level, above);
      below := levels;
      level := next;
      levels := levels + [level];
    }
    NotTheTop(j);
  }

  /** Below the top, the first level is the nodes themselves. */
  lemma LevelsStep<D>(f: (D, D) -> D, nodes: seq<D>, j: nat)
    requires j > 0
    ensures Levels(f, nodes, j)[..j] == [nodes] + Levels(f, PairUp(f, nodes), j - 1)[..j - 1]
  {
  }

  /** Extract the siblings along the path to the peak. */
  method ClimbLevels<D>(ghost f: (D, D) -> D, levels: seq<seq<D>>, local: nat, ghost k: nat, ghost block: seq<D>)
    returns (path: seq<D>)
    requires |block| == Pow2(k) && local < |block|
    requires levels == Levels(f, block, k)[..k]
    ensures path == Siblings(f, block, local, k)
  {
    ghost var j: nat, current := k, block;
    ghost var rest := Siblings(f, block, local, k);
    path := [];
    var pos: nat, t: nat := local, 0;
    while t < |levels|
      invariant t + j == k && |current| == Pow2(j) && pos < |current|
      invariant Levels(f, current, j)[..j] == levels[t..]
      invariant rest == Siblings(f, current, pos, j)
      invariant path + rest == Siblings(f, block, local, k)
    {
      LevelsStep(f, current, j);
      var nodes := levels[t];
      assert nodes == levels[t..][0] == current;
      assert levels[t + 1..] == levels[t..][1..];
      SiblingsCons(f, current, pos, j, pos / 2, PairUp(f, current));
      current, j := PairUp(f, current), j - 1;
      rest := Siblings(f, current, pos / 2, j);
      Shift(path, nodes[Buddy(pos)], rest);
      if pos % 2 == 0 && pos + 1 < |nodes| {
        path := path + [nodes[pos + 1]];
      } else if pos % 2 == 1 {
        path := path + [nodes[pos - 1]];
      }
      pos := pos / 2;
      t := t + 1;
    }
  }

  /** Fold `leaf` up along `path`, left or right by the parity of the slot. */
  method FoldPath<D>(f: (D, D) -> D, leaf: D, path: seq<D>, local: nat) returns (current: D)
    ensures current == Fold(f, leaf, path, local)
  {
    current := leaf;
    var pos: nat, t: nat := local, 0;
    while t < |path|
      invariant t <= |path|
      invariant Fold(f, current, path[t..], pos) == Fold(f, leaf, path, local)
    {
      assert path[t..][1..] == path[t + 1..];
      if pos % 2 == 0 {
        current := f(current, path[t]);
      } else {
        current := f(path[t], current);
      }
      pos := pos / 2;
      t := t + 1;
    }
  }
}
