/**
  The append-only forest itself: a leaf vector and a cached peak vector, updated
  in place. Its methods run the loops of `MountainLoops` with BLAKE3's pairing and
  are proved against the functions of `Mountains` and `MerkleBinding`.
 */
module MerkleForests {
  import opened Bytes
  import opened Wrappers
  import opened Mountains
  import opened MountainLaws
  import opened MountainLoops
  import opened MerkleBinding

  datatype MmrError =
    | IndexOutOfBounds(index: nat)
    | RootMismatch(expected: Digest, actual: Digest)

  datatype CompactProof = CompactProof(leaf: Digest, path: seq<Digest>, root: Digest, index: nat)

  class MerkleForest {
    const hash: HashFn
    var leaves: seq<Digest>
    var peaks: seq<Digest>
    var count: nat

    ghost predicate Valid()
      reads this
    {
      && peaks == Peaks(Pairing(hash), leaves)
      && count == |leaves|
    }

    constructor (hash: HashFn)
      ensures Valid() && this.hash == hash && leaves == []
    {
      this.hash := hash;
      leaves, peaks, count := [], [], 0;
    }

    method Append(leaf: Digest)
      requires Valid()
      modifies this
      ensures Valid()
      ensures leaves == old(leaves) + [leaf] && count == old(count) + 1
      ensures TrailingOnes(|old(leaves)|) <= |old(peaks)|
      ensures peaks == Carry(Pairing(hash), old(peaks), leaf, TrailingOnes(|old(leaves)|))
    {
      AppendIsCarry(Pairing(hash), leaves, leaf);
      leaves := leaves + [leaf];
      count := count + 1;
      RecomputePeaks();
    }

    method AppendData(data: seq<byte>) returns (digest: Digest)
      requires Valid()
      modifies this
      ensures Valid()
      ensures digest == hash(data) && leaves == old(leaves) + [digest]
    {
      digest := hash(data);
      Append(digest);
    }

    method RecomputePeaks()
      modifies this`peaks
      ensures peaks == Peaks(Pairing(hash), leaves)
    {
      peaks := ComputePeaks(Pairing(hash), leaves);
    }

    method Root() returns (root: Digest)
      requires Valid()
      ensures root == MerkleBinding.Root(hash, leaves)
      ensures IsRoot(hash, Peaks(Pairing(hash), leaves), root)
    {
      RootExactly(hash, peaks, RootOf(hash, peaks));
      if peaks == [] {
        return ZERO_DIGEST;
      }
      root := HashAll(peaks);
    }

    /** Feed digests to one hasher in order. */
    method HashAll(ds: seq<Digest>) returns (d: Digest)
      ensures d == hash(Flatten(ds))
      ensures exists bs :: SideBySide(bs, ds) && d == hash(bs)
    {
      var buffer: seq<byte> := [];
      var j: nat := 0;
      while j < |ds|
        invariant j <= |ds|
        invariant buffer + Flatten(ds[j..]) == Flatten(ds)
      {
        assert Flatten(ds[j..]) == ds[j] + Flatten(ds[j + 1..]);
        buffer := buffer + ds[j];
        j := j + 1;
      }
      assert buffer == Flatten(ds);
      FlattenExactly(buffer, ds);
      d := hash(buffer);
    }

    method GetLeaf(index: nat) returns (r: Result<Digest, MmrError>)
      ensures r == if index < |leaves| then Ok(leaves[index]) else Err(IndexOutOfBounds(index))
    {
      if index >= |leaves| {
        return Err(IndexOutOfBounds(index));
      }
      r := Ok(leaves[index]);
    }

    method FindPeakForLeaf(index: nat) returns (r: Result<Found, MmrError>)
      ensures index >= |leaves| ==> r == Err(IndexOutOfBounds(index))
      ensures index < |leaves| ==>
        var p := Locate(|leaves|, index); r == Ok(Found(p.peak, p.local, Pow2(p.height)))
    {
      if index >= |leaves| {
        return Err(IndexOutOfBounds(index));
      }
      var found := FindMountain(|leaves|, index);
      r := Ok(found);
    }

    method Proof(index: nat) returns (r: Result<seq<Digest>, MmrError>)
      ensures index >= |leaves| ==> r == Err(IndexOutOfBounds(index))
      ensures index < |leaves| ==> r == Ok(ProofOf(Pairing(hash), leaves, index))
    {
      var found := FindPeakForLeaf(index);
      if found.Err? {
        return Err(found.error);
      }
      var local, size := found.value.local, found.value.size;
      var start := index - local;
      ghost var height := Locate(|leaves|, index).height;
      BlockIsSlice(leaves, index, Locate(|leaves|, index), start, start + size);
      ProofOfPlace(Pairing(hash), leaves, index);
      var block := leaves[start..start + size];
      var levels := BuildLevels(Pairing(hash), block, height);
      var path := ClimbLevels(Pairing(hash), levels[..|levels| - 1], local, height, block);
      r := Ok(path);
    }

    method Verify(leaf: Digest, path: seq<Digest>, index: nat) returns (ok: bool)
      requires Valid()
      ensures ok <==> Accepts(hash, leaves, leaf, path, index, MerkleBinding.Root(hash, leaves))
    {
      var found := FindPeakForLeaf(index);
      if found.Err? {
        return false;
      }
      var current := FoldPath(Pairing(hash), leaf, path, found.value.local);
      var allPeaks := peaks;
      if found.value.peak < |allPeaks| {
        allPeaks := allPeaks[found.value.peak := current];
      }
      var computed := HashAll(allPeaks);
      var root := Root();
      assert allPeaks == ClaimedPeaks(hash, leaves, leaf, path, index);
      ok := computed == root;
    }

    method VerifyWithRoot(leaf: Digest, path: seq<Digest>, index: nat, expectedRoot: Digest)
      returns (r: Result<(), MmrError>)
      requires Valid()
      ensures r.Ok? <==> Accepts(hash, leaves, leaf, path, index, expectedRoot)
      ensures index >= |leaves| ==> r == Err(IndexOutOfBounds(index))
      ensures index < |leaves| && r.Err? ==>
        r == Err(RootMismatch(expectedRoot, RootOf(hash, ClaimedPeaks(hash, leaves, leaf, path, index))))
    {
      var found := FindPeakForLeaf(index);
      if found.Err? {
        return Err(found.error);
      }
      var current := FoldPath(Pairing(hash), leaf, path, found.value.local);
      var allPeaks := peaks;
      if found.value.peak < |allPeaks| {
        allPeaks := allPeaks[found.value.peak := current];
      }
      var computed := HashAll(allPeaks);
      assert allPeaks == ClaimedPeaks(hash, leaves, leaf, path, index);
      if computed != expectedRoot {
        return Err(RootMismatch(expectedRoot, computed));
      }
      r := Ok(());
    }

    method MakeCompactProof(index: nat) returns (r: Result<CompactProof, MmrError>)
      requires Valid()
      ensures index >= |leaves| ==> r == Err(IndexOutOfBounds(index))
      ensures index < |leaves| ==>
        r == Ok(CompactProof(leaves[index], ProofOf(Pairing(hash), leaves, index),
                             MerkleBinding.Root(hash, leaves), index))
    {
      var leaf := GetLeaf(index);
      if leaf.Err? {
        return Err(leaf.error);
      }
      var path := Proof(index);
      if path.Err? {
        assert false;
      }
      var root := Root();
      r := Ok(CompactProof(leaf.value, path.value, root, index));
    }

    method VerifyCompact(compact: CompactProof) returns (ok: bool)
      requires Valid()
      ensures ok <==> Accepts(hash, leaves, compact.leaf, compact.path, compact.index,
                              MerkleBinding.Root(hash, leaves))
    {
      ok := Verify(compact.leaf, compact.path, compact.index);
    }
  }

  /** A forest accepts every compact proof it makes, and so does a holder of its root. */
  method ProveAndCheck(forest: MerkleForest, index: nat) returns (accepted: bool, checked: Result<(), MmrError>)
    requires forest.Valid()
    ensures index < |forest.leaves| ==> accepted && checked.Ok?
    ensures index >= |forest.leaves| ==> !accepted && checked == Err(IndexOutOfBounds(index))
  {
    var made := forest.MakeCompactProof(index);
    if made.Err? {
      return false, Err(made.error);
    }
    InclusionComplete(forest.hash, forest.leaves, index);
    accepted := forest.VerifyCompact(made.value);
    checked := forest.VerifyWithRoot(made.value.leaf, made.value.path, index, made.value.root);
  }
}
