/** Inclusion and consistency proofs of src/settlement/transparency_log.rs. */
module MerkleProofs {
  import opened Wrappers
  import opened MerkleTree

  // ---- Inclusion proofs ----

  datatype InclusionProof = InclusionProof(
    leafIndex: nat, leafHash: Hash, path: seq<(Hash, bool)>, rootHash: Hash)

  function Climb(current: Hash, step: (Hash, bool)): Hash {
    if step.1 then NodeHash(current, step.0) else NodeHash(step.0, current)
  }

  function ClimbAll(current: Hash, path: seq<(Hash, bool)>): Hash
    decreases |path|
  {
    if path == [] then current else ClimbAll(Climb(current, path[0]), path[1..])
  }

  /** `verify_inclusion_proof`. */
  method VerifyInclusionProof(proof: InclusionProof) returns (valid: bool)
    ensures valid <==> ClimbAll(proof.leafHash, proof.path) == proof.rootHash
  {
    var current := proof.leafHash;
    assert proof.path[0..] == proof.path;
    for i := 0 to |proof.path|
      invariant ClimbAll(current, proof.path[i..]) == ClimbAll(proof.leafHash, proof.path)
    {
      assert proof.path[i..][1..] == proof.path[i + 1..];
      current := Climb(current, proof.path[i]);
    }
    return current == proof.rootHash;
  }

  /** The sibling the generator records: an unpaired rightmost node gets the all-zero hash. */
  function Sibling(level: seq<Hash>, i: nat): (Hash, bool)
    requires i < |level|
  {
    if i % 2 == 0 then (if i + 1 < |level| then level[i + 1] else EmptyHash, true) else (level[i - 1], false)
  }

  function GeneratedPath(level: seq<Hash>, i: nat): seq<(Hash, bool)>
    requires i < |level|
    decreases |level|
  {
    if |level| == 1 then [] else [Sibling(level, i)] + GeneratedPath(NextLevel(level), i / 2)
  }

  lemma GeneratedPathUp(levels: seq<seq<Hash>>, leaves: seq<Hash>, l: nat, idx: nat)
    requires IsTower(levels, leaves) && l < |levels| - 1 && idx < |levels[l]|
    ensures idx / 2 < |levels[l + 1]|
    ensures GeneratedPath(levels[l], idx) == [Sibling(levels[l], idx)] + GeneratedPath(levels[l + 1], idx / 2)
  {
  }

  /** `inclusion_proof_from_levels`. */
  method InclusionProofFromLevels(levels: seq<seq<Hash>>, leaves: seq<Hash>, index: nat)
    returns (proof: Option<InclusionProof>)
    requires leaves != [] ==> IsTower(levels, leaves)
    ensures proof.None? <==> index >= |leaves|
    ensures index < |leaves| ==>
              proof == Some(InclusionProof(index, leaves[index], GeneratedPath(leaves, index), RootHash(leaves)))
  {
    if index >= |leaves| {
      return None;
    }
    var root := levels[|levels| - 1][0];
    TowerKeepsTreeHash(levels, leaves, |levels| - 1);
    var path: seq<(Hash, bool)>, idx: nat := [], index;
    for l := 0 to |levels| - 1
      invariant idx < |levels[l]|
      invariant path + GeneratedPath(levels[l], idx) == GeneratedPath(leaves, index)
    {
      GeneratedPathUp(levels, leaves, l, idx);
      AppendOne(path, Sibling(levels[l], idx), GeneratedPath(levels[l + 1], idx / 2));
      path := path + [Sibling(levels[l], idx)];
      idx := idx / 2;
    }
    assert GeneratedPath(levels[|levels| - 1], idx) == [] && path + [] == path;
    return Some(InclusionProof(index, leaves[index], path, root));
  }

  /** No node on the way up from leaf i of n is an unpaired rightmost node. */
  predicate AlwaysPaired(n: nat, i: nat) {
    n <= 1 || ((i % 2 == 1 || i + 1 < n) && AlwaysPaired((n + 1) / 2, i / 2))
  }

  function Size(h: Hash): nat {
    match h
    case NodeHash(l, r) => 1 + Size(l) + Size(r)
    case _ => 1
  }

  lemma {:induction false} NextLevelAt(s: seq<Hash>, i: nat)
    requires i < |s|
    ensures NextLevel(s)[i / 2] ==
      if i % 2 == 1 then NodeHash(s[i - 1], s[i]) else if i + 1 < |s| then NodeHash(s[i], s[i + 1]) else s[i]
  {
    if |s| > 1 && i > 1 { NextLevelAt(s[2..], i - 2); }
  }

  /** Once the climb has hashed in a node too many it stays above every real ancestor. */
  lemma {:induction false} OvershootIsNeverRepaired(level: seq<Hash>, i: nat, current: Hash)
    requires i < |level| && Size(current) > Size(level[i])
    ensures Size(ClimbAll(current, GeneratedPath(level, i))) > Size(TreeHash(level))
    decreases |level|
  {
    if |level| > 1 {
      NextLevelAt(level, i);
      NextLevelKeepsTreeHash(level);
      OvershootIsNeverRepaired(NextLevel(level), i / 2, Climb(current, Sibling(level, i)));
      assert GeneratedPath(level, i)[1..] == GeneratedPath(NextLevel(level), i / 2);
    }
  }

  /** The generated proof verifies exactly when every node on the path has a sibling. */
  lemma {:induction false} GeneratedProofVerifiesIffPaired(leaves: seq<Hash>, i: nat)
    requires i < |leaves|
    ensures ClimbAll(leaves[i], GeneratedPath(leaves, i)) == RootHash(leaves) <==> AlwaysPaired(|leaves|, i)
    decreases |leaves|
  {
    if |leaves| > 1 {
      var next := NextLevel(leaves);
      NextLevelAt(leaves, i);
      NextLevelKeepsTreeHash(leaves);
      assert GeneratedPath(leaves, i)[1..] == GeneratedPath(next, i / 2);
      if i % 2 == 1 || i + 1 < |leaves| {
        GeneratedProofVerifiesIffPaired(next, i / 2);
      } else {
        OvershootIsNeverRepaired(next, i / 2, NodeHash(leaves[i], EmptyHash));
      }
    }
  }

  lemma {:induction false} PowerOfTwoIsAlwaysPaired(n: nat, i: nat)
    requires IsPowerOfTwo(n) && i < n
    ensures AlwaysPaired(n, i)
  {
    if n > 1 { PowerOfTwoIsAlwaysPaired(n / 2, i / 2); }
  }

  lemma {:induction false} LastLeafIsUnpaired(n: nat)
    requires n > 0 && !IsPowerOfTwo(n)
    ensures !AlwaysPaired(n, n - 1)
  {
    if n % 2 == 0 {
      LastLeafIsUnpaired(n / 2);
      assert (n + 1) / 2 == n / 2 && (n - 1) / 2 == n / 2 - 1;
    }
  }

  /** All generated proofs of a log verify exactly when its length is a power of two. */
  lemma EveryLeafIsProvableIffPowerOfTwo(leaves: seq<Hash>)
    requires leaves != []
    ensures (forall i :: 0 <= i < |leaves| ==>
               ClimbAll(leaves[i], GeneratedPath(leaves, i)) == RootHash(leaves)) <==> IsPowerOfTwo(|leaves|)
  {
    forall i: nat | i < |leaves|
      ensures ClimbAll(leaves[i], GeneratedPath(leaves, i)) == RootHash(leaves) <==> AlwaysPaired(|leaves|, i)
    {
      GeneratedProofVerifiesIffPaired(leaves, i);
    }
    if IsPowerOfTwo(|leaves|) {
      forall i: nat | i < |leaves| ensures AlwaysPaired(|leaves|, i) {
        PowerOfTwoIsAlwaysPaired(|leaves|, i);
      }
    } else {
      LastLeafIsUnpaired(|leaves|);
    }
  }

  predicate HasLeaf(tree: Hash, leaf: Hash) {
    tree == leaf || (tree.NodeHash? && (HasLeaf(tree.left, leaf) || HasLeaf(tree.right, leaf)))
  }

  lemma {:induction false} ClimbKeepsLeaf(current: Hash, path: seq<(Hash, bool)>, leaf: Hash)
    requires HasLeaf(current, leaf)
    ensures HasLeaf(ClimbAll(current, path), leaf)
    decreases |path|
  {
    if path != [] { ClimbKeepsLeaf(Climb(current, path[0]), path[1..], leaf); }
  }

  lemma {:induction false} TreeHasOnlyItsLeaves(s: seq<Hash>, leaf: Hash)
    requires s != [] && AllLeaves(s) && leaf.LeafHash? && HasLeaf(TreeHash(s), leaf)
    ensures leaf in s
    decreases |s|
  {
    if |s| > 1 {
      var k := SplitPoint(|s|);
      if HasLeaf(TreeHash(s[..k]), leaf) {
        TreeHasOnlyItsLeaves(s[..k], leaf);
      } else {
        TreeHasOnlyItsLeaves(s[k..], leaf);
      }
    }
  }

  /** Soundness: whoever made the proof, a leaf that climbs to the root is a leaf of the log. */
  lemma InclusionIsSound(leaves: seq<Hash>, leaf: Hash, path: seq<(Hash, bool)>)
    requires leaves != [] && AllLeaves(leaves) && leaf.LeafHash?
    requires ClimbAll(leaf, path) == RootHash(leaves)
    ensures leaf in leaves
  {
    ClimbKeepsLeaf(leaf, path, leaf);
    TreeHasOnlyItsLeaves(leaves, leaf);
  }

  // ---- Consistency proofs ----

  datatype ConsistencyProof = ConsistencyProof(
    oldSize: nat, newSize: nat, oldRoot: Hash, newRoot: Hash, proofHashes: seq<Hash>)

  /** The largest power of two that fits into what remains. */
  ghost function BlockSize(remaining: nat): (k: nat)
    requires remaining > 0
    ensures IsPowerOfTwo(k) && k <= remaining < 2 * k
  {
    var split := SplitPoint(remaining + 1);
    assert IsPowerOfTwo(split) && split <= remaining < 2 * split;
    var k: nat :| IsPowerOfTwo(k) && k <= remaining < 2 * k;
    k
  }

  lemma BlockSizeIsUnique(remaining: nat, k: nat)
    requires remaining > 0 && IsPowerOfTwo(k) && k <= remaining < 2 * k
    ensures k == BlockSize(remaining)
  {
    var b := BlockSize(remaining);
    if b < k { PowersOfTwoSeparate(b, k); }
    if k < b { PowersOfTwoSeparate(k, b); }
  }

  function Min(a: nat, b: nat): nat {
    if a <= b then a else b
  }

  /** The roots of the power-of-two blocks that tile `size` leaves from the left, cut off where the
      leaves end. */
  ghost function BlockHashes(s: seq<Hash>, size: nat): (hs: seq<Hash>)
    ensures s != [] && size > 0 ==> hs != []
    decreases |s|
  {
    if s == [] || size == 0 then [] else
      var k := FirstBlock(s, size);
      [TreeHash(s[..k])] + BlockHashes(s[k..], size - k)
  }

  ghost function FirstBlock(s: seq<Hash>, size: nat): (k: nat)
    requires s != [] && size > 0
    ensures 0 < k <= size && k <= |s|
  {
    Min(BlockSize(size), |s|)
  }

  lemma BlockHashesStep(s: seq<Hash>, size: nat)
    requires s != [] && size > 0
    ensures var k := FirstBlock(s, size);
      BlockHashes(s, size) == [TreeHash(s[..k])] + BlockHashes(s[k..], size - k)
  {
  }

  lemma SuffixSlices(leaves: seq<Hash>, start: nat, k: nat)
    requires start + k <= |leaves|
    ensures leaves[start..][..k] == leaves[start..start + k] && leaves[start..][k..] == leaves[start + k..]
  {
  }

  lemma WholeSuffix(leaves: seq<Hash>)
    ensures leaves[0..] == leaves
  {
  }

  lemma BlockIsTree(leaves: seq<Hash>, start: nat, k: nat)
    requires 0 < k && start + k <= |leaves|
    ensures SubtreeHash(leaves, start, start + k) == TreeHash(leaves[start..][..k])
  {
    SuffixSlices(leaves, start, k);
    SubtreeHashIsTreeHash(leaves, start, start + k);
  }

  lemma OneMoreBlock(hashes: seq<Hash>, tail: seq<Hash>, size: nat, k: nat, block: Hash)
    requires tail != [] && size > 0 && k == FirstBlock(tail, size) && block == TreeHash(tail[..k])
    ensures (hashes + [block]) + BlockHashes(tail[k..], size - k) == hashes + BlockHashes(tail, size)
  {
    BlockHashesStep(tail, size);
    AppendOne(hashes, block, BlockHashes(tail[k..], size - k));
  }

  /** The size and root of the next block; size 0 where the leaves end. */
  method NextBlock(leaves: seq<Hash>, start: nat, remaining: nat) returns (actualSize: nat, block: Hash)
    requires start <= |leaves| && remaining > 0
    ensures actualSize == 0 <==> start == |leaves|
    ensures actualSize > 0 ==> actualSize == FirstBlock(leaves[start..], remaining) &&
                               block == TreeHash(leaves[start..][..actualSize])
  {
    var subSize := if IsPowerOfTwo(remaining) then remaining else SplitPoint(remaining);
    assert subSize < remaining ==> IsPowerOfTwo(2 * subSize) && 2 * subSize != remaining;
    BlockSizeIsUnique(remaining, subSize);
    actualSize, block := Min(subSize, |leaves| - start), EmptyHash;
    if actualSize > 0 {
      block := SubtreeHash(leaves, start, start + actualSize);
      BlockIsTree(leaves, start, actualSize);
    }
  }

  /** `collect_subtree_hashes`. */
  method CollectSubtreeHashes(leaves: seq<Hash>, size: nat) returns (hashes: seq<Hash>)
    ensures hashes == BlockHashes(leaves, size)
  {
    hashes := [];
    var start: nat := 0;
    ghost var tail := leaves;
    WholeSuffix(leaves);
    while start < size
      invariant start <= size && start <= |leaves| && tail == leaves[start..]
      invariant hashes + BlockHashes(tail, size - start) == BlockHashes(leaves, size)
    {
      var actualSize, block := NextBlock(leaves, start, size - start);
      if actualSize == 0 {
        break;
      }
      OneMoreBlock(hashes, tail, size - start, actualSize, block);
      SuffixSlices(leaves, start, actualSize);
      hashes, tail, start := hashes + [block], tail[actualSize..], start + actualSize;
    }
    assert BlockHashes(tail, size - start) == [];
  }

  /** `consistency_proof`, called with the old leaves a prefix of the new ones or with any others. */
  method MakeConsistencyProof(oldLeaves: seq<Hash>, newLeaves: seq<Hash>, oldSize: nat, newSize: nat)
    returns (proof: Option<ConsistencyProof>)
    ensures proof.None? <==> oldSize == 0 || oldSize > newSize
    ensures proof.Some? ==> proof.value == ConsistencyProof(oldSize, newSize, RootHash(oldLeaves), RootHash(newLeaves),
      if oldSize == newSize then [] else BlockHashes(newLeaves, oldSize))
  {
    if oldSize == 0 || oldSize > newSize {
      return None;
    }
    var oldRoot := RootFromLeaves(oldLeaves);
    var newRoot := RootFromLeaves(newLeaves);
    var hashes := [];
    if oldSize != newSize {
      hashes := CollectSubtreeHashes(newLeaves, oldSize);
    }
    return Some(ConsistencyProof(oldSize, newSize, oldRoot, newRoot, hashes));
  }

  function ChainRightToLeft(hashes: seq<Hash>): Hash
    requires hashes != []
  {
    if |hashes| == 1 then hashes[0] else NodeHash(hashes[0], ChainRightToLeft(hashes[1..]))
  }

  lemma ChainStep(first: Hash, rest: seq<Hash>)
    requires rest != []
    ensures ChainRightToLeft([first] + rest) == NodeHash(first, ChainRightToLeft(rest))
  {
    assert ([first] + rest)[1..] == rest;
  }

  /** A block that leaves something over is full, and no smaller than what is left. */
  lemma FullBlock(s: seq<Hash>, size: nat)
    requires s != [] && size > 0
    ensures var k, m := FirstBlock(s, size), Min(size, |s|);
      k <= m && (k < m ==> IsPowerOfTwo(k) && m - k <= k)
  {
  }

  lemma PrefixJoins(s: seq<Hash>, k: nat, m: nat)
    requires IsPowerOfTwo(k) && 0 < m - k <= k && m <= |s|
    ensures TreeHash(s[..m]) == NodeHash(TreeHash(s[..k]), TreeHash(s[k..][..m - k]))
  {
    var left, right := s[..k], s[k..][..m - k];
    assert s[..m] == left + right;
    TreeHashJoin(left, right);
  }

  lemma ChainedLastBlock(s: seq<Hash>, size: nat)
    requires s != [] && size > 0 && FirstBlock(s, size) == Min(size, |s|)
    ensures ChainRightToLeft(BlockHashes(s, size)) == TreeHash(s[..Min(size, |s|)])
  {
    var k := FirstBlock(s, size);
    BlockHashesStep(s, size);
    assert BlockHashes(s[k..], size - k) == [];
  }

  lemma ChainedFullBlock(s: seq<Hash>, size: nat, k: nat, m: nat)
    requires s != [] && size > 0 && k == FirstBlock(s, size) && m == Min(size, |s|) && k < m
    requires ChainRightToLeft(BlockHashes(s[k..], size - k)) == TreeHash(s[k..][..m - k])
    ensures ChainRightToLeft(BlockHashes(s, size)) == TreeHash(s[..m])
  {
    FullBlock(s, size);
    BlockHashesStep(s, size);
    ChainStep(TreeHash(s[..k]), BlockHashes(s[k..], size - k));
    PrefixJoins(s, k, m);
  }

  /** Chaining the block hashes from the right rebuilds the tree of the tiled leaves. */
  lemma {:induction false} ChainedBlocksAreTheTree(s: seq<Hash>, size: nat, m: nat)
    requires s != [] && size > 0 && m == Min(size, |s|)
    ensures ChainRightToLeft(BlockHashes(s, size)) == TreeHash(s[..m])
    decreases |s|
  {
    var k := FirstBlock(s, size);
    FullBlock(s, size);
    if k == m {
      ChainedLastBlock(s, size);
    } else {
      ChainedBlocksAreTheTree(s[k..], size - k, m - k);
      ChainedFullBlock(s, size, k, m);
    }
  }

  predicate ConsistencyHolds(proof: ConsistencyProof, newLeaves: seq<Hash>)
    requires 0 < proof.oldSize < proof.newSize ==> proof.proofHashes != []
  {
    0 < proof.oldSize <= proof.newSize && proof.newRoot == RootHash(newLeaves) &&
    proof.oldRoot == if proof.oldSize == proof.newSize then proof.newRoot else ChainRightToLeft(proof.proofHashes)
  }

  /** `verify_consistency_proof`; it indexes the last proof hash, so a growing proof needs one. */
  method VerifyConsistencyProof(proof: ConsistencyProof, newLeaves: seq<Hash>) returns (valid: bool)
    requires 0 < proof.oldSize < proof.newSize ==> proof.proofHashes != []
    ensures valid <==> ConsistencyHolds(proof, newLeaves)
  {
    if proof.oldSize == 0 || proof.oldSize > proof.newSize {
      return false;
    }
    var actual := RootFromLeaves(newLeaves);
    if proof.oldSize == proof.newSize {
      return proof.oldRoot == proof.newRoot && proof.newRoot == actual;
    }
    var last := |proof.proofHashes| - 1;
    var reconstructed := proof.proofHashes[last];
    for i := last downto 0
      invariant reconstructed == ChainRightToLeft(proof.proofHashes[i..])
    {
      assert proof.proofHashes[i..][1..] == proof.proofHashes[i + 1..];
      reconstructed := NodeHash(proof.proofHashes[i], reconstructed);
    }
    assert proof.proofHashes[0..] == proof.proofHashes;
    return reconstructed == proof.oldRoot && actual == proof.newRoot;
  }

  /** The proof a log hands out for its own first m leaves. */
  ghost function HonestConsistencyProof(leaves: seq<Hash>, m: nat): ConsistencyProof
    requires m <= |leaves|
  {
    ConsistencyProof(m, |leaves|, RootHash(leaves[..m]), RootHash(leaves),
      if m == |leaves| then [] else BlockHashes(leaves, m))
  }

  /** An honest proof verifies against a leaf list exactly when that list is the log's own:
      completeness, and rejection of every rewritten history. This goes for lists of the log's length,
      and for lists of any length made of leaf hashes. */
  lemma HonestProofAcceptsOnlyItsLog(leaves: seq<Hash>, m: nat, newLeaves: seq<Hash>)
    requires 0 < m <= |leaves|
    requires |newLeaves| == |leaves| || (AllLeaves(leaves) && AllLeaves(newLeaves))
    ensures ConsistencyHolds(HonestConsistencyProof(leaves, m), newLeaves) <==> newLeaves == leaves
  {
    ChainedBlocksAreTheTree(leaves, m, m);
    assert m == |leaves| ==> leaves[..m] == leaves;
    if |newLeaves| != |leaves| {
      RootBindsLeaves(leaves, newLeaves);
    } else if RootHash(leaves) == RootHash(newLeaves) {
      RootBindsSameLength(leaves, newLeaves);
    }
  }

  /** What an accepted proof is meant to show: the leaves number newSize, and the old root is the root of
      the first oldSize of them. */
  ghost predicate Genuine(proof: ConsistencyProof, newLeaves: seq<Hash>) {
    0 < proof.oldSize <= proof.newSize == |newLeaves| && proof.oldRoot == RootHash(newLeaves[..proof.oldSize])
  }

  /** For proof hashes taken from the new leaves, acceptance says exactly that the old root is the root
      of the first oldSize of them, or of all when there are fewer; with the size compared as well, that
      the log only grew. */
  lemma CollectedHashesProveThePrefix(proof: ConsistencyProof, newLeaves: seq<Hash>)
    requires 0 < proof.oldSize < proof.newSize && newLeaves != []
    requires proof.proofHashes == BlockHashes(newLeaves, proof.oldSize)
    ensures ConsistencyHolds(proof, newLeaves) <==>
      proof.oldRoot == RootHash(newLeaves[..Min(proof.oldSize, |newLeaves|)]) && proof.newRoot == RootHash(newLeaves)
    ensures ConsistencyHolds(proof, newLeaves) && proof.newSize == |newLeaves| <==>
      Genuine(proof, newLeaves) && proof.newRoot == RootHash(newLeaves)
  {
    ChainedBlocksAreTheTree(newLeaves, proof.oldSize, Min(proof.oldSize, |newLeaves|));
  }

  // ---- Proofs from elsewhere: the verifier compares neither hashes nor sizes with the leaves ----

  /** Any old root is accepted, with itself as the only proof hash. */
  lemma AnyOldRootIsAccepted(newLeaves: seq<Hash>, oldSize: nat, newSize: nat, oldRoot: Hash)
    requires 0 < oldSize < newSize
    ensures ConsistencyHolds(
              ConsistencyProof(oldSize, newSize, oldRoot, RootHash(newLeaves), [oldRoot]), newLeaves)
  {
  }

  /** Sizes that the log never had are accepted, with the block hashes of the leaves. */
  lemma OverlongSizesAreAccepted(leaves: seq<Hash>, oldSize: nat, newSize: nat)
    requires leaves != [] && |leaves| < oldSize <= newSize
    ensures var proof := ConsistencyProof(
              oldSize, newSize, RootHash(leaves), RootHash(leaves), BlockHashes(leaves, oldSize));
            ConsistencyHolds(proof, leaves) && !Genuine(proof, leaves)
  {
    ChainedBlocksAreTheTree(leaves, oldSize, |leaves|);
    assert leaves[..|leaves|] == leaves;
  }

  lemma {:induction false} ChainIsInjective(a: seq<Hash>, b: seq<Hash>)
    requires |a| == |b| > 0 && ChainRightToLeft(a) == ChainRightToLeft(b)
    ensures a == b
  {
    assert a == [a[0]] + a[1..] && b == [b[0]] + b[1..];
    if |a| > 1 { ChainIsInjective(a[1..], b[1..]); }
  }

  /** Two chains run alike: the same hashes up to where the shorter one ends, and there its last hash is
      what is left of the other one, folded. */
  predicate RunAlike(a: seq<Hash>, b: seq<Hash>)
    requires a != [] && b != []
  {
    if |a| == 1 || |b| == 1 then ChainRightToLeft(a) == ChainRightToLeft(b)
    else a[0] == b[0] && RunAlike(a[1..], b[1..])
  }

  lemma {:induction false} ChainsEqualIffAlike(a: seq<Hash>, b: seq<Hash>)
    requires a != [] && b != []
    ensures ChainRightToLeft(a) == ChainRightToLeft(b) <==> RunAlike(a, b)
    ensures |a| == |b| ==> (RunAlike(a, b) <==> a == b)
  {
    if |a| > 1 && |b| > 1 {
      ChainsEqualIffAlike(a[1..], b[1..]);
    }
    if |a| == |b| && ChainRightToLeft(a) == ChainRightToLeft(b) { ChainIsInjective(a, b); }
  }

  /** An accepted proof, whatever its hashes and sizes, is genuine if and only if the new size is the
      number of leaves and, where the log is said to have grown, the proof hashes run like those of the
      leaves. Who has the leaves can check both before relying on the answer. */
  lemma AcceptedProofIsGenuineIffAlike(proof: ConsistencyProof, newLeaves: seq<Hash>)
    requires 0 < proof.oldSize < proof.newSize ==> proof.proofHashes != []
    requires ConsistencyHolds(proof, newLeaves)
    ensures Genuine(proof, newLeaves) <==>
      proof.newSize == |newLeaves| &&
      (proof.oldSize < proof.newSize ==> RunAlike(proof.proofHashes, BlockHashes(newLeaves, proof.oldSize)))
  {
    if proof.newSize == |newLeaves| {
      if proof.oldSize == proof.newSize {
        assert newLeaves[..proof.oldSize] == newLeaves;
      } else {
        ChainedBlocksAreTheTree(newLeaves, proof.oldSize, proof.oldSize);
        ChainsEqualIffAlike(proof.proofHashes, BlockHashes(newLeaves, proof.oldSize));
      }
    }
  }

  /** With as many hashes as the leaves have blocks: if and only if the new size is the number of leaves
      and the hashes are the block hashes. */
  lemma AcceptedProofIsGenuineIff(proof: ConsistencyProof, newLeaves: seq<Hash>)
    requires 0 < proof.oldSize < proof.newSize && proof.proofHashes != []
    requires |proof.proofHashes| == |BlockHashes(newLeaves, proof.oldSize)|
    requires ConsistencyHolds(proof, newLeaves)
    ensures Genuine(proof, newLeaves) <==>
            proof.newSize == |newLeaves| && proof.proofHashes == BlockHashes(newLeaves, proof.oldSize)
  {
    AcceptedProofIsGenuineIffAlike(proof, newLeaves);
    ChainsEqualIffAlike(proof.proofHashes, BlockHashes(newLeaves, proof.oldSize));
  }
}
