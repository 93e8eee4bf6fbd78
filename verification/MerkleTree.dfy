/** The unpadded Merkle tree of src/settlement/transparency_log.rs. Hashing is the free algebra:
    SHA-256 with its two domain separators is taken to be collision-free. */
module MerkleTree {

  datatype Hash = EmptyHash | LeafHash(bytes: seq<nat>) | NodeHash(left: Hash, right: Hash)

  // ---- Powers of two, as `usize::next_power_of_two` sees them ----

  predicate IsPowerOfTwo(n: nat) {
    n == 1 || (n > 1 && n % 2 == 0 && IsPowerOfTwo(n / 2))
  }

  function NextPowerFrom(p: nat, n: nat): (r: nat)
    requires p > 0
    ensures r >= n && r >= p
    decreases if p >= n then 0 else n - p
  {
    if p >= n then p else NextPowerFrom(2 * p, n)
  }

  function NextPowerOfTwo(n: nat): (r: nat)
    ensures r >= n
  {
    NextPowerFrom(1, n)
  }

  lemma {:induction false} NextPowerFromIsLeast(p: nat, n: nat)
    requires IsPowerOfTwo(p) && (p == 1 || p < 2 * n)
    ensures IsPowerOfTwo(NextPowerFrom(p, n))
    ensures n > 0 ==> NextPowerFrom(p, n) < 2 * n || NextPowerFrom(p, n) == 1
    decreases if p >= n then 0 else n - p
  {
    if p < n {
      assert IsPowerOfTwo(2 * p);
      NextPowerFromIsLeast(2 * p, n);
    }
  }

  /** The width of the left subtree over n > 1 leaves: the largest power of two below n. */
  function SplitPoint(n: nat): (k: nat)
    requires n > 1
    ensures IsPowerOfTwo(k) && k < n <= 2 * k
  {
    NextPowerFromIsLeast(1, n);
    NextPowerOfTwo(n) / 2
  }

  lemma {:induction false} PowersOfTwoSeparate(a: nat, b: nat)
    requires IsPowerOfTwo(a) && IsPowerOfTwo(b) && a < b
    ensures 2 * a <= b
  {
    if a > 1 { PowersOfTwoSeparate(a / 2, b / 2); }
  }

  lemma SplitPointUnique(n: nat, k: nat)
    requires n > 1 && IsPowerOfTwo(k) && k < n <= 2 * k
    ensures k == SplitPoint(n)
  {
    var s := SplitPoint(n);
    if s < k { PowersOfTwoSeparate(s, k); }
    if k < s { PowersOfTwoSeparate(k, s); }
  }

  // ---- The tree of section 2.1 of RFC 6962 ----

  function TreeHash(s: seq<Hash>): Hash
    requires |s| > 0
    decreases |s|
  {
    if |s| == 1 then s[0]
    else var k := SplitPoint(|s|); NodeHash(TreeHash(s[..k]), TreeHash(s[k..]))
  }

  /** A full left subtree joined to no wider a right one. */
  lemma TreeHashJoin(a: seq<Hash>, b: seq<Hash>)
    requires IsPowerOfTwo(|a|) && 0 < |b| <= |a|
    ensures TreeHash(a + b) == NodeHash(TreeHash(a), TreeHash(b))
  {
    SplitPointUnique(|a + b|, |a|);
    assert (a + b)[..|a|] == a && (a + b)[|a|..] == b;
  }

  /** `subtree_hash`, with the two branches its author kept for ranges that never occur. */
  function SubtreeHash(leaves: seq<Hash>, start: nat, end: nat): Hash
    requires start < end <= |leaves|
    decreases end - start
  {
    var len := end - start;
    if len == 1 then leaves[start]
    else
      var mid := start + NextPowerOfTwo(len) / 2;
      if mid >= end then leaves[start]
      else
        var left := SubtreeHash(leaves, start, mid);
        var right := if mid < end then SubtreeHash(leaves, mid, end) else EmptyHash;
        NodeHash(left, right)
  }

  /** Both spare branches of `subtree_hash` are dead: the middle is strictly inside the range. */
  lemma SubtreeMiddleIsInside(start: nat, end: nat)
    requires start + 1 < end
    ensures start < start + NextPowerOfTwo(end - start) / 2 < end
  {
    var k := SplitPoint(end - start);
  }

  lemma SubtreeHashSplits(leaves: seq<Hash>, start: nat, mid: nat, end: nat)
    requires start + 1 < end <= |leaves| && mid == start + SplitPoint(end - start)
    ensures SubtreeHash(leaves, start, end) == NodeHash(SubtreeHash(leaves, start, mid), SubtreeHash(leaves, mid, end))
  {
  }

  lemma {:induction false} SubtreeHashIsTreeHash(leaves: seq<Hash>, start: nat, end: nat)
    requires start < end <= |leaves|
    ensures SubtreeHash(leaves, start, end) == TreeHash(leaves[start..end])
    decreases end - start
  {
    if end - start > 1 {
      var mid := start + SplitPoint(end - start);
      SubtreeHashSplits(leaves, start, mid, end);
      SubtreeHashIsTreeHash(leaves, start, mid);
      SubtreeHashIsTreeHash(leaves, mid, end);
      TreeHashJoin(leaves[start..mid], leaves[mid..end]);
      assert leaves[start..end] == leaves[start..mid] + leaves[mid..end];
    }
  }

  // ---- The level-by-level builder ----

  function NextLevel(s: seq<Hash>): (r: seq<Hash>)
    ensures |r| == (|s| + 1) / 2
  {
    if |s| <= 1 then s else [NodeHash(s[0], s[1])] + NextLevel(s[2..])
  }

  lemma {:induction false} NextLevelConcat(a: seq<Hash>, b: seq<Hash>)
    requires |a| % 2 == 0
    ensures NextLevel(a + b) == NextLevel(a) + NextLevel(b)
  {
    if a == [] {
      assert a + b == b;
    } else {
      var pair := [NodeHash(a[0], a[1])];
      NextLevelConcat(a[2..], b);
      assert (a + b)[2..] == a[2..] + b;
      assert NextLevel(a) == pair + NextLevel(a[2..]);
      assert NextLevel(a + b) == pair + NextLevel(a[2..] + b);
    }
  }

  lemma PairTreeHash(s: seq<Hash>)
    requires |s| == 2
    ensures TreeHash(NextLevel(s)) == TreeHash(s)
  {
    var a, b := [s[0]], [s[1]];
    TreeHashJoin(a, b);
    assert s == a + b && s[2..] == [];
    assert NextLevel(s) == [NodeHash(s[0], s[1])];
  }

  lemma PairedHalves(a: seq<Hash>, b: seq<Hash>)
    requires IsPowerOfTwo(|a|) && |a| > 1 && 0 < |b| <= |a|
    requires TreeHash(NextLevel(a)) == TreeHash(a) && TreeHash(NextLevel(b)) == TreeHash(b)
    ensures TreeHash(NextLevel(a + b)) == TreeHash(a + b)
  {
    var a', b' := NextLevel(a), NextLevel(b);
    assert |a'| == |a| / 2 && 0 < |b'| <= |a'|;
    NextLevelConcat(a, b);
    TreeHashJoin(a, b);
    TreeHashJoin(a', b');
  }

  /** One round of pairing, odd node promoted, leaves the tree hash unchanged. */
  lemma {:induction false} NextLevelKeepsTreeHash(s: seq<Hash>)
    requires |s| > 1
    ensures TreeHash(NextLevel(s)) == TreeHash(s)
    decreases |s|
  {
    if |s| == 2 {
      PairTreeHash(s);
    } else {
      var k := SplitPoint(|s|);
      var a, b := s[..k], s[k..];
      NextLevelKeepsTreeHash(a);
      if |b| > 1 { NextLevelKeepsTreeHash(b); }
      PairedHalves(a, b);
      assert s == a + b;
    }
  }

  /** The levels the builder produces: each pairs up the one below, the last has one node. */
  ghost predicate IsTower(levels: seq<seq<Hash>>, leaves: seq<Hash>) {
    |levels| > 0 && levels[0] == leaves && |leaves| > 0 && |levels[|levels| - 1]| == 1 &&
    forall i :: 0 <= i < |levels| - 1 ==> |levels[i]| > 1 && levels[i + 1] == NextLevel(levels[i])
  }

  lemma {:induction false} TowerKeepsTreeHash(levels: seq<seq<Hash>>, leaves: seq<Hash>, i: nat)
    requires IsTower(levels, leaves) && i < |levels|
    ensures |levels[i]| > 0 && TreeHash(levels[i]) == TreeHash(leaves)
  {
    if i > 0 {
      TowerKeepsTreeHash(levels, leaves, i - 1);
      NextLevelKeepsTreeHash(levels[i - 1]);
    }
  }

  /** The root of a leaf list: all zeroes when there are no leaves. */
  function RootHash(leaves: seq<Hash>): Hash {
    if leaves == [] then EmptyHash else TreeHash(leaves)
  }

  /** One pass of the pairing loop. */
  method PairUp(prev: seq<Hash>) returns (next: seq<Hash>)
    ensures next == NextLevel(prev)
  {
    next := [];
    var i := 0;
    assert prev[0..] == prev;
    while i < |prev|
      invariant i <= |prev|
      invariant next + NextLevel(prev[i..]) == NextLevel(prev)
    {
      ghost var rest := prev[i..];
      if i + 1 < |prev| {
        assert NextLevel(rest) == [NodeHash(prev[i], prev[i + 1])] + NextLevel(rest[2..]);
        assert rest[2..] == prev[i + 2..];
        next := next + [NodeHash(prev[i], prev[i + 1])];
        i := i + 2;
      } else {
        assert NextLevel(rest) == [prev[i]];
        next := next + [prev[i]];
        i := i + 1;
        assert prev[i..] == [];
      }
    }
  }

  /** `build_tree_levels`. */
  method BuildTreeLevels(leaves: seq<Hash>) returns (levels: seq<seq<Hash>>)
    ensures leaves == [] ==> levels == [[EmptyHash]]
    ensures leaves != [] ==> IsTower(levels, leaves)
    ensures |levels| > 0 && |levels[|levels| - 1]| == 1
    ensures levels[|levels| - 1][0] == RootHash(leaves)
  {
    if leaves == [] {
      return [[EmptyHash]];
    }
    levels := [leaves];
    while |levels[|levels| - 1]| > 1
      invariant |levels| > 0 && levels[0] == leaves && |levels[|levels| - 1]| > 0
      invariant forall i :: 0 <= i < |levels| - 1 ==> |levels[i]| > 1 && levels[i + 1] == NextLevel(levels[i])
      decreases |levels[|levels| - 1]|
    {
      var next := PairUp(levels[|levels| - 1]);
      levels := levels + [next];
    }
    TowerKeepsTreeHash(levels, leaves, |levels| - 1);
  }

  /** `root_from_levels(build_tree_levels(leaves))`: the bottom-up and the top-down root agree. */
  method RootFromLeaves(leaves: seq<Hash>) returns (root: Hash)
    ensures root == RootHash(leaves)
    ensures leaves != [] ==> root == SubtreeHash(leaves, 0, |leaves|)
  {
    var levels := BuildTreeLevels(leaves);
    root := levels[|levels| - 1][0];
    if leaves != [] {
      SubtreeHashIsTreeHash(leaves, 0, |leaves|);
      assert leaves[0..|leaves|] == leaves;
    }
  }

  // ---- A root binds its leaves ----

  /** Leaf lists of one length with one root are equal, whatever their entries are. */
  lemma {:induction false} RootBindsSameLength(s: seq<Hash>, t: seq<Hash>)
    requires |s| == |t| > 0 && TreeHash(s) == TreeHash(t)
    ensures s == t
    decreases |s|
  {
    if |s| > 1 {
      var k := SplitPoint(|s|);
      RootBindsSameLength(s[..k], t[..k]);
      RootBindsSameLength(s[k..], t[k..]);
      assert s == s[..k] + s[k..] && t == t[..k] + t[k..];
    } else {
      assert s == [s[0]] && t == [t[0]];
    }
  }

  ghost predicate AllLeaves(s: seq<Hash>) {
    forall i :: 0 <= i < |s| ==> s[i].LeafHash?
  }

  function LeafCount(h: Hash): nat {
    match h
    case EmptyHash => 0
    case LeafHash(_) => 1
    case NodeHash(l, r) => LeafCount(l) + LeafCount(r)
  }

  lemma {:induction false} TreeHashCountsLeaves(s: seq<Hash>)
    requires |s| > 0 && AllLeaves(s)
    ensures LeafCount(TreeHash(s)) == |s|
    decreases |s|
  {
    if |s| > 1 {
      var k := SplitPoint(|s|);
      TreeHashCountsLeaves(s[..k]);
      TreeHashCountsLeaves(s[k..]);
    }
  }

  /** Lists of leaf hashes, of whatever lengths, with one root are equal. */
  lemma RootBindsLeaves(s: seq<Hash>, t: seq<Hash>)
    requires AllLeaves(s) && AllLeaves(t)
    ensures RootHash(s) == RootHash(t) <==> s == t
  {
    if RootHash(s) == RootHash(t) {
      if s != [] { TreeHashCountsLeaves(s); }
      if t != [] { TreeHashCountsLeaves(t); }
      if s != [] && t != [] { RootBindsSameLength(s, t); }
    }
  }
}
