/** Merkle trees of a block (src/main.h): BuildMerkleTree, GetMerkleBranch, CheckMerkleBranch. */
module Merkle {
  import opened Basics
  import opened Ledger

  /** The double hash of two concatenated hashes is left uninterpreted. */
  type Combine = (Hash, Hash) -> Hash

  // ----- the tree level by level

  /** The next level: neighbours combined, an odd last node with itself. */
  function Up(s: seq<Hash>, h: Combine): (r: seq<Hash>)
    ensures |r| == Half(|s|)
  {
    seq(Half(|s|), i requires 0 <= i < Half(|s|) => Node(s, h, i))
  }

  /** Half, rounded up. */
  function Half(n: nat): (k: nat)
    ensures n > 1 ==> 0 < k < n
    ensures n <= 2 * k <= n + 1
  {
    (n + 1) / 2
  }

  function Node(s: seq<Hash>, h: Combine, i: nat): Hash
    requires i < Half(|s|)
  {
    h(s[2 * i], s[Min(2 * i + 1, |s| - 1)])
  }

  function Root(s: seq<Hash>, h: Combine): Hash
    decreases |s|
  {
    if |s| == 0 then 0 else if |s| == 1 then s[0] else Root(Up(s, h), h)
  }

  /** All levels, leaves first: the layout of vMerkleTree. */
  function Levels(s: seq<Hash>, h: Combine): seq<Hash>
    decreases |s|
  {
    if |s| <= 1 then s else s + Levels(Up(s, h), h)
  }

  /** The other side of node i on its level. */
  function Sibling(s: seq<Hash>, i: nat): Hash
    requires s != []
  {
    s[OtherSide(i, |s|)]
  }

  /** min(i ^ 1, n - 1). */
  function OtherSide(i: nat, n: nat): (k: nat)
    requires n > 0
    ensures k < n
  {
    Min(if i % 2 == 0 then i + 1 else i - 1, n - 1)
  }

  function Branch(s: seq<Hash>, h: Combine, i: nat): seq<Hash>
    decreases |s|
  {
    if |s| <= 1 then [] else [Sibling(s, i)] + Branch(Up(s, h), h, i / 2)
  }

  /** A node joined with its other side. */
  function Join(x: Hash, other: Hash, h: Combine, i: int): Hash {
    if i % 2 == 1 then h(other, x) else h(x, other)
  }

  function Fold(x: Hash, branch: seq<Hash>, h: Combine, i: int): Hash
    decreases |branch|
  {
    if branch == [] then x else Fold(Join(x, branch[0], h, i), branch[1..], h, i / 2)
  }

  function Depth(n: nat): nat {
    if n <= 1 then 0 else 1 + Depth(Half(n))
  }

  /** The parent of node i. */
  lemma UpAt(s: seq<Hash>, h: Combine, i: nat)
    requires |s| > 1 && i < |s|
    ensures i / 2 < |Up(s, h)| && Up(s, h)[i / 2] == Join(s[i], Sibling(s, i), h, i)
  {
    assert i / 2 < Half(|s|);
    assert Up(s, h)[i / 2] == Node(s, h, i / 2);
    assert i == 2 * (i / 2) || i == 2 * (i / 2) + 1;
  }

  // ----- what the three operations mean together

  /** A leaf folded with its branch gives the root, whatever the number of leaves. */
  lemma {:induction false} BranchLeadsToRoot(s: seq<Hash>, h: Combine, i: nat)
    requires i < |s|
    ensures Fold(s[i], Branch(s, h, i), h, i) == Root(s, h)
    ensures |Branch(s, h, i)| == Depth(|s|)
    decreases |s|
  {
    hide Up, Half, Join, Sibling;
    if |s| > 1 {
      UpAt(s, h, i);
      BranchLeadsToRoot(Up(s, h), h, i / 2);
      assert Branch(s, h, i)[1..] == Branch(Up(s, h), h, i / 2);
    }
  }

  ghost predicate CollisionResistant(h: Combine) {
    forall a, b, c, d | h(a, b) == h(c, d) :: a == c && b == d
  }

  lemma JoinInjective(x: Hash, a: Hash, y: Hash, b: Hash, h: Combine, i: int)
    requires CollisionResistant(h) && Join(x, a, h, i) == Join(y, b, h, i)
    ensures x == y && a == b
  {
  }

  /** Conversely, if the hash has no collisions, a branch of the right length proves only what is in
      the tree at that index. */
  lemma {:induction false} BranchProvesMembership(s: seq<Hash>, h: Combine, i: nat, x: Hash, branch: seq<Hash>)
    requires CollisionResistant(h) && i < |s| && |branch| == Depth(|s|)
    requires Fold(x, branch, h, i) == Root(s, h)
    ensures x == s[i] && branch == Branch(s, h, i)
    decreases |s|
  {
    hide Up, Half, Join, Sibling, CollisionResistant;
    if |s| > 1 {
      UpAt(s, h, i);
      BranchProvesMembership(Up(s, h), h, i / 2, Join(x, branch[0], h, i), branch[1..]);
      JoinInjective(x, branch[0], s[i], Sibling(s, i), h, i);
      assert branch == [branch[0]] + branch[1..];
    }
  }

  lemma RepeatedNode(s: seq<Hash>, h: Combine, i: nat)
    requires |s| % 2 == 1 && i < Half(|s|)
    ensures i < Half(|s| + 1) && Node(s + [s[|s| - 1]], h, i) == Node(s, h, i)
  {
    assert (s + [s[|s| - 1]])[2 * i] == s[2 * i];
  }

  /** The root does not determine the list: repeating the last leaf of an odd level is invisible. */
  lemma {:induction false} RepeatedLeafSameRoot(s: seq<Hash>, h: Combine)
    requires |s| > 1 && |s| % 2 == 1
    ensures Root(s + [s[|s| - 1]], h) == Root(s, h)
  {
    hide Up;
    RepeatedUp(s, h);
  }

  lemma RepeatedUp(s: seq<Hash>, h: Combine)
    requires |s| % 2 == 1
    ensures Up(s + [s[|s| - 1]], h) == Up(s, h)
  {
    hide Node;
    var t := s + [s[|s| - 1]];
    assert Half(|t|) == Half(|s|);
    hide Half;
    forall i: nat | i < Half(|s|)
      ensures Up(t, h)[i] == Up(s, h)[i]
    {
      RepeatedNode(s, h, i);
      assert Up(t, h)[i] == Node(t, h, i);
      assert Up(s, h)[i] == Node(s, h, i);
    }
  }

  /** Among lists of one length the root determines the list. */
  lemma {:induction false} RootDeterminesLeaves(s: seq<Hash>, t: seq<Hash>, h: Combine)
    requires CollisionResistant(h) && |s| == |t|
    ensures Root(s, h) == Root(t, h) <==> s == t
  {
    hide Root, Fold, Branch, Depth, CollisionResistant;
    if Root(s, h) == Root(t, h) {
      forall i: nat | i < |s|
        ensures s[i] == t[i]
      {
        BranchLeadsToRoot(s, h, i);
        BranchProvesMembership(t, h, i, s[i], Branch(s, h, i));
      }
    }
  }

  lemma UpDistinct(s: seq<Hash>, h: Combine)
    requires CollisionResistant(h) && Distinct(s)
    ensures Distinct(Up(s, h))
  {
    forall i, j | 0 <= i < j < |Up(s, h)|
      ensures Up(s, h)[i] != Up(s, h)[j]
    {
      assert s[2 * i] != s[2 * j];
      assert Node(s, h, i) != Node(s, h, j);
    }
  }

  /** Two distinct lists with one parent level are one list: only a repeated last leaf hides. */
  lemma SameParents(s: seq<Hash>, t: seq<Hash>, h: Combine)
    requires CollisionResistant(h) && Distinct(s) && Distinct(t) && |s| <= |t|
    requires Up(s, h) == Up(t, h)
    ensures s == t
  {
    hide CollisionResistant, Node;
    assert Half(|s|) == Half(|t|);
    if |s| < |t| {
      var i := Half(|s|) - 1;
      assert |t| == 2 * i + 2 && |s| == 2 * i + 1;
      assert Up(s, h)[i] == Node(s, h, i) && Up(t, h)[i] == Node(t, h, i);
      NodeInjective(s, t, h, i);
    }
    forall i: nat | i < Half(|s|)
      ensures s[2 * i] == t[2 * i] && s[Min(2 * i + 1, |s| - 1)] == t[Min(2 * i + 1, |t| - 1)]
    {
      assert Up(s, h)[i] == Node(s, h, i) && Up(t, h)[i] == Node(t, h, i);
      NodeInjective(s, t, h, i);
    }
    forall k | 0 <= k < |s|
      ensures s[k] == t[k]
    {
      var i := k / 2;
      assert k == 2 * i || k == 2 * i + 1;
    }
  }

  lemma NodeInjective(s: seq<Hash>, t: seq<Hash>, h: Combine, i: nat)
    requires CollisionResistant(h) && i < Half(|s|) && i < Half(|t|) && Node(s, h, i) == Node(t, h, i)
    ensures s[2 * i] == t[2 * i] && s[Min(2 * i + 1, |s| - 1)] == t[Min(2 * i + 1, |t| - 1)]
  {
  }

  /** Among trees of one depth the root determines a list without repetitions, which is what
      CheckBlock's test for duplicate transactions makes sure of. */
  lemma {:induction false} RootDeterminesDistinctLeaves(s: seq<Hash>, t: seq<Hash>, h: Combine)
    requires CollisionResistant(h) && s != [] && t != [] && Distinct(s) && Distinct(t)
    requires Depth(|s|) == Depth(|t|)
    ensures Root(s, h) == Root(t, h) <==> s == t
    decreases |s|
  {
    hide CollisionResistant, Up, Half, Distinct;
    if |s| > 1 && Root(s, h) == Root(t, h) {
      UpDistinct(s, h);
      UpDistinct(t, h);
      RootDeterminesDistinctLeaves(Up(s, h), Up(t, h), h);
      if |s| <= |t| {
        SameParents(s, t, h);
      } else {
        SameParents(t, s, h);
      }
    }
  }

  /** The depth has to be known: a node can be passed off as a leaf. */
  lemma NodeAsLeaf(a: Hash, b: Hash, h: Combine)
    ensures Root([h(a, b)], h) == Root([a, b], h)
  {
    assert Up([a, b], h) == [Node([a, b], h, 0)];
  }

  lemma {:induction false} LastLevelIsRoot(s: seq<Hash>, h: Combine)
    requires s != []
    ensures Levels(s, h) != [] && Levels(s, h)[|Levels(s, h)| - 1] == Root(s, h)
    decreases |s|
  {
    hide Up, Half;
    if |s| > 1 {
      LastLevelIsRoot(Up(s, h), h);
    }
  }

  // ----- the operations

  class Block {
    /** The hashes of vtx. */
    const ids: seq<Hash>
    const h: Combine
    var vMerkleTree: seq<Hash>

    constructor (ids: seq<Hash>, h: Combine)
      ensures this.ids == ids && this.h == h && vMerkleTree == []
    {
      this.ids, this.h := ids, h;
      vMerkleTree := [];
    }

    method BuildMerkleTree() returns (root: Hash)
      modifies this
      ensures vMerkleTree == Levels(ids, h) && root == Root(ids, h)
    {
      hide Up;
      vMerkleTree := ids;
      var j := 0;
      var nSize := |ids|;
      ghost var level := ids;
      while nSize > 1
        invariant |level| == nSize && j + nSize == |vMerkleTree| && vMerkleTree[j..] == level
        invariant vMerkleTree[..j] + Levels(level, h) == Levels(ids, h)
        invariant Root(level, h) == Root(ids, h)
        invariant ids != [] ==> nSize > 0
      {
        ghost var before := vMerkleTree;
        AddLevel(j, nSize, level);
        LevelDone(before, level, Up(level, h), Levels(Up(level, h), h), j);
        j := j + nSize;
        level := Up(level, h);
        nSize := Half(nSize);
      }
      assert vMerkleTree == vMerkleTree[..j] + level;
      if ids != [] {
        LastLevelIsRoot(ids, h);
      }
      root := if vMerkleTree == [] then 0 else vMerkleTree[|vMerkleTree| - 1];
    }

    /** The inner loop: one more level. */
    method AddLevel(j: nat, nSize: nat, ghost level: seq<Hash>)
      requires nSize > 1 && |level| == nSize && j + nSize == |vMerkleTree| && vMerkleTree[j..] == level
      modifies this
      ensures vMerkleTree == old(vMerkleTree) + Up(level, h)
    {
      var i := 0;
      ghost var before, k := vMerkleTree, 0;
      while i < nSize
        invariant i == 2 * k && k <= Half(nSize)
        invariant vMerkleTree == before + Up(level, h)[..k]
        decreases nSize - i
      {
        var i2 := Min(i + 1, nSize - 1);
        assert before[j + i] == before[j..][i] && before[j + i2] == before[j..][i2];
        assert Up(level, h)[k] == Node(level, h, k) == h(vMerkleTree[j + i], vMerkleTree[j + i2]);
        vMerkleTree := vMerkleTree + [h(vMerkleTree[j + i], vMerkleTree[j + i2])];
        i := i + 2;
        k := k + 1;
      }
      assert k == Half(nSize);
    }

    /** Requires any cached tree to be for this list of transactions. */
    method GetMerkleBranch(nIndex: nat) returns (branch: seq<Hash>)
      requires vMerkleTree == [] || vMerkleTree == Levels(ids, h)
      modifies this
      ensures vMerkleTree == Levels(ids, h) && branch == Branch(ids, h, nIndex)
    {
      if vMerkleTree == [] {
        var root := BuildMerkleTree();
      }
      hide Up, Levels, Branch, Half, OtherSide;
      branch := [];
      var j := 0;
      var nSize := |ids|;
      var index := nIndex;
      ghost var level := ids;
      while nSize > 1
        invariant |level| == nSize && j + |Levels(level, h)| == |vMerkleTree| && vMerkleTree[j..] == Levels(level, h)
        invariant branch + Branch(level, h, index) == Branch(ids, h, nIndex)
        invariant vMerkleTree == Levels(ids, h)
      {
        var i := OtherSide(index, nSize);
        LevelBelow(vMerkleTree, level, h, j);
        BranchStep(branch, level, h, index);
        assert vMerkleTree[j + i] == level[i] == Sibling(level, index);
        branch := branch + [vMerkleTree[j + i]];
        index := index / 2;
        j := j + nSize;
        level := Up(level, h);
        nSize := Half(nSize);
      }
      BranchEnds(level, h, index);
    }
  }

  lemma {:induction false} BranchEnds(level: seq<Hash>, h: Combine, index: nat)
    requires |level| <= 1
    ensures Branch(level, h, index) == []
  {
  }

  lemma {:induction false} LevelBelow(tree: seq<Hash>, level: seq<Hash>, h: Combine, j: nat)
    requires j <= |tree| && tree[j..] == Levels(level, h) && |level| > 1
    ensures j + |level| <= |tree| && tree[j + |level|..] == Levels(Up(level, h), h)
    ensures forall i | 0 <= i < |level| :: tree[j + i] == level[i]
  {
    hide Up;
    assert forall i | 0 <= i < |level| :: tree[j + i] == tree[j..][i];
    assert tree[j..][|level|..] == tree[j + |level|..];
  }

  lemma {:induction false} BranchStep(branch: seq<Hash>, level: seq<Hash>, h: Combine, index: nat)
    requires |level| > 1
    ensures (branch + [Sibling(level, index)]) + Branch(Up(level, h), h, index / 2) == branch + Branch(level, h, index)
  {
    hide Up, Sibling;
  }

  lemma LevelDone(before: seq<Hash>, level: seq<Hash>, up: seq<Hash>, rest: seq<Hash>, j: nat)
    requires j + |level| == |before| && before[j..] == level
    ensures before == before[..j] + level
    ensures (before + up)[..j + |level|] == before && (before + up)[j + |level|..] == up
    ensures before[..j] + (level + rest) == before + rest
  {
  }

  method CheckMerkleBranch(x: Hash, branch: seq<Hash>, nIndex: int, h: Combine) returns (hash: Hash)
    ensures hash == if nIndex == -1 then 0 else Fold(x, branch, h, nIndex)
  {
    if nIndex == -1 {
      return 0;
    }
    hash := x;
    var index := nIndex;
    for k := 0 to |branch|
      invariant Fold(hash, branch[k..], h, index) == Fold(x, branch, h, nIndex)
    {
      assert branch[k..][1..] == branch[k + 1..];
      if index % 2 == 1 {
        hash := h(branch[k], hash);
      } else {
        hash := h(hash, branch[k]);
      }
      index := index / 2;
    }
    assert branch[|branch|..] == [];
  }

  /** The promise of the three together, as they are called. */
  method BranchChecksOut(b: Block, i: nat) returns (ok: bool)
    requires i < |b.ids| && b.vMerkleTree == []
    modifies b
    ensures ok
  {
    var root := b.BuildMerkleTree();
    var branch := b.GetMerkleBranch(i);
    var hash := CheckMerkleBranch(b.ids[i], branch, i, b.h);
    BranchLeadsToRoot(b.ids, b.h, i);
    ok := hash == root;
  }
}
