/** The tree of block indexes (mapBlockIndex): paths to genesis, forks, and what replaying a
    path leaves in the transaction index. CBlockIndex pointers are block hashes here. */
module BlockTree {
  import opened Basics
  import opened Ledger
  import opened Inputs
  import opened Provenance
  import opened Supply

  /** The part of CBlockIndex that never changes, with the block ReadFromDisk returns for it. */
  datatype Node = Node(prev: Hash, height: nat, trust: nat, time: nat, at: BlockPos, block: Block)

  type Tree = map<Hash, Node>

  predicate LinkOk(t: Tree, h: Hash) {
    && h in t && t[h].prev in t
    && t[h].height == t[t[h].prev].height + 1
    && t[h].trust >= t[t[h].prev].trust
  }

  /** g is the root, every other node hangs from a node one lower. */
  predicate WfTree(t: Tree, g: Hash) {
    g in t && t[g].height == 0 && forall h {:trigger LinkOk(t, h)} | h in t :: h == g || LinkOk(t, h)
  }

  /** The blocks from genesis to h. */
  function Path(t: Tree, g: Hash, h: Hash): (p: seq<Hash>)
    requires WfTree(t, g) && h in t
    ensures |p| == t[h].height + 1 && p[0] == g && p[|p| - 1] == h
    ensures forall x | x in p :: x in t
    decreases t[h].height
  {
    if h == g then [g]
    else
      assert LinkOk(t, h);
      Path(t, g, t[h].prev) + [h]
  }

  predicate OnPath(t: Tree, g: Hash, a: Hash, h: Hash)
    requires WfTree(t, g)
  {
    h in t && a in Path(t, g, h)
  }

  lemma {:induction false} PathStep(t: Tree, g: Hash, h: Hash)
    requires WfTree(t, g) && h in t && h != g
    ensures t[h].prev in t && t[h].height == t[t[h].prev].height + 1 && t[t[h].prev].trust <= t[h].trust
    ensures Path(t, g, h) == Path(t, g, t[h].prev) + [h]
  {
    assert LinkOk(t, h);
  }

  lemma {:induction false} PathPrefix(t: Tree, g: Hash, h: Hash, k: nat)
    requires WfTree(t, g) && h in t && k <= t[h].height
    ensures Path(t, g, Path(t, g, h)[k]) == Path(t, g, h)[..k + 1]
    ensures t[Path(t, g, h)[k]].height == k
    ensures t[Path(t, g, h)[k]].trust <= t[h].trust
    decreases t[h].height
  {
    var p := Path(t, g, h);
    if k == t[h].height {
      assert p[..k + 1] == p;
    } else {
      PathStep(t, g, h);
      PathPrefix(t, g, t[h].prev, k);
      assert p[k] == Path(t, g, t[h].prev)[k];
      assert p[..k + 1] == Path(t, g, t[h].prev)[..k + 1];
    }
  }

  /** An ancestor sits on the path at its own height. */
  lemma {:induction false} OnPathAt(t: Tree, g: Hash, a: Hash, h: Hash)
    requires WfTree(t, g) && OnPath(t, g, a, h)
    ensures t[a].height <= t[h].height && Path(t, g, h)[t[a].height] == a
    ensures Path(t, g, a) == Path(t, g, h)[..t[a].height + 1]
    ensures t[a].trust <= t[h].trust
  {
    var k :| 0 <= k < |Path(t, g, h)| && Path(t, g, h)[k] == a;
    PathPrefix(t, g, h, k);
  }

  lemma OnPathTransitive(t: Tree, g: Hash, a: Hash, b: Hash, c: Hash)
    requires WfTree(t, g) && OnPath(t, g, a, b) && OnPath(t, g, b, c)
    ensures OnPath(t, g, a, c)
  {
    OnPathAt(t, g, b, c);
  }

  lemma OnPathParent(t: Tree, g: Hash, a: Hash, h: Hash)
    requires WfTree(t, g) && h in t && h != g
    ensures t[h].prev in t
    ensures OnPath(t, g, a, h) <==> a == h || OnPath(t, g, a, t[h].prev)
  {
    PathStep(t, g, h);
  }

  lemma PathSelf(t: Tree, g: Hash, h: Hash)
    requires WfTree(t, g) && h in t
    ensures OnPath(t, g, h, h) && OnPath(t, g, g, h)
  {
    assert Path(t, g, h)[|Path(t, g, h)| - 1] == h && Path(t, g, h)[0] == g;
  }

  /** Two ancestors of one block at the same height are the same block. */
  lemma SameHeight(t: Tree, g: Hash, a: Hash, b: Hash, h: Hash)
    requires WfTree(t, g) && OnPath(t, g, a, h) && OnPath(t, g, b, h) && t[a].height == t[b].height
    ensures a == b
  {
    OnPathAt(t, g, a, h);
    OnPathAt(t, g, b, h);
  }

  /** Of two ancestors of one block, the lower is an ancestor of the higher. */
  lemma AncestorsOrdered(t: Tree, g: Hash, a: Hash, b: Hash, h: Hash)
    requires WfTree(t, g) && OnPath(t, g, a, h) && OnPath(t, g, b, h) && t[a].height <= t[b].height
    ensures OnPath(t, g, a, b)
  {
    OnPathAt(t, g, a, h);
    OnPathAt(t, g, b, h);
    assert Path(t, g, b)[t[a].height] == a;
  }

  /** Consecutive blocks of a path are parent and child. */
  lemma {:induction false} PathPrev(t: Tree, g: Hash, h: Hash, k: nat)
    requires WfTree(t, g) && h in t && 1 <= k <= t[h].height
    ensures Path(t, g, h)[k] in t && Path(t, g, h)[k - 1] in t
    ensures Path(t, g, h)[k] != g && t[Path(t, g, h)[k]].prev == Path(t, g, h)[k - 1]
  {
    var x := Path(t, g, h)[k];
    PathPrefix(t, g, h, k);
    PathStep(t, g, x);
    assert Path(t, g, h)[..k + 1][k - 1] == Path(t, g, t[x].prev)[k - 1];
  }

  // ----- adding a block

  /** A walk towards genesis over pprev that stops at height n. */
  method WalkDown(t: Tree, g: Hash, h: Hash, n: nat) returns (x: Hash)
    requires WfTree(t, g) && h in t
    ensures x in t && x == if n <= t[h].height then Path(t, g, h)[n] else h
    ensures t[x].height <= n && OnPath(t, g, x, h)
  {
    x := h;
    PathSelf(t, g, h);
    OnPathAt(t, g, h, h);
    while t[x].height > n
      invariant x in t && t[x].height <= t[h].height && x == Path(t, g, h)[t[x].height]
      invariant if n <= t[h].height then n <= t[x].height else x == h
      decreases t[x].height
    {
      PathPrev(t, g, h, t[x].height);
      PathPrefix(t, g, h, t[x].height - 1);
      x := t[x].prev;
    }
    if n <= t[h].height {
      PathPrefix(t, g, h, n);
    }
  }

  lemma WfExtend(t: Tree, g: Hash, h: Hash, n: Node)
    requires WfTree(t, g) && h !in t && n.prev in t
    requires n.height == t[n.prev].height + 1 && n.trust >= t[n.prev].trust
    ensures WfTree(t[h := n], g)
  {
    var t' := t[h := n];
    forall x | x in t'
      ensures x == g || LinkOk(t', x)
    {
      if x != h && x != g {
        assert LinkOk(t, x);
      }
    }
  }

  lemma {:induction false} PathExtend(t: Tree, g: Hash, h: Hash, n: Node, x: Hash)
    requires WfTree(t, g) && h !in t && WfTree(t[h := n], g) && x in t
    ensures Path(t[h := n], g, x) == Path(t, g, x)
    decreases t[x].height
  {
    if x != g {
      PathStep(t, g, x);
      PathExtend(t, g, h, n, t[x].prev);
      PathStep(t[h := n], g, x);
    }
  }

  // ----- replaying a path

  /** The transaction index after connecting every block after genesis up to h. */
  function Replay(t: Tree, g: Hash, h: Hash): TxMap
    requires WfTree(t, g) && h in t
    decreases t[h].height
  {
    if h == g then map[]
    else
      assert LinkOk(t, h);
      ApplyBlock(Replay(t, g, t[h].prev), t[h].at, t[h].block)
  }

  /** Every block after genesis up to h connects to what is before it. */
  predicate ChainConnects(t: Tree, g: Hash, h: Hash)
    requires WfTree(t, g) && h in t
    decreases t[h].height
  {
    h == g ||
    (assert LinkOk(t, h);
     && ChainConnects(t, g, t[h].prev)
     && Connects(Replay(t, g, t[h].prev), t[h].at, t[h].block))
  }

  lemma {:induction false} ReplayStep(t: Tree, g: Hash, h: Hash)
    requires WfTree(t, g) && h in t && h != g
    ensures t[h].prev in t
    ensures Replay(t, g, h) == ApplyBlock(Replay(t, g, t[h].prev), t[h].at, t[h].block)
    ensures ChainConnects(t, g, h) <==>
            ChainConnects(t, g, t[h].prev) && Connects(Replay(t, g, t[h].prev), t[h].at, t[h].block)
  {
    assert LinkOk(t, h);
  }

  /** What AcceptBlock and WriteToDisk establish for a block: its transactions are on file, and
      its coinbase starts with its height. */
  predicate Stored(t: Tree, file: TxFile, h: Hash) {
    && h in t && Filed(t[h].at, t[h].block, file)
    && t[h].block.vtx != [] && Tagged(t[h].block.vtx[0], t[h].height)
  }

  predicate AllStored(t: Tree, g: Hash, file: TxFile) {
    forall h {:trigger Stored(t, file, h)} | h in t :: h == g || Stored(t, file, h)
  }

  lemma StoredAt(t: Tree, g: Hash, file: TxFile, h: Hash)
    requires AllStored(t, g, file) && h in t && h != g
    ensures Stored(t, file, h)
  {
    assert h == g || Stored(t, file, h);
  }

  /** Along a chain that connects, the index is good and no id is ever overwritten. */
  lemma {:induction false} ReplayGood(t: Tree, g: Hash, file: TxFile, h: Hash)
    requires WfTree(t, g) && h in t && ChainConnects(t, g, h)
    requires AllStored(t, g, file) && CollisionFree(file)
    ensures GoodIndex(Replay(t, g, h), file, t[h].height)
    ensures h != g ==> t[h].prev in t && FreshIds(Replay(t, g, t[h].prev), t[h].block)
    decreases t[h].height
  {
    if h == g {
      assert Replay(t, g, h) == map[];
    } else {
      PathStep(t, g, h);
      ReplayStep(t, g, h);
      StoredAt(t, g, file, h);
      hide WfTree, AllStored, CollisionFree, GoodIndex, Filed, Tagged, Connects, ApplyBlock, FreshIds, Replay, ChainConnects;
      var p := t[h].prev;
      ReplayGood(t, g, file, p);
      ConnectedIdsAreFresh(Replay(t, g, p), file, t[p].height, t[h].at, t[h].block);
    }
  }

  /** DisconnectBlock takes the index of a chain back to the index of its parent. */
  lemma {:induction false} UndoTip(t: Tree, g: Hash, file: TxFile, h: Hash)
    requires WfTree(t, g) && h in t && h != g && ChainConnects(t, g, h)
    requires AllStored(t, g, file) && CollisionFree(file)
    ensures t[h].prev in t && ChainConnects(t, g, t[h].prev)
    ensures UndoBlock(Replay(t, g, h), t[h].block) == Some(Replay(t, g, t[h].prev))
  {
    PathStep(t, g, h);
    ReplayGood(t, g, file, h);
    DisconnectUndoesConnect(Replay(t, g, t[h].prev), t[h].at, t[h].block);
  }

  lemma {:induction false} ReplayExtend(t: Tree, g: Hash, h: Hash, n: Node, x: Hash)
    requires WfTree(t, g) && h !in t && WfTree(t[h := n], g) && x in t
    ensures Replay(t[h := n], g, x) == Replay(t, g, x)
    ensures ChainConnects(t[h := n], g, x) == ChainConnects(t, g, x)
    decreases t[x].height
  {
    if x != g {
      PathStep(t, g, x);
      ReplayExtend(t, g, h, n, t[x].prev);
    }
  }

  lemma {:induction false} ChainConnectsDown(t: Tree, g: Hash, a: Hash, h: Hash)
    requires WfTree(t, g) && h in t && ChainConnects(t, g, h) && OnPath(t, g, a, h)
    ensures ChainConnects(t, g, a)
    decreases t[h].height
  {
    if a != h && h != g {
      PathStep(t, g, h);
      OnPathParent(t, g, a, h);
      ChainConnectsDown(t, g, a, t[h].prev);
    }
  }

  // ----- one transaction while a block is being connected

  /** The index while block b, the one at height `height` + 1, is being connected. */
  ghost predicate Connecting(m: TxMap, file: TxFile, height: nat, at: BlockPos, b: Block, i: nat) {
    && i <= |b.vtx|
    && GoodIndex(ApplyTxs(m, at, b, i), file, if i == 0 then height else height + 1)
  }

  lemma ConnectStep(m: TxMap, file: TxFile, height: nat, at: BlockPos, b: Block, i: nat)
    requires CollisionFree(file) && Filed(at, b, file) && i < |b.vtx|
    requires if i == 0 then b.vtx[0].IsCoinBase() && Tagged(b.vtx[0], height + 1) else Spending(b, i)
    requires SpendableAt(m, at, b, i)
    requires Connecting(m, file, height, at, b, i)
    ensures Connecting(m, file, height, at, b, i + 1)
    ensures var before := ApplyTxs(m, at, b, i);
            Total(ApplyTxs(m, at, b, i + 1), file)
            == Total(before, file) + ValueOut(b.vtx[i].vout)
               - OutValues(before, file, Spends(b.vtx[i]), |Spends(b.vtx[i])|)
  {
    var before := ApplyTxs(m, at, b, i);
    var pos := TxPosition(at, b, i);
    var reached := if i == 0 then height else height + 1;
    assert FiledAt(at, b, file, i);
    if i == 0 {
      FirstTxGood(m, file, height, at, b);
    } else {
      NextTxGood(m, file, height + 1, at, b, i);
    }
    forall o | o in Spends(b.vtx[i])
      ensures Describes(before[o.hash], o.hash, file)
    {
      assert Unspent(before, o);
      assert GoodEntry(before, file, reached, o.hash);
    }
    TotalApplyTx(before, file, b.vtx[i], pos);
  }

  // ----- the pnext links

  /** The links of the path to h: each block but the last points to the next. */
  function LinksOf(t: Tree, g: Hash, h: Hash): map<Hash, Hash>
    requires WfTree(t, g) && h in t
    decreases t[h].height
  {
    if h == g then map[]
    else
      assert LinkOk(t, h);
      LinksOf(t, g, t[h].prev)[t[h].prev := h]
  }

  /** The links are exactly the path. */
  lemma {:induction false} LinksAre(t: Tree, g: Hash, h: Hash, x: Hash)
    requires WfTree(t, g) && h in t
    ensures x in LinksOf(t, g, h) <==> OnPath(t, g, x, h) && x != h
    ensures x in LinksOf(t, g, h) ==>
              t[x].height < t[h].height && LinksOf(t, g, h)[x] == Path(t, g, h)[t[x].height + 1]
    decreases t[h].height
  {
    PathSelf(t, g, h);
    if h != g {
      PathStep(t, g, h);
      var p := t[h].prev;
      LinksAre(t, g, p, x);
      OnPathParent(t, g, x, h);
      if OnPath(t, g, x, p) {
        OnPathAt(t, g, x, p);
      }
      if OnPath(t, g, h, p) {
        OnPathAt(t, g, h, p);
      }
    }
  }

  lemma {:induction false} LinksShrink(t: Tree, g: Hash, h: Hash)
    requires WfTree(t, g) && h in t && h != g
    ensures t[h].prev in t && LinksOf(t, g, h) - {t[h].prev} == LinksOf(t, g, t[h].prev)
  {
    PathStep(t, g, h);
    LinksAre(t, g, t[h].prev, t[h].prev);
  }

  lemma {:induction false} LinksExtend(t: Tree, g: Hash, h: Hash, n: Node, x: Hash)
    requires WfTree(t, g) && h !in t && WfTree(t[h := n], g) && x in t
    ensures LinksOf(t[h := n], g, x) == LinksOf(t, g, x)
    decreases t[x].height
  {
    if x != g {
      PathStep(t, g, x);
      LinksExtend(t, g, h, n, t[x].prev);
    }
  }

  /** The file positions of h and its ancestors, at most n of them. */
  function RecentBlocks(t: Tree, g: Hash, h: Hash, n: nat): seq<BlockPos>
    requires WfTree(t, g) && h in t
    decreases n
  {
    if n == 0 then []
    else if h == g then [t[h].at]
    else
      assert LinkOk(t, h);
      [t[h].at] + RecentBlocks(t, g, t[h].prev, n - 1)
  }

  /** They are the places of h and of its ancestors less than n below it. */
  lemma {:induction false} RecentBlocksAre(t: Tree, g: Hash, h: Hash, n: nat, p: BlockPos)
    requires WfTree(t, g) && h in t
    ensures p in RecentBlocks(t, g, h, n) <==>
            exists x :: OnPath(t, g, x, h) && t[h].height - t[x].height < n && t[x].at == p
  {
    hide RecentBlocks, WfTree;
    if p in RecentBlocks(t, g, h, n) {
      var x := RecentFrom(t, g, h, n, p);
    }
    forall x: Hash | OnPath(t, g, x, h) && t[h].height - t[x].height < n
      ensures t[x].at in RecentBlocks(t, g, h, n)
    {
      RecentHas(t, g, h, n, x);
    }
  }

  lemma {:induction false} RecentHas(t: Tree, g: Hash, h: Hash, n: nat, x: Hash)
    requires WfTree(t, g) && OnPath(t, g, x, h) && t[h].height - t[x].height < n
    ensures t[x].at in RecentBlocks(t, g, h, n)
    decreases n
  {
    OnPathAt(t, g, x, h);
    if x != h && h != g {
      PathStep(t, g, h);
      OnPathParent(t, g, x, h);
      RecentHas(t, g, t[h].prev, n - 1, x);
    }
  }

  lemma {:induction false} RecentFrom(t: Tree, g: Hash, h: Hash, n: nat, p: BlockPos) returns (x: Hash)
    requires WfTree(t, g) && h in t && p in RecentBlocks(t, g, h, n)
    ensures OnPath(t, g, x, h) && t[h].height - t[x].height < n && t[x].at == p
    decreases n
  {
    PathSelf(t, g, h);
    if t[h].at == p {
      x := h;
    } else {
      PathStep(t, g, h);
      x := RecentFrom(t, g, t[h].prev, n - 1, p);
      OnPathParent(t, g, x, h);
    }
  }
}
