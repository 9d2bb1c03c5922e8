/** The node's view of the chain: the block tree, the committed transaction index, the pnext
    links and the best block, moved together by SetBestChain (src/main.cpp). */
module ChainState {
  import opened Basics
  import opened Ledger
  import opened Inputs
  import opened Provenance
  import opened Supply
  import opened BlockTree
  import opened Fork
  import opened TxDb
  import opened Chain

  /** The block tree and the block files under it. */
  ghost predicate World(t: Tree, g: Hash, file: TxFile) {
    WfTree(t, g) && AllStored(t, g, file) && CollisionFree(file)
  }

  /** A proof-of-stake block raised the value of all unspent outputs by at most the reward for the
      coin age of its coinstake, at the rate of the early chain. */
  ghost predicate StakeBounded(t: Tree, g: Hash, file: TxFile, a: Hash -> Answers, h: Hash)
    requires WfTree(t, g)
  {
    h in t && h != g && t[h].prev in t && t[h].block.IsProofOfStake() ==>
      && a(h).coinAge.Some?
      && Total(Replay(t, g, h), file) - Total(Replay(t, g, t[h].prev), file)
         <= ProofOfStakeReward(a(h).coinAge.value, 0, 0)
  }

  /** nMoneySupply of every block up to tip is the value of all unspent outputs at that block, and
      stake blocks minted no more than they may. */
  ghost predicate SuppliesOk(t: Tree, g: Hash, file: TxFile, a: Hash -> Answers, supply: map<Hash, int>, tip: Hash)
    requires WfTree(t, g)
  {
    forall h {:trigger OnPath(t, g, h, tip)} | OnPath(t, g, h, tip) ::
      h in supply && supply[h] == Total(Replay(t, g, h), file) && StakeBounded(t, g, file, a, h)
  }

  /** Which reads and writes of one call succeed: reading a block to connect or disconnect it,
      committing the batch that makes a block the best one, loading a checkpoint's block and recording
      the checkpoint. Within a call each happens at most once. */
  datatype Disk = Disk(canRead: Hash -> bool, canCommit: Hash -> bool, canLoad: Hash -> bool, canRecord: Hash -> bool)

  /** All that decides which blocks connect. */
  datatype Chart = Chart(t: Tree, g: Hash, file: TxFile, a: Hash -> Answers, bestHeight: int)

  /** Block h passes ConnectBlock on top of its own branch. */
  ghost predicate Passes(c: Chart, h: Hash)
    requires WfTree(c.t, c.g)
  {
    && h in c.t && h != c.g && c.t[h].prev in c.t
    && BlockPasses(Replay(c.t, c.g, c.t[h].prev), c.t[h].at, c.t[h].block, c.file,
                   RecentBlocks(c.t, c.g, h, COINBASE_MATURITY), c.a(h), c.bestHeight)
  }

  /** A block that passes spends no coinbase or coinstake of the last 32 blocks of its branch, itself
      included. */
  lemma {:induction false} MaturityKept(c: Chart, h: Hash, k: nat, i: nat, x: Hash)
    requires WfTree(c.t, c.g) && Passes(c, h) && OnPath(c.t, c.g, x, h) && c.t[h].height - c.t[x].height < 32
    requires 1 <= k < |c.t[h].block.vtx| && i < |c.t[h].block.vtx[k].vin|
    ensures var now := ApplyTxs(Replay(c.t, c.g, c.t[h].prev), c.t[h].at, c.t[h].block, k);
            var o := c.t[h].block.vtx[k].vin[i].prevout;
            && o.hash in now && now[o.hash].pos in c.file
            && var p, prev := now[o.hash].pos, c.file[now[o.hash].pos];
               p.At? && (prev.IsCoinBase() || prev.IsCoinStake()) ==> BlockPos(p.file, p.blockPos) != c.t[x].at
  {
    hide TxPasses, ApplyTxs, Replay, WfTree, Path, OnPath, CheckTransaction, TallyUpTo, RewardOk, Distinct, RecentBlocks;
    var b, view := c.t[h].block, Replay(c.t, c.g, c.t[h].prev);
    var recent := RecentBlocks(c.t, c.g, h, COINBASE_MATURITY);
    State.OnPathKnown(c.t, c.g, x, h);
    RecentBlocksAre(c.t, c.g, h, COINBASE_MATURITY, c.t[x].at);
    TxsPassDown(view, c.t[h].at, b, c.file, recent, c.a(h), c.bestHeight, k + 1, |b.vtx|);
    SpendsMature(view, ApplyTxs(view, c.t[h].at, b, k), c.file, b.vtx[k], recent, Signatures(c.a(h), b.vtx[k], c.bestHeight), i);
  }

  /** x is read and connects. */
  ghost predicate Connectable(c: Chart, disk: Disk, x: Hash)
    requires WfTree(c.t, c.g)
  {
    disk.canRead(x) && Passes(c, x)
  }

  /** Reorganize from best to tip can be carried out. */
  ghost predicate CanReorganize(c: Chart, best: Hash, tip: Hash, disk: Disk)
    requires WfTree(c.t, c.g)
  {
    && (forall x | OnPath(c.t, c.g, x, best) && !OnPath(c.t, c.g, x, tip) :: disk.canRead(x))
    && (forall x | OnPath(c.t, c.g, x, tip) && !OnPath(c.t, c.g, x, best) :: Connectable(c, disk, x))
    && disk.canCommit(tip)
  }

  /** The branch outweighs trust w before x is added to it. */
  predicate OutweighsBelow(t: Tree, g: Hash, w: nat, x: Hash) {
    x in t && x != g && t[x].prev in t && t[t[x].prev].trust > w
  }

  /** No branch that ends below `first` outweighs trust w, and every branch that ends above it does
      so without its last block. */
  ghost predicate FirstHeavier(t: Tree, g: Hash, w: nat, tip: Hash, first: Hash)
    requires WfTree(t, g)
  {
    && OnPath(t, g, first, tip)
    && (forall x | OnPath(t, g, x, first) && x != first :: t[x].trust <= w)
    && (forall x | OnPath(t, g, x, tip) && !OnPath(t, g, x, first) :: OutweighsBelow(t, g, w, x))
  }

  /** The blocks of the branch fall on the two sides of `first` by trust alone. */
  lemma BelowFirst(t: Tree, g: Hash, w: nat, tip: Hash, first: Hash, x: Hash)
    requires WfTree(t, g) && FirstHeavier(t, g, w, tip, first) && OnPath(t, g, x, tip)
    ensures OnPath(t, g, x, first) <==> !OutweighsBelow(t, g, w, x)
  {
    if OnPath(t, g, x, first) && x != g {
      PathStep(t, g, x);
      var p := t[x].prev;
      PathSelf(t, g, p);
      OnPathParent(t, g, p, x);
      OnPathTransitive(t, g, p, x, first);
      OnPathAt(t, g, x, first);
      assert p != first && t[p].trust <= w;
    }
  }

  /** So there is only one first block that outweighs the best chain. */
  lemma FirstHeavierUnique(t: Tree, g: Hash, w: nat, tip: Hash, a: Hash, b: Hash)
    requires WfTree(t, g) && FirstHeavier(t, g, w, tip, a) && FirstHeavier(t, g, w, tip, b)
    ensures a == b
  {
    PathSelf(t, g, a);
    PathSelf(t, g, b);
    BelowFirst(t, g, w, tip, a, a);
    BelowFirst(t, g, w, tip, b, a);
    BelowFirst(t, g, w, tip, a, b);
    BelowFirst(t, g, w, tip, b, b);
    OnPathAt(t, g, a, b);
    OnPathAt(t, g, b, a);
    SameHeight(t, g, a, b, b);
  }

  /** SetBestChain(tip) succeeds: the new block connects to the best block, or the node can
      reorganise to the first block that outweighs the best chain. */
  ghost predicate CanSwitch(c: Chart, best: Hash, tip: Hash, disk: Disk)
    requires WfTree(c.t, c.g) && best in c.t && tip in c.t
  {
    if c.t[tip].prev == best then Passes(c, tip) && disk.canCommit(tip)
    else exists first :: FirstHeavier(c.t, c.g, c.t[best].trust, tip, first) && CanReorganize(c, best, first, disk)
  }

  /** The blocks whose connection is postponed until after the reorganisation. */
  ghost predicate Postponed(c: Chart, best: Hash, tip: Hash, x: Hash)
    requires WfTree(c.t, c.g) && best in c.t && tip in c.t
  {
    c.t[tip].prev != best && OnPath(c.t, c.g, x, tip) && OutweighsBelow(c.t, c.g, c.t[best].trust, x)
  }

  /** All of them connect and are committed. */
  ghost predicate CanFinish(c: Chart, best: Hash, tip: Hash, disk: Disk)
    requires WfTree(c.t, c.g) && best in c.t && tip in c.t
  {
    forall x | Postponed(c, best, tip, x) :: Connectable(c, disk, x) && disk.canCommit(x)
  }

  /** There always is one: a walk down from tip finds it. */
  lemma {:induction false} FirstHeavierExists(t: Tree, g: Hash, w: nat, tip: Hash) returns (first: Hash)
    requires WfTree(t, g) && tip in t
    ensures FirstHeavier(t, g, w, tip, first)
    decreases t[tip].height
  {
    PathSelf(t, g, tip);
    if OutweighsBelow(t, g, w, tip) {
      PathStep(t, g, tip);
      first := FirstHeavierExists(t, g, w, t[tip].prev);
      forall x
        ensures OnPath(t, g, x, tip) <==> x == tip || OnPath(t, g, x, t[tip].prev)
      {
        OnPathParent(t, g, x, tip);
      }
    } else {
      first := tip;
      if tip != g {
        PathStep(t, g, tip);
      }
      State.LighterBelow(t, g, w, tip);
    }
  }

  /** When the new block is not on the best block, the switch can be made exactly if the blocks only
      the best chain has can be read, every new block whose own branch is no heavier than the best
      chain without it connects, and the last of those can be committed. */
  lemma SwitchByTrust(c: Chart, best: Hash, tip: Hash, disk: Disk)
    requires WfTree(c.t, c.g) && best in c.t && tip in c.t && !OnPath(c.t, c.g, tip, best) && c.t[tip].prev != best
    ensures var t, w := c.t, c.t[best].trust;
            CanSwitch(c, best, tip, disk) <==>
              && (forall x | OnPath(t, c.g, x, best) && !OnPath(t, c.g, x, tip) :: disk.canRead(x))
              && (forall x | OnPath(t, c.g, x, tip) && !OnPath(t, c.g, x, best) && t[x].prev in t && t[t[x].prev].trust <= w ::
                    Connectable(c, disk, x) && (x == tip || t[x].trust > w ==> disk.canCommit(x)))
  {
    hide Connectable, WfTree, Path;
    var t, g, w := c.t, c.g, c.t[best].trust;
    var first := FirstHeavierExists(t, g, w, tip);
    State.FirstHeavierOnly(t, g, w, tip, first);
    OffBest(t, g, best, tip, first);
    LastBelow(t, g, w, tip, first);
    forall x: Hash | OnPath(t, g, x, tip) && !OnPath(t, g, x, best)
      ensures x in t && t[x].prev in t && x != g && (OnPath(t, g, x, first) <==> t[t[x].prev].trust <= w)
    {
      OnPathAt(t, g, x, tip);
      State.NotGenesis(t, g, x, best);
      BelowFirst(t, g, w, tip, first, x);
    }
  }

  /** The first block that outweighs the best chain is not in it, and leaves it where tip does. */
  lemma OffBest(t: Tree, g: Hash, best: Hash, tip: Hash, first: Hash)
    requires WfTree(t, g) && best in t && tip in t && !OnPath(t, g, tip, best)
    requires FirstHeavier(t, g, t[best].trust, tip, first)
    ensures !OnPath(t, g, first, best)
    ensures forall x | OnPath(t, g, x, best) :: OnPath(t, g, x, first) <==> OnPath(t, g, x, tip)
    ensures forall x | OnPath(t, g, x, first) :: OnPath(t, g, x, tip)
  {
    hide WfTree, Path;
    LastBelow(t, g, t[best].trust, tip, first);
    if OnPath(t, g, first, best) {
      OnPathAt(t, g, first, best);
    }
    forall x | OnPath(t, g, x, first)
      ensures OnPath(t, g, x, tip)
    {
      OnPathTransitive(t, g, x, first, tip);
    }
    forall x | OnPath(t, g, x, best) && OnPath(t, g, x, tip)
      ensures OnPath(t, g, x, first)
    {
      OnPathAt(t, g, x, tip);
      OnPathAt(t, g, first, tip);
      if t[first].height <= t[x].height {
        AncestorsOrdered(t, g, first, x, tip);
        OnPathTransitive(t, g, first, x, best);
      } else {
        AncestorsOrdered(t, g, x, first, tip);
      }
    }
  }

  /** Only `first` is committed at the end of the reorganisation. */
  lemma LastBelow(t: Tree, g: Hash, w: nat, tip: Hash, first: Hash)
    requires WfTree(t, g) && tip in t && FirstHeavier(t, g, w, tip, first)
    ensures OnPath(t, g, first, first) && (first == tip || t[first].trust > w)
    ensures forall x | OnPath(t, g, x, first) && (x == tip || t[x].trust > w) :: x == first
  {
    hide WfTree, Path;
    OnPathAt(t, g, first, tip);
    PathSelf(t, g, first);
    if OnPath(t, g, tip, first) {
      OnPathAt(t, g, tip, first);
    }
    if t[first].height == t[tip].height {
      State.LastOnPath(t, g, first, tip);
    } else {
      State.NextUp(t, g, first, tip);
      var x := Path(t, g, tip)[t[first].height + 1];
      if OnPath(t, g, x, first) {
        OnPathAt(t, g, x, first);
      }
      assert OutweighsBelow(t, g, w, x);
    }
  }

  /** The index entry of a new block on prev. */
  function NewNode(t: Tree, prev: Hash, blockTrust: nat, time: nat, at: BlockPos, b: Block): Node
    requires prev in t
  {
    Node(prev, t[prev].height + 1, t[prev].trust + blockTrust, time, at, b)
  }

  /** AddToBlockIndex succeeds for a new block n with hash h: its branch does not outweigh the best
      chain, or the node can switch to it. */
  ghost predicate CanIndex(c: Chart, best: Hash, h: Hash, n: Node, disk: Disk)
    requires best in c.t
  {
    n.trust <= c.t[best].trust ||
    (WfTree(c.t[h := n], c.g) &&
     CanSwitch(Extended(c, h, n), best, h, disk))
  }

  /** The chart once block n is written and indexed. */
  function Extended(c: Chart, h: Hash, n: Node): Chart {
    c.(t := c.t[h := n], file := c.file + FileOf(n.at, n.block, |n.block.vtx|))
  }

  lemma {:induction false} SupplyAt(t: Tree, g: Hash, file: TxFile, a: Hash -> Answers, supply: map<Hash, int>, tip: Hash)
    requires WfTree(t, g) && tip in t && SuppliesOk(t, g, file, a, supply, tip)
    ensures tip in supply && supply[tip] == Total(Replay(t, g, tip), file)
  {
    PathSelf(t, g, tip);
  }

  lemma {:induction false} SuppliesExtend(t: Tree, g: Hash, file: TxFile, a: Hash -> Answers, supply: map<Hash, int>,
                                          h: Hash, v: int)
    requires WfTree(t, g) && h in t && h != g && t[h].prev in t
    requires SuppliesOk(t, g, file, a, supply, t[h].prev) && v == Total(Replay(t, g, h), file)
    requires StakeBounded(t, g, file, a, h)
    ensures SuppliesOk(t, g, file, a, supply[h := v], h)
  {
    forall x | OnPath(t, g, x, h)
      ensures x in supply[h := v] && supply[h := v][x] == Total(Replay(t, g, x), file) && StakeBounded(t, g, file, a, x)
    {
      OnPathParent(t, g, x, h);
    }
  }

  lemma SuppliesDown(t: Tree, g: Hash, file: TxFile, a: Hash -> Answers, supply: map<Hash, int>, b: Hash, h: Hash)
    requires WfTree(t, g) && SuppliesOk(t, g, file, a, supply, h) && OnPath(t, g, b, h)
    ensures SuppliesOk(t, g, file, a, supply, b)
  {
    forall x | OnPath(t, g, x, b)
      ensures x in supply && supply[x] == Total(Replay(t, g, x), file) && StakeBounded(t, g, file, a, x)
    {
      OnPathTransitive(t, g, x, b, h);
    }
  }

  /** Reorganize's loop over vDisconnect, after it is listed. */
  method DisconnectDown(db: TxDB, t: Tree, g: Hash, ghost file: TxFile, tip: Hash, fork: Hash, v: seq<Hash>, disk: Disk)
    returns (ok: bool)
    requires db.active && World(t, g, file)
    requires OnPath(t, g, fork, tip) && ChainConnects(t, g, tip) && db.View() == Replay(t, g, tip)
    requires t[fork].height <= t[tip].height && v == Reversed(Path(t, g, tip)[t[fork].height + 1..])
    modifies db`pending
    ensures ok <==> forall x | x in v :: disk.canRead(x)
    ensures ok ==> ChainConnects(t, g, fork) && db.View() == Replay(t, g, fork)
  {
    hide ChainConnects, Replay, WfTree, AllStored, CollisionFree, Path, LinksOf, SuppliesOk;
    ghost var p, top := Path(t, g, tip), t[tip].height;
    for i := 0 to |v|
      invariant ChainConnects(t, g, p[top - i]) && db.View() == Replay(t, g, p[top - i])
      invariant forall j | 0 <= j < i :: disk.canRead(v[j])
    {
      PathPrev(t, g, tip, top - i);
      UndoTip(t, g, file, v[i]);
      if !disk.canRead(v[i]) {
        return false;
      }
      ok := DisconnectBlock(db, t[v[i]].block);
      assert ok;   // DisconnectBlock has an error return, but not for a connected block
    }
    OnPathAt(t, g, fork, tip);
    ok := true;
  }

  // ----- a new block

  /** What WriteToDisk puts in the block files: the first n transactions of b. */
  function FileOf(at: BlockPos, b: Block, n: nat): TxFile
    requires n <= |b.vtx|
  {
    if n == 0 then map[] else FileOf(at, b, n - 1)[TxPosition(at, b, n - 1) := b.vtx[n - 1]]
  }

  lemma {:induction false} OffsetsGrow(at: BlockPos, b: Block, i: nat, j: nat)
    requires i < j <= |b.vtx| && forall k | 0 <= k < |b.vtx| :: b.vtx[k].size > 0
    ensures TxOffset(at, b, i) < TxOffset(at, b, j)
  {
    if i < j - 1 {
      OffsetsGrow(at, b, i, j - 1);
    }
  }

  lemma {:induction false} FileOfHas(at: BlockPos, b: Block, n: nat, i: nat)
    requires i < n <= |b.vtx| && forall k | 0 <= k < |b.vtx| :: b.vtx[k].size > 0
    ensures TxPosition(at, b, i) in FileOf(at, b, n) && FileOf(at, b, n)[TxPosition(at, b, i)] == b.vtx[i]
  {
    if i < n - 1 {
      OffsetsGrow(at, b, i, n - 1);
      FileOfHas(at, b, n - 1, i);
    }
  }

  /** b can be appended at `at`: nothing is there yet, transactions have a size, and no id clashes
      with a different transaction. */
  ghost predicate Appendable(file: TxFile, at: BlockPos, b: Block) {
    && (forall i | 0 <= i < |b.vtx| :: b.vtx[i].size > 0)
    && FileOf(at, b, |b.vtx|).Keys !! file.Keys
    && CollisionFree(file + FileOf(at, b, |b.vtx|))
  }

  lemma {:induction false} AppendedFiled(file: TxFile, at: BlockPos, b: Block)
    requires Appendable(file, at, b)
    ensures Filed(at, b, file + FileOf(at, b, |b.vtx|))
  {
    forall i | 0 <= i < |b.vtx|
      ensures FiledAt(at, b, file + FileOf(at, b, |b.vtx|), i)
    {
      FileOfHas(at, b, |b.vtx|, i);
    }
  }

  lemma FiledKept(file: TxFile, more: TxFile, at: BlockPos, b: Block)
    requires Filed(at, b, file) && forall p | p in file :: p in more && more[p] == file[p]
    ensures Filed(at, b, more)
  {
    forall i | 0 <= i < |b.vtx|
      ensures FiledAt(at, b, more, i)
    {
      assert FiledAt(at, b, file, i);
    }
  }

  /** The world after block h is written and indexed. */
  lemma WorldExtend(t: Tree, g: Hash, file: TxFile, h: Hash, n: Node, more: TxFile)
    requires World(t, g, file) && h !in t && n.prev in t
    requires n.height == t[n.prev].height + 1 && n.trust >= t[n.prev].trust
    requires (forall p | p in file :: p in more && more[p] == file[p]) && CollisionFree(more)
    requires Filed(n.at, n.block, more) && n.block.vtx != [] && Tagged(n.block.vtx[0], n.height)
    ensures World(t[h := n], g, more)
  {
    hide Filed, Tagged, CollisionFree;
    WfExtend(t, g, h, n);
    var t' := t[h := n];
    forall x | x in t'
      ensures x == g || Stored(t', more, x)
    {
      if x != h && x != g {
        StoredAt(t, g, file, x);
        FiledKept(file, more, t[x].at, t[x].block);
      }
    }
  }

  lemma SupplyKept(t: Tree, g: Hash, file: TxFile, h: Hash, n: Node, more: TxFile, x: Hash)
    requires World(t, g, file) && h !in t && WfTree(t[h := n], g) && x in t && ChainConnects(t, g, x)
    requires forall p | p in file :: p in more && more[p] == file[p]
    ensures Total(Replay(t[h := n], g, x), more) == Total(Replay(t, g, x), file)
  {
    hide ChainConnects, Replay, WfTree, AllStored, CollisionFree;
    ReplayExtend(t, g, h, n, x);
    ReplayGood(t, g, file, x);
    var m := Replay(t, g, x);
    forall k | k in m
      ensures Describes(m[k], k, file)
    {
      assert GoodEntry(m, file, t[x].height, k);
    }
    TotalFileGrows(m, file, more);
  }

  lemma {:induction false} StakeKept(t: Tree, g: Hash, file: TxFile, a: Hash -> Answers, h: Hash, n: Node,
                                     more: TxFile, x: Hash)
    requires World(t, g, file) && h !in t && WfTree(t[h := n], g) && x in t && ChainConnects(t, g, x)
    requires (forall p | p in file :: p in more && more[p] == file[p]) && StakeBounded(t, g, file, a, x)
    ensures StakeBounded(t[h := n], g, more, a, x)
  {
    hide Replay, Total, WfTree, AllStored, CollisionFree, ChainConnects;
    SupplyKept(t, g, file, h, n, more, x);
    if x != g {
      ReplayStep(t, g, x);
      SupplyKept(t, g, file, h, n, more, t[x].prev);
    }
  }

  lemma {:induction false} SuppliesKeptByNewBlock(t: Tree, g: Hash, file: TxFile, a: Hash -> Answers, h: Hash,
                                                  n: Node, more: TxFile,
                               supply: map<Hash, int>, tip: Hash)
    requires World(t, g, file) && h !in t && WfTree(t[h := n], g) && tip in t && ChainConnects(t, g, tip)
    requires forall p | p in file :: p in more && more[p] == file[p]
    requires SuppliesOk(t, g, file, a, supply, tip)
    ensures SuppliesOk(t[h := n], g, more, a, supply, tip)
  {
    hide ChainConnects, Replay, WfTree, AllStored, CollisionFree, Path;
    PathExtend(t, g, h, n, tip);
    forall x | OnPath(t[h := n], g, x, tip)
      ensures x in supply && supply[x] == Total(Replay(t[h := n], g, x), more) && StakeBounded(t[h := n], g, more, a, x)
    {
      assert OnPath(t, g, x, tip);
      ChainConnectsDown(t, g, x, tip);
      OnPathAt(t, g, x, tip);
      SupplyKept(t, g, file, h, n, more, x);
      StakeKept(t, g, file, a, h, n, more, x);
    }
  }

  class State {
    const genesis: Hash
    const db: TxDB
    /** What code outside the model says about each block. */
    const answers: Hash -> Answers
    var tree: Tree
    /** What the block files hold at each transaction position. */
    var file: TxFile
    /** pnext; a block without an entry has a null pnext. */
    var next: map<Hash, Hash>
    /** nMoneySupply */
    var supply: map<Hash, int>
    var best: Hash
    var bestHeight: int
    var bestTrust: nat
    /** pblockindexFBBHLast */
    var lastFound: Option<Hash>

    /** The committed index is the replay of every block after genesis up to tip, and tip is the
        stored best hash. */
    ghost predicate Committed(tip: Hash)
      requires WfTree(tree, genesis)
      reads this, db
    {
      && tip in tree && ChainConnects(tree, genesis, tip)
      && db.txIndex == Replay(tree, genesis, tip) && db.bestHash == tip
    }

    /** The pnext links are the path to tip, and the money supplies along it are right. */
    ghost predicate Linked(tip: Hash)
      requires WfTree(tree, genesis)
      reads this
    {
      && tip in tree && next == LinksOf(tree, genesis, tip)
      && SuppliesOk(tree, genesis, file, answers, supply, tip)
    }

    ghost predicate Valid()
      reads this, db
    {
      && World(tree, genesis, file) && db.Clean() && Committed(best) && Linked(best)
      && bestHeight == tree[best].height && bestTrust == tree[best].trust
      && (lastFound.Some? ==> OnPath(tree, genesis, lastFound.value, best))
    }

    ghost function Now(): Chart
      reads this
    {
      Chart(tree, genesis, file, answers, bestHeight)
    }

    /** The genesis case of AddToBlockIndex and SetBestChain: the block is not connected, so its
        transactions are not indexed and its money supply is 0. */
    constructor (g: Hash, trust: nat, time: nat, at: BlockPos, b: Block, answers: Hash -> Answers)
      ensures Valid() && fresh(db)
      ensures genesis == g && best == g && tree == map[g := Node(0, 0, trust, time, at, b)] && file == map[]
      ensures this.answers == answers
    {
      genesis := g;
      this.answers := answers;
      db := new TxDB(g);
      tree, file := map[g := Node(0, 0, trust, time, at, b)], map[];
      next, supply := map[], map[g := 0];
      best, bestHeight, bestTrust, lastFound := g, 0, trust, None;
      new;
      forall h | OnPath(tree, genesis, h, best)
        ensures h in supply && supply[h] == Total(Replay(tree, genesis, h), file)
        ensures StakeBounded(tree, genesis, file, answers, h)
      {
      }
    }

    /** Reorganize's loop over vConnect. Supplies are written as blocks connect, and stay written
        if a later block fails. */
    method ConnectUp(tip: Hash, fork: Hash, v: seq<Hash>, disk: Disk) returns (ok: bool)
      requires db.active && World(tree, genesis, file) && OnPath(tree, genesis, fork, tip)
      requires ChainConnects(tree, genesis, fork) && db.View() == Replay(tree, genesis, fork)
      requires SuppliesOk(tree, genesis, file, answers, supply, fork)
      requires tree[fork].height <= tree[tip].height && v == Path(tree, genesis, tip)[tree[fork].height + 1..]
      modifies this`supply, db`pending
      ensures forall x | x in old(supply) && x !in v :: x in supply && supply[x] == old(supply)[x]
      ensures ok <==> forall x | x in v :: Connectable(Now(), disk, x)
      ensures ok ==> ChainConnects(tree, genesis, tip) && db.View() == Replay(tree, genesis, tip)
      ensures ok ==> SuppliesOk(tree, genesis, file, answers, supply, tip)
    {
      hide ChainConnects, Replay, WfTree, AllStored, CollisionFree, Path, LinksOf, SuppliesOk, Passes, TxDB.View, OnPath;
      OnPathKnown(tree, genesis, fork, tip);
      ghost var at := fork;
      for i := 0 to |v|
        invariant at in tree && tree[at].height == tree[fork].height + i && OnPath(tree, genesis, at, tip)
        invariant ChainConnects(tree, genesis, at) && db.View() == Replay(tree, genesis, at)
        invariant SuppliesOk(tree, genesis, file, answers, supply, at)
        invariant forall x | x in old(supply) && x !in v :: x in supply && supply[x] == old(supply)[x]
        invariant forall j | 0 <= j < i :: Connectable(Now(), disk, v[j])
      {
        NextUp(tree, genesis, at, tip);
        assert v[i] == Path(tree, genesis, tip)[tree[at].height + 1];
        if !disk.canRead(v[i]) {
          assert !Connectable(Now(), disk, v[i]);
          return false;
        }
        ok := ConnectOne(v[i]);
        if !ok {
          assert !Connectable(Now(), disk, v[i]);
          return;
        }
        at := v[i];
      }
      LastOnPath(tree, genesis, at, tip);
      ok := true;
    }

    /** ConnectBlock on a child of the block whose chain the index holds. */
    method ConnectOne(h: Hash) returns (ok: bool)
      requires db.active && World(tree, genesis, file) && h in tree && h != genesis && tree[h].prev in tree
      requires ChainConnects(tree, genesis, tree[h].prev) && db.View() == Replay(tree, genesis, tree[h].prev)
      requires SuppliesOk(tree, genesis, file, answers, supply, tree[h].prev)
      modifies this`supply, db`pending
      ensures forall x | x in old(supply) && x != h :: x in supply && supply[x] == old(supply)[x]
      ensures ok <==> Passes(Now(), h)
      ensures !ok ==> db.View() == old(db.View()) && supply == old(supply)
      ensures ok ==> ChainConnects(tree, genesis, h) && db.View() == Replay(tree, genesis, h)
      ensures ok ==> SuppliesOk(tree, genesis, file, answers, supply, h)
      ensures ok && tree[h].block.IsProofOfStake() ==>
                && answers(h).coinAge.Some? && h in supply && tree[h].prev in supply
                && supply[h] - supply[tree[h].prev] <= ProofOfStakeReward(answers(h).coinAge.value, 0, bestHeight)
    {
      hide ChainConnects, Replay, WfTree, AllStored, CollisionFree, Path, SuppliesOk;
      hide Connects, ApplyBlock, GoodIndex, Filed, Tagged, Total, RecentBlocks, TxDB.View, BlockPasses;
      var prev := tree[h].prev;
      SupplyAt(tree, genesis, file, answers, supply, prev);
      PathStep(tree, genesis, h);
      PathSelf(tree, genesis, prev);
      ReplayGood(tree, genesis, file, prev);
      ReplayStep(tree, genesis, h);
      StoredAt(tree, genesis, file, h);
      var recent := RecentBlocks(tree, genesis, h, COINBASE_MATURITY);
      var moneySupply;
      ok, moneySupply := ConnectBlock(db, tree[h].at, tree[h].block, file, recent, answers(h), bestHeight,
                                      supply[prev], tree[prev].height);
      if ok {
        if tree[h].block.IsProofOfStake() {
          EarlyRewardIsMost(answers(h).coinAge.value, 0, bestHeight);
        }
        SuppliesExtend(tree, genesis, file, answers, supply, h, moneySupply);
        supply := supply[h := moneySupply];
      }
    }
  
    /** Reorganize's last two loops: the links of the shorter branch are cleared, those of the
        longer branch set. */
    method Relink(tip: Hash, fork: Hash, down: seq<Hash>, up: seq<Hash>)
      requires World(tree, genesis, file) && OnPath(tree, genesis, fork, best) && OnPath(tree, genesis, fork, tip)
      requires next == LinksOf(tree, genesis, best)
      requires tree[fork].height <= tree[best].height && tree[fork].height <= tree[tip].height
      requires down == Reversed(Path(tree, genesis, best)[tree[fork].height + 1..])
      requires up == Path(tree, genesis, tip)[tree[fork].height + 1..]
      modifies this`next
      ensures next == LinksOf(tree, genesis, tip)
    {
      hide ChainConnects, Replay, WfTree, AllStored, CollisionFree, Path, SuppliesOk;
      ghost var p, top := Path(tree, genesis, best), tree[best].height;
      for i := 0 to |down|
        invariant next == LinksOf(tree, genesis, p[top - i])
      {
        PathPrev(tree, genesis, best, top - i);
        LinksShrink(tree, genesis, down[i]);
        next := next - {tree[down[i]].prev};
      }
      OnPathAt(tree, genesis, fork, best);
      OnPathAt(tree, genesis, fork, tip);
      ghost var q, base := Path(tree, genesis, tip), tree[fork].height;
      for i := 0 to |up|
        invariant next == LinksOf(tree, genesis, q[base + i])
      {
        PathPrev(tree, genesis, tip, base + i + 1);
        assert up[i] == q[base + i + 1];
        next := next[tree[up[i]].prev := up[i]];
      }
    }

    /** Reorganize's changes to the batch: disconnect the shorter branch, connect the longer. */
    method SwitchBranch(tip: Hash, fork: Hash, down: seq<Hash>, up: seq<Hash>, disk: Disk) returns (ok: bool)
      requires db.active && World(tree, genesis, file) && best in tree && tip in tree
      requires IsFork(tree, genesis, best, tip, fork)
      requires ChainConnects(tree, genesis, best) && db.View() == Replay(tree, genesis, best)
      requires SuppliesOk(tree, genesis, file, answers, supply, best)
      requires fork in tree && tree[fork].height <= tree[best].height && tree[fork].height <= tree[tip].height
      requires down == Reversed(Path(tree, genesis, best)[tree[fork].height + 1..])
      requires up == Path(tree, genesis, tip)[tree[fork].height + 1..]
      modifies this`supply, db`pending
      ensures SuppliesOk(tree, genesis, file, answers, supply, best)
      ensures ok <==> (forall x | x in down :: disk.canRead(x)) && forall x | x in up :: Connectable(Now(), disk, x)
      ensures ok ==> ChainConnects(tree, genesis, tip) && db.View() == Replay(tree, genesis, tip)
      ensures ok ==> SuppliesOk(tree, genesis, file, answers, supply, tip)
    {
      hide ChainConnects, Replay, WfTree, AllStored, CollisionFree, Path, SuppliesOk, TxDB.View, Reversed, OnPath, Connectable;
      ok := DisconnectDown(db, tree, genesis, file, best, fork, down, disk);
      if ok {
        SuppliesDown(tree, genesis, file, answers, supply, fork, best);
        ok := ConnectUp(tip, fork, up, disk);
        SuppliesKept(tree, genesis, file, answers, old(supply), supply, best, tip, fork, up);
      }
    }

    /** Reorganize's walks: the fork, what to disconnect and what to connect. */
    method Branches(tip: Hash) returns (fork: Hash, down: seq<Hash>, up: seq<Hash>)
      requires World(tree, genesis, file) && best in tree && tip in tree
      ensures IsFork(tree, genesis, best, tip, fork)
      ensures fork in tree && tree[fork].height <= tree[best].height && tree[fork].height <= tree[tip].height
      ensures OnPath(tree, genesis, fork, best) && OnPath(tree, genesis, fork, tip)
      ensures down == Reversed(Path(tree, genesis, best)[tree[fork].height + 1..])
      ensures up == Path(tree, genesis, tip)[tree[fork].height + 1..]
      ensures forall x :: x in down <==> OnPath(tree, genesis, x, best) && !OnPath(tree, genesis, x, tip)
      ensures forall x :: x in up <==> OnPath(tree, genesis, x, tip) && !OnPath(tree, genesis, x, best)
    {
      hide WfTree, AllStored, CollisionFree, Path, Reversed, OnPath, IsFork;
      fork := FindFork(tree, genesis, best, tip);
      down := CollectDown(tree, genesis, best, fork);
      up := CollectDown(tree, genesis, tip, fork);
      ReversedTwice(Path(tree, genesis, tip)[tree[fork].height + 1..]);
      up := Reversed(up);
      ForkSymmetric(tree, genesis, best, tip, fork);
      forall x
        ensures x in down <==> OnPath(tree, genesis, x, best) && !OnPath(tree, genesis, x, tip)
        ensures x in up <==> OnPath(tree, genesis, x, tip) && !OnPath(tree, genesis, x, best)
      {
        BranchMembers(tree, genesis, tip, best, fork, x);
        BranchMembers(tree, genesis, best, tip, fork, x);
        ReversedHas(Path(tree, genesis, best)[tree[fork].height + 1..], x);
      }
    }

    static lemma ReversedHas(s: seq<Hash>, x: Hash)
      ensures x in Reversed(s) <==> x in s
    {
      if x in s {
        var i :| 0 <= i < |s| && s[i] == x;
        assert Reversed(s)[|s| - 1 - i] == x;
      }
    }

    static lemma ForkSymmetric(t: Tree, g: Hash, a: Hash, b: Hash, f: Hash)
      requires WfTree(t, g) && IsFork(t, g, a, b, f)
      ensures IsFork(t, g, b, a, f)
    {
    }

    /** What lies above the fork on the branch to b is what b's branch does not share with a's. */
    static lemma {:induction false} BranchMembers(t: Tree, g: Hash, a: Hash, b: Hash, f: Hash, x: Hash)
      requires WfTree(t, g) && IsFork(t, g, a, b, f) && b in t && f in t && t[f].height <= t[b].height
      ensures x in Path(t, g, b)[t[f].height + 1..] <==> OnPath(t, g, x, b) && !OnPath(t, g, x, a)
    {
      hide WfTree, Path;
      var up := Path(t, g, b)[t[f].height + 1..];
      if x in up {
        var i :| 0 <= i < |up| && up[i] == x;
        assert Path(t, g, b)[t[f].height + 1 + i] == x;
        if OnPath(t, g, x, a) {
          NotOnOtherBranch(t, g, a, b, f, up, x);
        }
      }
      if OnPath(t, g, x, b) && !OnPath(t, g, x, a) {
        OnPathAt(t, g, x, b);
        if t[x].height <= t[f].height {
          AncestorsOrdered(t, g, x, f, b);
          OnPathTransitive(t, g, x, f, a);
        }
        assert up[t[x].height - (t[f].height + 1)] == x;
      }
    }

    /** Reorganize, inside the batch its caller began. On failure nothing is committed and the
        links have not moved. */
    method Reorganize(tip: Hash, disk: Disk) returns (ok: bool)
      requires db.active && db.View() == db.txIndex
      requires World(tree, genesis, file) && Committed(best) && Linked(best) && tip in tree
      modifies this`next, this`supply, db
      ensures ok <==> CanReorganize(Now(), best, tip, disk)
      ensures ok ==> db.Clean() && Committed(tip) && Linked(tip)
      ensures !ok ==> Committed(best) && Linked(best)
    {
      hide ChainConnects, Replay, WfTree, AllStored, CollisionFree, Path, LinksOf, SuppliesOk, TxDB.View;
      hide Reversed, OnPath, IsFork, Connectable;
      var fork, down, up := Branches(tip);
      ok := SwitchBranch(tip, fork, down, up, disk);
      if !ok {
        return;
      }
      db.WriteHashBestChain(tip);
      ok := db.TxnCommit(disk.canCommit(tip));
      if !ok {
        return;
      }
      Relink(tip, fork, down, up);
    }

    /** Connecting the other branch writes no supply of the current one. */
    static lemma {:induction false} SuppliesKept(t: Tree, g: Hash, file: TxFile, a: Hash -> Answers,
                                                 before: map<Hash, int>, after: map<Hash, int>,
                              best: Hash, b: Hash, f: Hash, up: seq<Hash>)
      requires WfTree(t, g) && IsFork(t, g, best, b, f) && SuppliesOk(t, g, file, a, before, best)
      requires t[f].height <= t[b].height && up == Path(t, g, b)[t[f].height + 1..]
      requires forall x | x in before && x !in up :: x in after && after[x] == before[x]
      ensures SuppliesOk(t, g, file, a, after, best)
    {
      hide Replay, Total, WfTree, StakeBounded;
      forall h | OnPath(t, g, h, best)
        ensures h in after && after[h] == Total(Replay(t, g, h), file) && StakeBounded(t, g, file, a, h)
      {
        NotOnOtherBranch(t, g, best, b, f, up, h);
      }
    }

    static lemma {:induction false} NotOnOtherBranch(t: Tree, g: Hash, a: Hash, b: Hash, f: Hash, up: seq<Hash>, h: Hash)
      requires WfTree(t, g) && IsFork(t, g, a, b, f) && OnPath(t, g, h, a)
      requires t[f].height <= t[b].height && up == Path(t, g, b)[t[f].height + 1..]
      ensures h !in up
    {
      if h in up {
        var i :| 0 <= i < |up| && up[i] == h;
        PathPrefix(t, g, b, t[f].height + 1 + i);
        AboveForkNotShared(t, g, a, b, f, h);
      }
    }

    /** SetBestChainInner, inside the batch its caller began: one more block on the stored chain. */
    method SetBestChainInner(h: Hash, disk: Disk) returns (ok: bool)
      requires db.active && db.View() == db.txIndex
      requires World(tree, genesis, file) && h in tree && h != genesis && tree[h].prev in tree
      requires Committed(tree[h].prev) && Linked(tree[h].prev)
      modifies this`next, this`supply, db
      ensures db.Clean()
      ensures ok <==> Passes(Now(), h) && disk.canCommit(h)
      ensures ok ==> Committed(h) && Linked(h)
      ensures !ok ==> Committed(tree[h].prev) && Linked(tree[h].prev)
    {
      hide ChainConnects, Replay, WfTree, AllStored, CollisionFree, Path, SuppliesOk, TxDB.View;
      hide Passes;
      PathStep(tree, genesis, h);
      var prev := tree[h].prev;
      ok := ConnectOne(h);
      if !ok {
        db.TxnAbort();
        return;
      }
      SuppliesBelow(tree, genesis, file, answers, old(supply), supply, prev, h);
      db.WriteHashBestChain(h);
      ok := db.TxnCommit(disk.canCommit(h));
      if !ok {
        return;
      }
      next := next[prev := h];
    }

    static lemma SuppliesBelow(t: Tree, g: Hash, file: TxFile, a: Hash -> Answers, before: map<Hash, int>,
                               after: map<Hash, int>, prev: Hash, h: Hash)
      requires WfTree(t, g) && h in t && h != g && t[h].prev == prev && prev in t && SuppliesOk(t, g, file, a, before, prev)
      requires forall x | x in before && x != h :: x in after && after[x] == before[x]
      ensures SuppliesOk(t, g, file, a, after, prev)
    {
      PathStep(t, g, h);
      forall x | OnPath(t, g, x, prev)
        ensures x in after && after[x] == Total(Replay(t, g, x), file) && StakeBounded(t, g, file, a, x)
      {
        OnPathAt(t, g, x, prev);
      }
    }
  
    /** The postponed reconnects: the blocks above the first one that outweighs the best chain,
        lowest last, and that block. */
    method Postpone(tip: Hash) returns (secondary: seq<Hash>, first: Hash)
      requires World(tree, genesis, file) && best in tree && tip in tree && !OnPath(tree, genesis, tip, best)
      ensures first in tree && OnPath(tree, genesis, first, tip) && !OnPath(tree, genesis, first, best)
      ensures tree[first].height <= tree[tip].height
      ensures secondary == Reversed(Path(tree, genesis, tip)[tree[first].height + 1..])
      ensures FirstHeavier(tree, genesis, tree[best].trust, tip, first)
      ensures forall x | OnPath(tree, genesis, x, first) && x != first :: tree[x].trust <= tree[best].trust
      ensures forall x | OnPath(tree, genesis, x, tip) && !OnPath(tree, genesis, x, first) ::
                x in tree && tree[x].prev in tree && tree[tree[x].prev].trust > tree[best].trust
    {
      hide ChainConnects, Replay, WfTree, AllStored, CollisionFree, Path, OnPath;
      ghost var p, top := Path(tree, genesis, tip), tree[tip].height;
      NotGenesis(tree, genesis, tip, best);
      PathSelf(tree, genesis, tip);
      secondary, first := [], tip;
      while first != genesis && tree[tree[first].prev].trust > tree[best].trust
        invariant first in tree && tree[first].prev in tree
        invariant |secondary| == top - tree[first].height && first == p[tree[first].height]
        invariant forall i | 0 <= i < |secondary| :: secondary[i] == p[top - i]
        invariant forall x | OnPath(tree, genesis, x, tip) && !OnPath(tree, genesis, x, first) ::
                    OutweighsBelow(tree, genesis, tree[best].trust, x)
        invariant OnPath(tree, genesis, first, tip) && !OnPath(tree, genesis, first, best)
        decreases tree[first].height
      {
        var prev := tree[first].prev;
        PathStep(tree, genesis, first);
        PathPrev(tree, genesis, tip, tree[first].height);
        if OnPath(tree, genesis, prev, best) {
          OnPathAt(tree, genesis, prev, best);
        }
        PathSelf(tree, genesis, prev);
        OnPathParent(tree, genesis, prev, first);
        OnPathTransitive(tree, genesis, prev, first, tip);
        NotGenesis(tree, genesis, prev, best);
        forall x | OnPath(tree, genesis, x, tip) && !OnPath(tree, genesis, x, prev)
          ensures OutweighsBelow(tree, genesis, tree[best].trust, x)
        {
          OnPathParent(tree, genesis, x, first);
        }
        secondary := secondary + [first];
        first := prev;
      }
      assert secondary == Reversed(p[tree[first].height + 1..]);
      LighterBelow(tree, genesis, tree[best].trust, first);
    }

    /** Trust grows along a branch. */
    static lemma LighterBelow(t: Tree, g: Hash, w: nat, h: Hash)
      requires WfTree(t, g) && h in t && (h == g || (t[h].prev in t && t[t[h].prev].trust <= w))
      ensures forall x | OnPath(t, g, x, h) && x != h :: t[x].trust <= w
    {
      forall x | OnPath(t, g, x, h) && x != h
        ensures t[x].trust <= w
      {
        if h != g {
          OnPathParent(t, g, x, h);
          OnPathAt(t, g, x, t[h].prev);
        }
      }
    }

    /** One turn of the loop over the postponed reconnects. */
    method ReconnectOne(h: Hash, disk: Disk) returns (ok: bool)
      requires db.Clean() && World(tree, genesis, file) && h in tree && h != genesis && tree[h].prev in tree
      requires Committed(tree[h].prev) && Linked(tree[h].prev)
      modifies this`next, this`supply, db
      ensures db.Clean()
      ensures ok <==> Connectable(Now(), disk, h) && disk.canCommit(h)
      ensures ok ==> Committed(h) && Linked(h)
      ensures !ok ==> Committed(tree[h].prev) && Linked(tree[h].prev)
    {
      hide ChainConnects, Replay, WfTree, AllStored, CollisionFree, Path, LinksOf, SuppliesOk, TxDB.View, Passes;
      if !disk.canRead(h) {
        return false;
      }
      db.TxnBegin();
      ok := SetBestChainInner(h, disk);
    }

    /** The loop over the postponed reconnects. It stops at the first failure, with the index at
        the last block that did connect. */
    method Reconnect(tip: Hash, first: Hash, up: seq<Hash>, disk: Disk) returns (complete: bool)
      requires db.Clean() && World(tree, genesis, file) && OnPath(tree, genesis, first, tip)
      requires Committed(first) && Linked(first)
      requires tree[first].height <= tree[tip].height && up == Path(tree, genesis, tip)[tree[first].height + 1..]
      modifies this`next, this`supply, db
      ensures db.Clean() && OnPath(tree, genesis, db.bestHash, tip)
      ensures Committed(db.bestHash) && Linked(db.bestHash)
      ensures complete <==> db.bestHash == tip
      ensures complete <==> forall x | x in up :: Connectable(Now(), disk, x) && disk.canCommit(x)
    {
      hide ChainConnects, Replay, WfTree, AllStored, CollisionFree, Path, LinksOf, SuppliesOk, TxDB.View, Connectable, OnPath;
      OnPathAt(tree, genesis, first, tip);
      ghost var at := first;
      StoredBest(at);
      hide State.Committed, State.Linked;
      for i := 0 to |up|
        invariant at in tree && tree[at].height == tree[first].height + i && OnPath(tree, genesis, at, tip)
        invariant db.Clean() && Committed(at) && Linked(at) && db.bestHash == at
        invariant forall j | 0 <= j < i :: Connectable(Now(), disk, up[j]) && disk.canCommit(up[j])
      {
        NextUp(tree, genesis, at, tip);
        assert up[i] == Path(tree, genesis, tip)[tree[at].height + 1];
        var ok := ReconnectOne(up[i], disk);
        if !ok {
          StoredBest(at);
          return false;
        }
        at := up[i];
        StoredBest(at);
      }
      LastOnPath(tree, genesis, at, tip);
      complete := true;
    }

    lemma StoredBest(tip: Hash)
      requires WfTree(tree, genesis) && Committed(tip)
      ensures db.bestHash == tip && tip in tree
    {
    }

    static lemma OnPathKnown(t: Tree, g: Hash, a: Hash, h: Hash)
      requires WfTree(t, g) && OnPath(t, g, a, h)
      ensures a in t && h in t
    {
    }

    /** The block after one on the path to tip. */
    static lemma {:induction false} NextUp(t: Tree, g: Hash, at: Hash, tip: Hash)
      requires WfTree(t, g) && OnPath(t, g, at, tip) && at in t && t[at].height < t[tip].height
      ensures var x := Path(t, g, tip)[t[at].height + 1];
              && x in t && x != g && t[x].prev == at && x != at && at != tip
              && t[x].height == t[at].height + 1 && OnPath(t, g, x, tip)
    {
      OnPathAt(t, g, at, tip);
      PathPrev(t, g, tip, t[at].height + 1);
      PathPrefix(t, g, tip, t[at].height + 1);
    }

    static lemma LastOnPath(t: Tree, g: Hash, at: Hash, tip: Hash)
      requires WfTree(t, g) && OnPath(t, g, at, tip) && at in t && t[at].height == t[tip].height
      ensures at == tip
    {
      PathSelf(t, g, tip);
      SameHeight(t, g, at, tip, tip);
    }

    /** SetBestChain's changes to the database and the links. */
    method SwitchTo(tip: Hash, disk: Disk) returns (ok: bool, complete: bool)
      requires World(tree, genesis, file) && db.Clean() && Committed(best) && Linked(best)
      requires tip in tree && !OnPath(tree, genesis, tip, best)
      modifies this`next, this`supply, db
      ensures db.Clean() && Committed(db.bestHash) && Linked(db.bestHash)
      ensures !ok ==> db.bestHash == best
      ensures ok <==> CanSwitch(Now(), best, tip, disk)
      ensures ok ==> (complete <==> CanFinish(Now(), best, tip, disk))
      ensures ok ==> OnPath(tree, genesis, db.bestHash, tip) && (complete <==> db.bestHash == tip)
    {
      hide ChainConnects, Replay, WfTree, AllStored, CollisionFree, Path, LinksOf, SuppliesOk, TxDB.View;
      hide OnPath, Reversed, Connectable, Passes, CanReorganize;
      complete := true;
      NotGenesis(tree, genesis, tip, best);
      PathSelf(tree, genesis, tip);
      db.TxnBegin();
      if tree[tip].prev == best {
        ok := SetBestChainInner(tip, disk);
      } else {
        var secondary, first := Postpone(tip);
        FirstHeavierOnly(tree, genesis, tree[best].trust, tip, first);
        ok := Reorganize(first, disk);
        if !ok {
          db.TxnAbort();
        } else {
          ReversedTwice(Path(tree, genesis, tip)[tree[first].height + 1..]);
          complete := Reconnect(tip, first, Reversed(secondary), disk);
          forall x
            ensures x in Reversed(secondary) <==> Postponed(Now(), best, tip, x)
          {
            AboveMembers(tree, genesis, first, tip, x);
            if OnPath(tree, genesis, x, tip) {
              BelowFirst(tree, genesis, tree[best].trust, tip, first, x);
            }
          }
        }
      }
    }

    static lemma FirstHeavierOnly(t: Tree, g: Hash, w: nat, tip: Hash, first: Hash)
      requires WfTree(t, g) && FirstHeavier(t, g, w, tip, first)
      ensures forall f | FirstHeavier(t, g, w, tip, f) :: f == first
    {
      forall f | FirstHeavier(t, g, w, tip, f)
        ensures f == first
      {
        FirstHeavierUnique(t, g, w, tip, first, f);
      }
    }

    /** The blocks of a branch above one of its blocks. */
    static lemma {:induction false} AboveMembers(t: Tree, g: Hash, first: Hash, tip: Hash, x: Hash)
      requires WfTree(t, g) && OnPath(t, g, first, tip) && first in t && t[first].height <= t[tip].height
      ensures x in Path(t, g, tip)[t[first].height + 1..] <==> OnPath(t, g, x, tip) && !OnPath(t, g, x, first)
    {
      PathSelf(t, g, first);
      assert IsFork(t, g, first, tip, first);
      BranchMembers(t, g, first, tip, first, x);
    }

    /** SetBestChain. Which blocks connect and which reads and writes succeed decide whether it
        succeeds, and whether the state is consistent after a success: when a postponed block does
        not connect the in-memory best block is tip all the same. The committed index always
        belongs to the stored best hash. */
    method SetBestChain(tip: Hash, disk: Disk) returns (ok: bool, complete: bool)
      requires Valid() && tip in tree && !OnPath(tree, genesis, tip, best)
      modifies this`next, this`supply, this`best, this`bestHeight, this`bestTrust, this`lastFound, db
      ensures World(tree, genesis, file) && db.Clean() && Committed(db.bestHash) && Linked(db.bestHash)
      ensures !ok ==> Valid() && best == old(best)
      ensures ok <==> old(CanSwitch(Now(), best, tip, disk))
      ensures ok ==> (complete <==> old(CanFinish(Now(), best, tip, disk)))
      ensures ok ==> best == tip && OnPath(tree, genesis, db.bestHash, tip)
      ensures ok ==> (Valid() <==> complete)
    {
      hide ChainConnects, Replay, WfTree, AllStored, CollisionFree, Path, LinksOf, SuppliesOk, TxDB.View, OnPath;
      hide CanSwitch, CanFinish;
      ok, complete := SwitchTo(tip, disk);
      if ok {
        best, bestHeight, bestTrust, lastFound := tip, tree[tip].height, tree[tip].trust, None;
      }
    }

    static lemma NotGenesis(t: Tree, g: Hash, h: Hash, b: Hash)
      requires WfTree(t, g) && h in t && b in t && !OnPath(t, g, h, b)
      ensures h != g && t[h].prev in t
    {
      PathSelf(t, g, b);
      if h != g {
        PathStep(t, g, h);
      }
    }

    /** WriteToDisk and AddToBlockIndex for a block whose parent is known: index it, and make it
        the best block if its chain outweighs the best chain. */
    method AddToBlockIndex(h: Hash, prev: Hash, blockTrust: nat, time: nat, at: BlockPos, b: Block, disk: Disk)
      returns (ok: bool, complete: bool)
      requires Valid() && h !in tree && prev in tree && Appendable(file, at, b)
      requires b.vtx != [] && Tagged(b.vtx[0], tree[prev].height + 1)
      modifies this, db
      ensures tree == old(tree)[h := NewNode(old(tree), prev, blockTrust, time, at, b)]
      ensures file == old(file) + FileOf(at, b, |b.vtx|)
      ensures World(tree, genesis, file) && old(best) in tree && Committed(db.bestHash) && Linked(db.bestHash)
      ensures ok <==> CanIndex(old(Now()), old(best), h, tree[h], disk)
      ensures ok && tree[h].trust > old(bestTrust) ==>
                (complete <==> CanFinish(Extended(old(Now()), h, tree[h]), old(best), h, disk))
      ensures ok && tree[h].trust <= old(bestTrust) ==> complete
      ensures !ok ==> Valid() && best == old(best)
      ensures ok ==> (Valid() <==> complete)
      ensures ok ==> best == if tree[h].trust > old(bestTrust) then h else old(best)
    {
      hide ChainConnects, Replay, WfTree, AllStored, CollisionFree, Path, LinksOf, SuppliesOk, TxDB.View, OnPath;
      hide CanSwitch, CanFinish, Filed, Tagged, Appendable, FileOf;
      IndexBlock(h, prev, blockTrust, time, at, b);
      if tree[h].trust > bestTrust {
        ok, complete := SetBestChain(h, disk);
      } else {
        ok, complete := true, true;
      }
    }

    method IndexBlock(h: Hash, prev: Hash, blockTrust: nat, time: nat, at: BlockPos, b: Block)
      requires Valid() && h !in tree && prev in tree && Appendable(file, at, b)
      requires b.vtx != [] && Tagged(b.vtx[0], tree[prev].height + 1)
      modifies this`tree, this`file
      ensures tree == old(tree)[h := NewNode(old(tree), prev, blockTrust, time, at, b)]
      ensures file == old(file) + FileOf(at, b, |b.vtx|)
      ensures Valid() && !OnPath(tree, genesis, h, best)
    {
      hide ChainConnects, Replay, WfTree, AllStored, CollisionFree, Path, LinksOf, SuppliesOk, TxDB.View, Filed, Tagged;
      var n := NewNode(tree, prev, blockTrust, time, at, b);
      var more := file + FileOf(at, b, |b.vtx|);
      AppendedFiled(file, at, b);
      WorldExtend(tree, genesis, file, h, n, more);
      PathExtend(tree, genesis, h, n, best);
      ReplayExtend(tree, genesis, h, n, best);
      LinksExtend(tree, genesis, h, n, best);
      SuppliesKeptByNewBlock(tree, genesis, file, answers, h, n, more, supply, best);
      PathMembers(tree, genesis, best, h);
      tree, file := tree[h := n], more;
    }

    static lemma {:induction false} PathMembers(t: Tree, g: Hash, x: Hash, h: Hash)
      requires WfTree(t, g) && x in t && h !in t
      ensures h !in Path(t, g, x)
    {
    }

    /** CBlockIndex::IsInMainChain. */
    function InMain(h: Hash): bool
      reads this
    {
      h in next || h == best
    }

    /** In a consistent state the links answer ancestry of the best block. */
    method IsInMainChain(h: Hash) returns (r: bool)
      requires h in tree
      ensures r == InMain(h)
      ensures Valid() ==> r == OnPath(tree, genesis, h, best)
    {
      InMainIsAncestry(h);
      r := h in next || h == best;
    }

    lemma InMainIsAncestry(h: Hash)
      ensures Valid() ==> InMain(h) == OnPath(tree, genesis, h, best)
    {
      if Valid() {
        LinksAre(tree, genesis, best, h);
        PathSelf(tree, genesis, best);
      }
    }

    /** FindBlockByHeight from the nearest of genesis, the best block and the cached block. */
    method FindBlockByHeight(n: nat) returns (h: Hash)
      requires Valid() && n <= bestHeight
      modifies this`lastFound
      ensures Valid() && lastFound == Some(h)
      ensures h == Path(tree, genesis, best)[n]
    {
      hide ChainConnects, Replay, AllStored, CollisionFree, Path, LinksOf, SuppliesOk, TxDB.View, WfTree, Filed, GoodIndex;
      PathSelf(tree, genesis, best);
      h := if n < bestHeight / 2 then genesis else best;
      if lastFound.Some? && Abs(n - tree[h].height) > Abs(n - tree[lastFound.value].height) {
        h := lastFound.value;
      }
      var start := h;
      h := WalkDown(tree, genesis, start, n);
      OnPathTransitive(tree, genesis, h, start, best);
      h := Climb(h, n);
      lastFound := Some(h);
    }

    /** The loop over pnext up to height n. */
    method Climb(start: Hash, n: nat) returns (h: Hash)
      requires World(tree, genesis, file) && best in tree && next == LinksOf(tree, genesis, best)
      requires start in tree && tree[start].height <= n <= tree[best].height && OnPath(tree, genesis, start, best)
      ensures h == Path(tree, genesis, best)[n]
    {
      hide AllStored, CollisionFree, Path, LinksOf, WfTree;
      ghost var p := Path(tree, genesis, best);
      OnPathAt(tree, genesis, start, best);
      h := start;
      while tree[h].height < n
        invariant h in tree && tree[h].height <= n && h == p[tree[h].height]
        decreases n - tree[h].height
      {
        PathPrefix(tree, genesis, best, tree[h].height);
        LinksAre(tree, genesis, best, h);
        PathPrefix(tree, genesis, best, tree[h].height + 1);
        h := next[h];
      }
    }

    static function Abs(x: int): nat {
      if x < 0 then -x else x
    }
  }
}
