/** The synchronised checkpoint (src/checkpoints.cpp) and its interplay with block acceptance
    (src/main.cpp), on mainnet in STRICT mode. */
module Checkpoints {
  import opened Ledger
  import opened Inputs
  import opened Provenance
  import opened BlockTree
  import opened MedianTime
  import CS = ChainState

  /** The block at a's height on the path to h is a exactly when a is an ancestor. */
  lemma {:induction false} AncestorByHeight(t: Tree, g: Hash, a: Hash, h: Hash)
    requires WfTree(t, g) && a in t && h in t && t[a].height <= t[h].height
    ensures Path(t, g, h)[t[a].height] == a <==> OnPath(t, g, a, h)
  {
    if OnPath(t, g, a, h) {
      OnPathAt(t, g, a, h);
    }
  }

  lemma AncestorIsLower(t: Tree, g: Hash, a: Hash, h: Hash)
    requires WfTree(t, g) && OnPath(t, g, a, h)
    ensures a in t && t[a].height <= t[h].height && (t[a].height == t[h].height ==> a == h)
  {
    OnPathAt(t, g, a, h);
    PathSelf(t, g, h);
    OnPathAt(t, g, h, h);
  }

  /** No block takes the place of a hardened checkpoint. */
  ghost predicate HardenedKept(t: Tree, hardened: seq<(nat, Hash)>) {
    forall h, i | h in t && 0 <= i < |hardened| && hardened[i].0 == t[h].height :: hardened[i].1 == h
  }

  /** So every block from a hardened checkpoint's height up descends from it. */
  lemma DescendsFromHardened(t: Tree, g: Hash, hardened: seq<(nat, Hash)>, i: nat, h: Hash)
    requires WfTree(t, g) && HardenedKept(t, hardened) && i < |hardened| && h in t && t[h].height >= hardened[i].0
    ensures OnPath(t, g, hardened[i].1, h)
  {
    PathPrefix(t, g, h, hardened[i].0);
    assert Path(t, g, h)[hardened[i].0] == hardened[i].1;
  }

  class SyncCheckpoints {
    const chain: CS.State
    /** mapCheckpoints, by increasing height. */
    const hardened: seq<(nat, Hash)>
    var sync: Hash
    /** hashPendingCheckpoint; 0 when there is none. */
    var pending: Hash
    /** hashInvalidCheckpoint */
    var invalid: Hash

    /** The sync-checkpoint is an ancestor of the best block, or the best block; every block is later
        than its parent's median time past; and no block takes the place of a hardened checkpoint. */
    ghost predicate Anchored()
      reads this, chain
    {
      && CS.World(chain.tree, chain.genesis, chain.file) && chain.best in chain.tree
      && OnPath(chain.tree, chain.genesis, sync, chain.best)
      && TimesKept(chain.tree, chain.genesis) && HardenedKept(chain.tree, hardened)
    }

    ghost predicate Valid()
      reads this, chain, chain.db
    {
      Anchored() && chain.Valid()
    }

    /** LoadBlockIndex initialises the sync-checkpoint to genesis. */
    constructor (c: CS.State, checkpoints: seq<(nat, Hash)>)
      requires c.Valid() && TimesKept(c.tree, c.genesis) && HardenedKept(c.tree, checkpoints)
      ensures chain == c && hardened == checkpoints && Valid() && sync == c.genesis && pending == 0
    {
      PathSelf(c.tree, c.genesis, c.best);
      chain, hardened := c, checkpoints;
      sync, pending, invalid := c.genesis, 0, 0;
    }

    /** True exactly for an indexed strict descendant of the sync-checkpoint; a block off the
        sync-checkpoint's line is recorded as invalid. */
    method ValidateSyncCheckpoint(h: Hash) returns (ok: bool)
      requires Anchored()
      modifies this`invalid
      ensures Anchored()
      ensures ok <==> OnPath(chain.tree, chain.genesis, sync, h) && h != sync
      ensures invalid == if h in chain.tree && !OnPath(chain.tree, chain.genesis, sync, h)
                            && !OnPath(chain.tree, chain.genesis, h, sync)
                         then h else old(invalid)
    {
      hide Path, OnPath, WfTree, AllStored, CollisionFree, TimesKept, HardenedKept;
      var t, g := chain.tree, chain.genesis;
      AncestorIsLower(t, g, sync, chain.best);
      NotOnPathOfUnknown(t, g, sync, h);
      if h !in t {
        return false;
      }
      if t[h].height <= t[sync].height {
        var x := WalkDown(t, g, sync, t[h].height);
        AncestorByHeight(t, g, h, sync);
        Between(t, g, sync, h);
        if x != h {
          invalid := h;
        }
        return false;
      }
      var x := WalkDown(t, g, h, t[sync].height);
      AncestorByHeight(t, g, sync, h);
      Between(t, g, h, sync);
      if x != sync {
        invalid := h;
        return false;
      }
      return true;
    }

    static lemma NotOnPathOfUnknown(t: Tree, g: Hash, a: Hash, h: Hash)
      requires WfTree(t, g)
      ensures OnPath(t, g, a, h) ==> h in t
    {
    }

    /** A lower block is never a strict descendant. */
    static lemma Between(t: Tree, g: Hash, high: Hash, low: Hash)
      requires WfTree(t, g) && high in t && low in t && t[low].height <= t[high].height
      ensures OnPath(t, g, high, low) ==> low == high
    {
      if OnPath(t, g, high, low) {
        AncestorIsLower(t, g, high, low);
      }
    }

    /** The database may refuse the write, and then nothing changes. */
    method WriteSyncCheckpoint(h: Hash, disk: CS.Disk) returns (ok: bool)
      modifies this`sync
      ensures ok == disk.canRecord(h)
      ensures sync == if ok then h else old(sync)
    {
      ok := disk.canRecord(h);
      if ok {
        sync := h;
      }
    }

    /** The common end of AcceptPendingSyncCheckpoint and ProcessSyncCheckpoint: make the validated
        checkpoint part of the main chain, then move to it. */
    method Advance(h: Hash, disk: CS.Disk) returns (ok: bool, complete: bool)
      requires Valid() && OnPath(chain.tree, chain.genesis, sync, h) && h != sync
      modifies this`sync, this`invalid, chain, chain.db
      ensures chain.tree == old(chain.tree)
      ensures Anchored() && (complete ==> Valid())
      ensures ok <==> old(CanAdvance(h, disk))
      ensures sync == if ok then h else old(sync)
      ensures invalid == if old(Unreachable(h, disk)) then h else old(invalid)
    {
      hide Path, OnPath, WfTree, AllStored, CollisionFree;
      hide CS.CanSwitch, CS.CanFinish;
      hide TimesKept, HardenedKept, CS.State.Valid, CS.State.Committed, CS.State.Linked, CS.SuppliesOk, ChainConnects, Replay;
      NotOnPathOfUnknown(chain.tree, chain.genesis, sync, h);
      PathSelf(chain.tree, chain.genesis, h);
      var inMain := chain.IsInMainChain(h);
      complete := true;
      if !inMain {
        if !disk.canLoad(h) {
          return false, true;
        }
        ok, complete := chain.SetBestChain(h, disk);
        if !ok {
          invalid := h;
          return false, true;
        }
      }
      ok := WriteSyncCheckpoint(h, disk);
    }

    /** h is in the main chain, or the node can switch to it; and it can be recorded. */
    ghost predicate CanAdvance(h: Hash, disk: CS.Disk)
      requires WfTree(chain.tree, chain.genesis) && chain.best in chain.tree && h in chain.tree
      reads chain
    {
      && (|| OnPath(chain.tree, chain.genesis, h, chain.best)
          || (disk.canLoad(h) && CS.CanSwitch(chain.Now(), chain.best, h, disk)))
      && disk.canRecord(h)
    }

    /** h is loaded, but the node cannot switch to it. */
    ghost predicate Unreachable(h: Hash, disk: CS.Disk)
      requires WfTree(chain.tree, chain.genesis) && chain.best in chain.tree && h in chain.tree
      reads chain
    {
      && !OnPath(chain.tree, chain.genesis, h, chain.best)
      && disk.canLoad(h) && !CS.CanSwitch(chain.Now(), chain.best, h, disk)
    }

    /** h is an indexed strict descendant of the sync-checkpoint. */
    ghost predicate Newer(h: Hash)
      requires WfTree(chain.tree, chain.genesis)
      reads this, chain
    {
      OnPath(chain.tree, chain.genesis, sync, h) && h != sync && h in chain.tree
    }

    method AcceptPendingSyncCheckpoint(disk: CS.Disk) returns (ok: bool, complete: bool)
      requires Valid()
      modifies this, chain, chain.db
      ensures chain.tree == old(chain.tree)
      ensures Anchored() && (complete ==> Valid())
      ensures ok <==> old(pending != 0 && Newer(pending) && CanAdvance(pending, disk))
      ensures sync == if ok then old(pending) else old(sync)
      ensures ok ==> sync != old(sync) && OnPath(chain.tree, chain.genesis, old(sync), sync)
      ensures pending == if ok || old(pending in chain.tree && !Newer(pending)) then 0 else old(pending)
    {
      hide CanAdvance, Unreachable;
      hide TimesKept, HardenedKept, CS.State.Valid, CS.State.Committed, CS.State.Linked, CS.SuppliesOk, ChainConnects, Replay;
      complete := true;
      if pending == 0 || pending !in chain.tree {
        return false, true;
      }
      ok := ValidateSyncCheckpoint(pending);
      if !ok {
        pending := 0;
        return false, true;
      }
      ok, complete := Advance(pending, disk);
      if ok {
        pending := 0;
      }
    }

    /** A checkpoint message whose signature was checked by the caller's oracle. */
    method ProcessSyncCheckpoint(h: Hash, signatureOk: bool, disk: CS.Disk) returns (ok: bool, complete: bool)
      requires Valid()
      modifies this, chain, chain.db
      ensures chain.tree == old(chain.tree)
      ensures Anchored() && (complete ==> Valid())
      ensures ok <==> signatureOk && old(Newer(h) && CanAdvance(h, disk))
      ensures ok ==> sync == h && sync != old(sync) && OnPath(chain.tree, chain.genesis, old(sync), sync)
      ensures !ok ==> sync == old(sync)
      ensures pending == if ok then 0 else if signatureOk && h !in chain.tree then h else old(pending)
    {
      hide CanAdvance, Unreachable;
      hide TimesKept, HardenedKept, CS.State.Valid, CS.State.Committed, CS.State.Linked, CS.SuppliesOk, ChainConnects, Replay;
      complete := true;
      if !signatureOk {
        return false, true;
      }
      if h !in chain.tree {
        pending := h;
        return false, true;
      }
      ok := ValidateSyncCheckpoint(h);
      if !ok {
        return false, true;
      }
      ok, complete := Advance(h, disk);
      if ok {
        pending := 0;
      }
    }

    /** The last of the hardened checkpoints in the main chain. */
    ghost predicate Highest(i: int)
      reads this, chain
    {
      && 0 <= i < |hardened| && Counts(hardened[i].1)
      && forall j | i < j < |hardened| :: !Counts(hardened[j].1)
    }

    predicate Counts(h: Hash)
      reads chain
    {
      h in chain.tree && chain.InMain(h)
    }

    /** The last hardened checkpoint is known, but not in the main chain. */
    ghost predicate MustSwitch()
      requires hardened != []
      reads this, chain
    {
      var last := hardened[|hardened| - 1].1;
      last in chain.tree && !chain.InMain(last)
    }

    /** ResetSyncCheckpoint: back to the highest hardened checkpoint of the main chain, after
        switching to the last one if it is known but not in the main chain. */
    method ResetSyncCheckpoint(disk: CS.Disk) returns (ok: bool, complete: bool)
      requires Valid() && hardened != []
      modifies this, chain, chain.db
      ensures chain.tree == old(chain.tree)
      ensures complete && ok ==> Valid()
      ensures !ok ==> sync == old(sync)
      ensures ok ==> exists i :: Highest(i) && hardened[i].1 == sync
      ensures var last := hardened[|hardened| - 1].1;
              if old(MustSwitch())
              then ok <==> disk.canLoad(last) && old(CS.CanSwitch(chain.Now(), chain.best, last, disk)) && disk.canRecord(last)
              else ok <==> exists i :: old(Highest(i)) && disk.canRecord(hardened[i].1)
      ensures ok && old(MustSwitch()) ==> sync == hardened[|hardened| - 1].1
    {
      hide Path, OnPath, WfTree, AllStored, CollisionFree, CS.CanSwitch, CS.CanFinish;
      hide TimesKept, HardenedKept, CS.State.Valid, CS.State.Committed, CS.State.Linked, CS.SuppliesOk, ChainConnects, Replay;
      complete := true;
      var last := hardened[|hardened| - 1].1;
      if last in chain.tree {
        chain.InMainIsAncestry(last);
        var inMain := chain.IsInMainChain(last);
        if !inMain {
          if !disk.canLoad(last) {
            return false, true;
          }
          ok, complete := chain.SetBestChain(last, disk);
          if !ok {
            return false, true;
          }
        }
      } else {
        pending := last;
      }
      ok := RecordHighest(disk);
    }

    /** The loop over mapCheckpoints, highest first. */
    method RecordHighest(disk: CS.Disk) returns (ok: bool)
      requires hardened != []
      modifies this`sync
      ensures ok <==> exists i :: Highest(i) && disk.canRecord(hardened[i].1)
      ensures ok ==> exists i :: Highest(i) && hardened[i].1 == sync
      ensures !ok ==> sync == old(sync)
      ensures ok && chain.Valid() && CS.World(chain.tree, chain.genesis, chain.file) && chain.best in chain.tree ==>
                TimesKept(chain.tree, chain.genesis) && HardenedKept(chain.tree, hardened) ==> Valid()
    {
      hide CS.World, TimesKept, HardenedKept, OnPath, CS.State.Valid;
      var i := |hardened|;
      while i > 0
        invariant 0 <= i <= |hardened| && sync == old(sync)
        invariant forall j | i <= j < |hardened| :: !Counts(hardened[j].1)
      {
        i := i - 1;
        var h := hardened[i].1;
        if h in chain.tree {
          var inMain := chain.IsInMainChain(h);
          if inMain {
            assert Highest(i);
            chain.InMainIsAncestry(h);
            ok := WriteSyncCheckpoint(h, disk);
            return;
          }
        }
      }
      ok := false;
    }

    /** CheckSync for a block with hash h on top of prev. */
    method CheckSync(h: Hash, prev: Hash) returns (r: bool)
      requires Anchored() && prev in chain.tree
      ensures h !in chain.tree ==> (r <==> OnPath(chain.tree, chain.genesis, sync, prev))
      ensures sync in chain.tree
      ensures chain.tree[prev].height + 1 == chain.tree[sync].height ==> (r <==> h == sync)
    {
      hide Path, OnPath, WfTree, AllStored, CollisionFree, TimesKept, HardenedKept;
      var t, g := chain.tree, chain.genesis;
      AncestorIsLower(t, g, sync, chain.best);
      var nHeight := t[prev].height + 1;
      if nHeight > t[sync].height {
        var x := WalkDown(t, g, prev, t[sync].height);
        AncestorByHeight(t, g, sync, prev);
        return x == sync;
      }
      if OnPath(t, g, sync, prev) {
        AncestorIsLower(t, g, sync, prev);
      }
      if nHeight == t[sync].height && h != sync {
        return false;
      }
      if nHeight < t[sync].height && h !in t {
        return false;
      }
      return true;
    }

    predicate CheckHardened(height: nat, h: Hash) {
      forall i | 0 <= i < |hardened| :: hardened[i].0 == height ==> hardened[i].1 == h
    }

    /** What AcceptBlock asks of a new block before it is written and indexed. */
    ghost predicate Admits(h: Hash, prev: Hash, time: nat, b: Block, checks: bool)
      requires WfTree(chain.tree, chain.genesis)
      reads this, chain
    {
      && h !in chain.tree && prev in chain.tree
      && time > MedianTimePast(chain.tree, chain.genesis, prev)
      && checks && CheckHardened(chain.tree[prev].height + 1, h)
      && OnPath(chain.tree, chain.genesis, sync, prev)
      && b.vtx != [] && Tagged(b.vtx[0], chain.tree[prev].height + 1)
    }

    /** AcceptBlock: in STRICT mode only descendants of the sync-checkpoint get in; then a pending
        checkpoint is tried. checks is what the tests of the block's proof, target, other times and
        finality answer. */
    method AcceptBlock(h: Hash, prev: Hash, blockTrust: nat, time: nat, at: BlockPos, b: Block, checks: bool,
                       disk: CS.Disk, later: CS.Disk)
      returns (ok: bool, complete: bool)
      requires Valid() && CS.Appendable(chain.file, at, b)
      requires b.vtx != [] && b.vtx[0].vin != []   // CheckBlock in ProcessBlock
      requires prev in chain.tree ==> chain.tree[prev].height + 1 < 0x8000_0000
      modifies this, chain, chain.db
      ensures Anchored() && (complete ==> Valid())
      ensures ok <==> && old(Admits(h, prev, time, b, checks))
                      && CS.CanIndex(old(chain.Now()), old(chain.best), h,
                                     CS.NewNode(old(chain.tree), prev, blockTrust, time, at, b), disk)
      ensures ok ==> h !in old(chain.tree) && h in chain.tree && OnPath(chain.tree, chain.genesis, old(sync), h)
      ensures ok ==> LaterThanPast(chain.tree, chain.genesis, h)
      ensures sync == old(sync) || (sync != old(sync) && OnPath(chain.tree, chain.genesis, old(sync), sync))
    {
      hide Path, OnPath, WfTree, AllStored, CollisionFree, CS.Appendable, HeightScript;
      hide TimesKept, HardenedKept, CS.State.Valid, CS.State.Committed, CS.State.Linked, CS.SuppliesOk, ChainConnects, Replay;
      complete := true;
      if h in chain.tree || prev !in chain.tree {
        return false, true;
      }
      var past := GetMedianTimePast(chain.tree, chain.genesis, prev);
      if time <= past {
        return false, true;
      }
      if !checks || !CheckHardened(chain.tree[prev].height + 1, h) {
        return false, true;
      }
      var satisfied := CheckSync(h, prev);
      if !satisfied {
        return false, true;
      }
      if !Tagged(b.vtx[0], chain.tree[prev].height + 1) {
        return false, true;
      }
      ghost var t0, best0 := chain.tree, chain.best;
      ghost var n := Node(prev, t0[prev].height + 1, t0[prev].trust + blockTrust, time, at, b);
      ok, complete := chain.AddToBlockIndex(h, prev, blockTrust, time, at, b, disk);
      NewBlockDescends(t0, chain.genesis, h, n, sync, prev, best0);
      TimesKeptExtend(t0, chain.genesis, h, n);
      HardenedExtend(t0, hardened, h, n);
      if !ok {
        complete := true;
        return;
      }
      if !complete {
        return;   // excluded: the next call would start from an inconsistent chain
      }
      var accepted;
      accepted, complete := AcceptPendingSyncCheckpoint(later);
    }

    static lemma HardenedExtend(t: Tree, hardened: seq<(nat, Hash)>, h: Hash, n: Node)
      requires HardenedKept(t, hardened) && forall i | 0 <= i < |hardened| && hardened[i].0 == n.height :: hardened[i].1 == h
      ensures HardenedKept(t[h := n], hardened)
    {
    }

    /** After indexing h on prev, what descended from s still does, and so does h. */
    static lemma NewBlockDescends(t: Tree, g: Hash, h: Hash, n: Node, s: Hash, prev: Hash, best: Hash)
      requires WfTree(t, g) && h !in t && n.prev == prev && prev in t && best in t
      requires WfTree(t[h := n], g) && OnPath(t, g, s, prev) && OnPath(t, g, s, best)
      ensures OnPath(t[h := n], g, s, h) && OnPath(t[h := n], g, s, best)
    {
      PathSelf(t, g, best);
      assert h != g;
      PathExtend(t, g, h, n, prev);
      PathExtend(t, g, h, n, best);
      OnPathParent(t[h := n], g, s, h);
    }
  }
}
