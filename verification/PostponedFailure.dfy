/** A run of the node in which SetBestChain reports success and leaves an inconsistent state. */
module PostponedFailure {
  import opened Basics
  import opened Ledger
  import opened Inputs
  import opened Provenance
  import opened Supply
  import opened BlockTree
  import opened Chain
  import opened ChainState

  // Block hashes: genesis, the first best block, and a branch of two blocks beside it.
  const G: Hash := 1
  const A: Hash := 2
  const B: Hash := 3
  const C: Hash := 4

  /** A block with nothing but a coinbase for its height, which pays nobody. */
  function Plain(id: Hash, height: nat): Block
    requires height < 0x8000_0000
  {
    Block([Tx(id, 0, [TxIn(OutPoint(0, NULL_INDEX), HeightScript(height))], [TxOut(0, [0])], 1)])
  }

  /** Everything about every block is in order, except about C. */
  function Verdicts(h: Hash): Answers {
    Answers(h != C, (_, _) => true, None)
  }

  function Place(h: Hash): BlockPos {
    BlockPos(0, 1000 * h)
  }

  /** A plain block with good answers passes on top of an empty index. */
  lemma PlainPasses(id: Hash, height: nat, at: BlockPos, file: TxFile, recent: seq<BlockPos>, a: Answers, bestHeight: int)
    requires height < 0x8000_0000
    ensures BlockPasses(map[], at, Plain(id, height), file, recent, a, bestHeight) <==> a.checks
    ensures Tagged(Plain(id, height).vtx[0], height)
  {
    var b := Plain(id, height);
    var tx := b.vtx[0];
    assert tx.IsCoinBase();
    assert ValueOutUpTo(tx.vout, 0) == 0 && ValueOutUpTo(tx.vout, 1) == 0;
    assert CheckTransaction(tx);
    assert CheckBlock(b);
    assert TxsPass(map[], at, b, file, recent, a, bestHeight, 0);
    assert TxPasses(map[], map[], file, tx, recent, Signatures(a, tx, bestHeight));
    assert TxsPass(map[], at, b, file, recent, a, bestHeight, 1);
    assert TallyUpTo(map[], at, b, file, 0) == Tally(0, 0, 0, 0);
  }

  // ----- the tree and the block files as the blocks arrive

  function Root(): Node {
    Node(0, 0, 1, 0, Place(G), Block([]))
  }

  function NodeA(): Node {
    Node(G, 1, 2, 0, Place(A), Plain(A, 1))
  }

  function NodeB(): Node {
    Node(G, 1, 3, 0, Place(B), Plain(B, 1))
  }

  function NodeC(): Node {
    Node(B, 2, 4, 0, Place(C), Plain(C, 2))
  }

  function Full(): Tree {
    map[G := Root()][A := NodeA()][B := NodeB()][C := NodeC()]
  }

  /** What is on file for a plain block. */
  lemma OneOnFile(h: Hash, height: nat)
    requires height < 0x8000_0000
    ensures FileOf(Place(h), Plain(h, height), 1) == map[At(0, 1000 * h, 1000 * h + 81) := Plain(h, height).vtx[0]]
  {
    var at, b := Place(h), Plain(h, height);
    assert TxOffset(at, b, 0) == 1000 * h + 81;
    assert FileOf(at, b, 0) == map[];
  }

  /** Transactions on file whose ids are below n, at places below the n-th. */
  predicate Below(file: TxFile, n: Hash) {
    && (forall p | p in file :: p.At? && p.blockPos < 1000 * n && file[p].id < n)
    && CollisionFree(file)
  }

  lemma Appends(file: TxFile, h: Hash, height: nat)
    requires height < 0x8000_0000 && Below(file, h)
    ensures Appendable(file, Place(h), Plain(h, height))
    ensures Below(file + FileOf(Place(h), Plain(h, height), 1), h + 1)
  {
    hide HeightScript;
    OneOnFile(h, height);
    var b := Plain(h, height);
    var more := FileOf(Place(h), b, 1);
    assert |b.vtx| == 1;
    forall p, q | p in file + more && q in file + more
      ensures Agree(file + more, p, q)
    {
      if p in file && q in file {
        assert Agree(file, p, q);
      }
    }
  }

  // ----- which blocks can be connected

  lemma FullTree()
    ensures WfTree(Full(), G) && WfTree(Full() - {C}, G) && WfTree(Full() - {B, C}, G)
  {
    forall h | h in Full()
      ensures h == G || LinkOk(Full(), h)
    {
    }
    forall h | h in Full() - {C}
      ensures h == G || LinkOk(Full() - {C}, h)
    {
    }
    forall h | h in Full() - {B, C}
      ensures h == G || LinkOk(Full() - {B, C}, h)
    {
    }
  }

  /** A block on genesis passes if the answers about it are good. */
  lemma FirstBlockPasses(t: Tree, file: TxFile, h: Hash, bestHeight: int)
    requires WfTree(t, G) && h in t && h != G && h != C && t[h] == Node(G, 1, t[h].trust, 0, Place(h), Plain(h, 1))
    ensures Passes(Chart(t, G, file, Verdicts, bestHeight), h)
  {
    hide BlockPasses, RecentBlocks;
    PathSelf(t, G, G);
    assert Replay(t, G, G) == map[];
    PlainPasses(h, 1, Place(h), file, RecentBlocks(t, G, h, COINBASE_MATURITY), Verdicts(h), bestHeight);
  }

  lemma OnTop(t: Tree, x: Hash, h: Hash)
    requires WfTree(t, G) && h in t && h != G && t[h].prev == G
    ensures OnPath(t, G, x, h) <==> x == G || x == h
  {
    OnPathParent(t, G, x, h);
    assert Path(t, G, G) == [G];
  }

  function Works(): Disk {
    Disk(_ => true, _ => true, _ => true, _ => true)
  }

  function Refuses(): Disk {
    Disk(_ => true, _ => false, _ => true, _ => true)
  }

  /** With every read and write working, C's branch gets as far as B. */
  lemma SwitchStopsAtB(file: TxFile)
    ensures WfTree(Full(), G)
    ensures var c := Chart(Full(), G, file, Verdicts, 1);
            CanSwitch(c, A, C, Works()) && !CanFinish(c, A, C, Works())
  {
    FullTree();
    var t, c := Full(), Chart(Full(), G, file, Verdicts, 1);
    hide Passes;
    FirstBlockPasses(t, file, B, 1);
    forall x
      ensures OnPath(t, G, x, B) <==> x == G || x == B
      ensures OnPath(t, G, x, A) <==> x == G || x == A
    {
      OnTop(t, x, B);
      OnTop(t, x, A);
    }
    PathSelf(t, G, C);
    forall x
      ensures OnPath(t, G, x, C) <==> x == C || OnPath(t, G, x, B)
    {
      OnPathParent(t, G, x, C);
    }
    hide OnPath;
    assert FirstHeavier(t, G, 2, C, B);
    assert CanReorganize(c, A, B, Works());
    assert Postponed(c, A, C, C);
    CNeverPasses(c);
  }

  lemma CNeverPasses(c: Chart)
    requires WfTree(c.t, c.g) && c.a == Verdicts
    ensures !Passes(c, C)
  {
  }

  lemma RefusedCommit(t: Tree, file: TxFile)
    requires t == Full() - {C}
    ensures WfTree(t, G) && !CanSwitch(Chart(t, G, file, Verdicts, 1), A, B, Refuses())
  {
    FullTree();
  }

  lemma FirstSwitch(t: Tree, file: TxFile)
    requires t == Full() - {B, C}
    ensures WfTree(t, G) && CanSwitch(Chart(t, G, file, Verdicts, 0), G, A, Works())
    ensures CanFinish(Chart(t, G, file, Verdicts, 0), G, A, Works())
  {
    FullTree();
    FirstBlockPasses(t, file, A, 0);
  }

  /** A becomes the best block; B outweighs it, but its commit is refused; C arrives on B, its
      connection is postponed until after the switch to B, and then fails. The node goes on with C
      as its best block although the stored chain ends at B. */
  method PostponedBlockFails() returns (s: State, ok: bool, complete: bool)
    ensures fresh(s) && ok && !complete && s.best == C && !s.Valid()
  {
    hide WfTree, Below, CanSwitch, CanFinish, FileOf, Appendable, State.Committed, State.Linked, World, HeightScript, Tagged;
    s := new State(G, 1, 0, Place(G), Block([]), Verdicts);
    NothingBelow(A);
    Ready(s.file, A, 1);
    ok, complete := s.AddToBlockIndex(A, G, 1, 0, Place(A), Plain(A, 1), Works());
    assert s.tree == Full() - {B, C};
    FirstSwitch(s.tree, s.file);
    assert s.Valid() && s.best == A && s.bestHeight == 1 && s.bestTrust == 2;
    Ready(s.file, B, 1);
    ok, complete := s.AddToBlockIndex(B, G, 2, 0, Place(B), Plain(B, 1), Refuses());
    assert s.tree == Full() - {C};
    RefusedCommit(s.tree, s.file);
    assert s.Valid() && s.best == A && s.bestHeight == 1 && s.bestTrust == 2;
    Ready(s.file, C, 2);
    ok, complete := s.AddToBlockIndex(C, B, 1, 0, Place(C), Plain(C, 2), Works());
    assert s.tree == Full();
    SwitchStopsAtB(s.file);
  }

  lemma NothingBelow(n: Hash)
    ensures Below(map[], n)
  {
  }

  lemma Ready(file: TxFile, h: Hash, height: nat)
    requires height < 0x8000_0000 && Below(file, h)
    ensures Appendable(file, Place(h), Plain(h, height)) && |Plain(h, height).vtx| == 1
    ensures Below(file + FileOf(Place(h), Plain(h, height), |Plain(h, height).vtx|), h + 1)
    ensures Tagged(Plain(h, height).vtx[0], height)
  {
    hide Below, Appendable, HeightScript;
    Appends(file, h, height);
    PlainPasses(h, height, Place(h), file, [], Verdicts(h), 0);
  }
}
