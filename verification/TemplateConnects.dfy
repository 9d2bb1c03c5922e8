/** A block template and the node's own rules meet: what CreateNewBlock (src/miner.cpp) puts together
    passes ConnectBlock (src/main.cpp) on the same index. */
module TemplateConnects {
  import opened Basics
  import opened Ledger
  import opened Inputs
  import opened Provenance
  import opened Supply
  import opened Chain
  import T = Template

  /** The block as it is connected: the coinbase in front, at a place of its own in the block files. */
  datatype Site = Site(e: T.Env, coinbase: Tx, txs: seq<Tx>, at: BlockPos, file: TxFile, recent: seq<BlockPos>) {
    function B(): Block {
      Block([coinbase] + txs)
    }
  }

  /** What writing the finished block to disk makes of the files, and of the window in which coinbases
      are immature: it moves on by the new block. */
  ghost predicate Written(s: Site, height: nat) {
    && GoodIndex(s.e.db, s.e.file, height)
    && Filed(s.at, s.B(), s.file) && (forall p | p in s.e.file :: p in s.file && s.file[p] == s.e.file[p])
    && POOL_POS !in s.e.file
    && (forall p | p in s.e.file :: !InBlock(p, s.at))
    && (forall p | p in s.recent :: p in s.e.recent || p == s.at)
  }

  predicate InBlock(p: DiskPos, at: BlockPos) {
    p.At? && BlockPos(p.file, p.blockPos) == at
  }

  /** The transactions are those of a template, and the coinbase is new. */
  ghost predicate FromTemplate(s: Site) {
    && (forall k: nat | k < |s.txs| :: T.PlacedAt(s.e, s.txs, k))
    && T.NewIds(s.e.db, s.txs, |s.txs|)
    && s.coinbase.IsCoinBase() && s.coinbase.id !in s.e.db && s.coinbase.id !in T.IdSet(s.txs, |s.txs|)
  }

  // ----- two indexes that agree on what matters

  predicate SameSlots(a: seq<DiskPos>, b: seq<DiskPos>) {
    |a| == |b| && forall n | 0 <= n < |a| :: a[n] == Null <==> b[n] == Null
  }

  /** Transaction k is found with the same contents and the same outputs spent; one that has to
      mature is at the same place, outside the new block. */
  predicate AlikeAt(s: Site, now: TxMap, view: TxMap, k: Hash) {
    && k in view && k in now && SameSlots(now[k].spent, view[k].spent)
    && FetchOne(view, s.e.file, s.e.pool, false, k).Some?
    && var tx := FetchOne(view, s.e.file, s.e.pool, false, k).value.tx;
    && FetchOne(now, s.file, map[], false, k) == Some(Prev(now[k], tx))
    && FetchOne(view, s.e.file, s.e.pool, false, k) == Some(Prev(view[k], tx))
    && (tx.IsCoinBase() || tx.IsCoinStake() ==> now[k].pos == view[k].pos && !InBlock(now[k].pos, s.at))
  }

  ghost predicate Alike(s: Site, now: TxMap, view: TxMap) {
    forall k | k in view :: AlikeAt(s, now, view, k)
  }

  lemma StartAlike(s: Site, height: nat)
    requires Written(s, height) && FromTemplate(s)
    ensures Alike(s, ApplyTxs(s.e.db, s.at, s.B(), 1), s.e.db)
  {
    var b := s.B();
    assert b.vtx[0] == s.coinbase;
    CoinbaseSpendsNothing(s.e.db, s.file, s.coinbase, TxPosition(s.at, b, 0));
    assert ApplyTxs(s.e.db, s.at, b, 0) == s.e.db;
    var now := ApplyTxs(s.e.db, s.at, b, 1);
    forall k | k in s.e.db
      ensures AlikeAt(s, now, s.e.db, k)
    {
      assert GoodEntry(s.e.db, s.e.file, height, k);
      assert now[k] == s.e.db[k];
      assert s.e.db[k].pos in s.e.file;
    }
  }

  lemma MarkedAlike(s: Site, now: TxMap, view: TxMap, outs: seq<OutPoint>, p: DiskPos, q: DiskPos, k: Hash)
    requires AlikeAt(s, now, view, k) && p != Null && q != Null
    ensures AlikeAt(s, SetAllSpent(now, outs, p), SetAllSpent(view, outs, q), k)
  {
    hide SetAllSpent;
    SetAllSpentAt(now, outs, p, k);
    SetAllSpentAt(view, outs, q, k);
  }

  /** Both indexes take the same transaction, each with its own position. */
  lemma NextAlike(s: Site, now: TxMap, view: TxMap, tx: Tx, pos: DiskPos)
    requires Alike(s, now, view) && tx.id !in view
    requires tx.id in s.e.pool && s.e.pool[tx.id] == tx && !tx.IsCoinBase() && !tx.IsCoinStake()
    requires pos != Null && pos != POOL_POS && pos in s.file && s.file[pos] == tx
    ensures Alike(s, ApplyTx(now, tx, pos), ApplyTx(view, tx, POOL_POS))
  {
    hide SetAllSpent;
    var now', view' := ApplyTx(now, tx, pos), ApplyTx(view, tx, POOL_POS);
    forall k | k in view'
      ensures AlikeAt(s, now', view', k)
    {
      if k != tx.id {
        assert AlikeAt(s, now, view, k);
        MarkedAlike(s, now, view, Spends(tx), pos, POOL_POS, k);
        OtherAlike(s, SetAllSpent(now, Spends(tx), pos), SetAllSpent(view, Spends(tx), POOL_POS), tx, pos, k);
      }
    }
  }

  lemma OtherAlike(s: Site, now: TxMap, view: TxMap, tx: Tx, pos: DiskPos, k: Hash)
    requires AlikeAt(s, now, view, k) && k != tx.id
    ensures AlikeAt(s, now[tx.id := NewTxIndex(pos, |tx.vout|)], view[tx.id := NewTxIndex(POOL_POS, |tx.vout|)], k)
  {
  }

  /** Positions inside the block are not the pool's. */
  lemma {:induction false} OffsetBeyond(at: BlockPos, b: Block, i: nat)
    requires i <= |b.vtx|
    ensures TxOffset(at, b, i) > at.offset
  {
    if i > 0 {
      OffsetBeyond(at, b, i - 1);
    }
  }

  lemma {:induction false} PlacedFacts(s: Site, k: nat)
    requires FromTemplate(s) && k < |s.txs|
    ensures var tx := s.txs[k];
            && tx.id in s.e.pool && s.e.pool[tx.id] == tx && !tx.IsCoinBase() && !tx.IsCoinStake()
            && T.Accepts(s.e, T.View(s.e.db, s.txs, k), tx)
  {
    hide T.NewIds, T.Accepts, T.Deps;
    assert T.PlacedAt(s.e, s.txs, k);
  }

  lemma {:induction false} NewIdAt(db: TxMap, txs: seq<Tx>, k: nat, n: nat)
    requires k < n <= |txs| && T.NewIds(db, txs, n)
    ensures T.NewIds(db, txs, k) && txs[k].id !in T.IdSet(txs, k) && txs[k].id !in db
  {
    if k < n - 1 {
      NewIdAt(db, txs, k, n - 1);
    }
  }

  /** After the coinbase and k transactions the two indexes are alike. */
  lemma {:induction false} AlikeAfter(s: Site, height: nat, k: nat)
    requires Written(s, height) && FromTemplate(s) && k <= |s.txs|
    ensures Alike(s, ApplyTxs(s.e.db, s.at, s.B(), k + 1), T.View(s.e.db, s.txs, k))
  {
    hide Alike, Written, FromTemplate, ApplyTx;
    if k == 0 {
      StartAlike(s, height);
    } else {
      AlikeAfter(s, height, k - 1);
      var tx, pos := s.txs[k - 1], TxPosition(s.at, s.B(), k);
      PlacedFacts(s, k - 1);
      NewHere(s, k - 1);
      OnFile(s, height, k);
      assert s.B().vtx[k] == tx;
      NextAlike(s, ApplyTxs(s.e.db, s.at, s.B(), k), T.View(s.e.db, s.txs, k - 1), tx, pos);
    }
  }

  lemma {:induction false} NewHere(s: Site, k: nat)
    requires FromTemplate(s) && k < |s.txs|
    ensures s.txs[k].id !in T.View(s.e.db, s.txs, k) && s.txs[k].id !in s.e.db
  {
    NewIdAt(s.e.db, s.txs, k, |s.txs|);
    T.ViewKeys(s.e.db, s.txs, k);
  }

  lemma OnFile(s: Site, height: nat, i: nat)
    requires Written(s, height) && i < |s.B().vtx|
    ensures var pos := TxPosition(s.at, s.B(), i);
            pos != Null && pos != POOL_POS && pos in s.file && s.file[pos] == s.B().vtx[i]
  {
    OffsetBeyond(s.at, s.B(), i);
    assert FiledAt(s.at, s.B(), s.file, i);
  }

  // ----- a transaction accepted against one is accepted against the other

  /** The inputs as the template found them, and as the block finds them. */
  predicate LikeInputs(s: Site, tx: Tx, mine: PrevMap, theirs: PrevMap) {
    && mine.Keys == PrevHashes(tx) && theirs.Keys == PrevHashes(tx)
    && forall h | h in mine :: LikePrev(s, mine[h], theirs[h])
  }

  predicate LikePrev(s: Site, mine: Prev, theirs: Prev) {
    && theirs.tx == mine.tx && SameSlots(theirs.index.spent, mine.index.spent)
    && (mine.tx.IsCoinBase() || mine.tx.IsCoinStake() ==>
          theirs.index.pos == mine.index.pos && !InBlock(theirs.index.pos, s.at))
  }

  lemma FetchedAt(tx: Tx, base: TxMap, file: TxFile, pool: map<Hash, Tx>, i: nat)
    requires FetchableAt(tx, base, file, pool, false, i)
    ensures var h, inputs := tx.vin[i].prevout.hash, FetchedMap(tx, base, file, pool, false);
            h in inputs && FetchOne(base, file, pool, false, h) == Some(inputs[h])
  {
    assert tx.vin[i].prevout.hash in HashesUpTo(tx, |tx.vin|);
  }

  /** One input is found alike. */
  lemma FoundAlikeAt(s: Site, now: TxMap, view: TxMap, tx: Tx, i: nat)
    requires Alike(s, now, view) && FetchableAt(tx, view, s.e.file, s.e.pool, false, i)
    ensures FetchableAt(tx, now, s.file, map[], false, i)
    ensures var mine, theirs := FetchedMap(tx, view, s.e.file, s.e.pool, false), FetchedMap(tx, now, s.file, map[], false);
            var h := tx.vin[i].prevout.hash;
            h in mine && h in theirs && LikePrev(s, mine[h], theirs[h])
  {
    hide FetchOne, InBlock, FetchedMap;
    var h := tx.vin[i].prevout.hash;
    InIndex(view, s.e.file, s.e.pool, h);
    assert AlikeAt(s, now, view, h);
    FetchedAt(tx, view, s.e.file, s.e.pool, i);
    FetchedAt(tx, now, s.file, map[], i);
  }

  lemma FoundAlike(s: Site, now: TxMap, view: TxMap, tx: Tx)
    requires Alike(s, now, view) && !tx.IsCoinBase() && Fetchable(tx, view, s.e.file, s.e.pool, false)
    ensures LikeInputs(s, tx, FetchedMap(tx, view, s.e.file, s.e.pool, false), FetchedMap(tx, now, s.file, map[], false))
    ensures Fetchable(tx, now, s.file, map[], false)
  {
    var mine, theirs := FetchedMap(tx, view, s.e.file, s.e.pool, false), FetchedMap(tx, now, s.file, map[], false);
    assert mine.Keys <= PrevHashes(tx) && theirs.Keys <= PrevHashes(tx);
    hide FetchOne, FetchableAt, FetchedMap, LikePrev, Alike;
    forall i | 0 <= i < |tx.vin|
      ensures FetchableAt(tx, now, s.file, map[], false, i)
      ensures var h := tx.vin[i].prevout.hash; h in mine && h in theirs && LikePrev(s, mine[h], theirs[h])
    {
      FoundAlikeAt(s, now, view, tx, i);
    }
    forall h | h in PrevHashes(tx)
      ensures h in mine && h in theirs && LikePrev(s, mine[h], theirs[h])
    {
      var i :| 0 <= i < |tx.vin| && tx.vin[i].prevout.hash == h;
    }
  }

  lemma InIndex(view: TxMap, file: TxFile, pool: map<Hash, Tx>, h: Hash)
    requires FetchOne(view, file, pool, false, h).Some?
    ensures h in view
  {
  }

  lemma {:induction false} SameValueIn(s: Site, tx: Tx, mine: PrevMap, theirs: PrevMap, outs: seq<OutPoint>, n: nat)
    requires LikeInputs(s, tx, mine, theirs) && n <= |outs|
    ensures ValueInUpTo(theirs, outs, n) == ValueInUpTo(mine, outs, n)
  {
    if n > 0 {
      SameValueIn(s, tx, mine, theirs, outs, n - 1);
      var o := outs[n - 1];
      if o.hash in mine {
        assert LikePrev(s, mine[o.hash], theirs[o.hash]);
      }
    }
  }

  /** The window of immature coinbases moved on, and nothing the transaction spends is in the new block. */
  lemma StaysMature(s: Site, p: DiskPos)
    requires (forall q | q in s.recent :: q in s.e.recent || q == s.at) && !InBlock(p, s.at)
    ensures Immature(p, s.recent) ==> Immature(p, s.e.recent)
  {
    if Immature(p, s.recent) {
      var i :| 0 <= i < |s.recent| && s.recent[i] == BlockPos(p.file, p.blockPos);
      assert s.recent[i] in s.recent;
      assert s.recent[i] in s.e.recent;
      var j :| 0 <= j < |s.e.recent| && s.e.recent[j] == s.recent[i];
    }
  }

  lemma StaysPlausible(s: Site, tx: Tx, mine: PrevMap, theirs: PrevMap, i: nat)
    requires LikeInputs(s, tx, mine, theirs) && Plausible(tx, mine, s.e.recent, i)
    requires forall q | q in s.recent :: q in s.e.recent || q == s.at
    ensures Plausible(tx, theirs, s.recent, i)
  {
    hide Immature, InBlock;
    var o := tx.vin[i].prevout;
    assert LikePrev(s, mine[o.hash], theirs[o.hash]);
    SameValueIn(s, tx, mine, theirs, Prevouts(tx.vin), i + 1);
    if mine[o.hash].tx.IsCoinBase() || mine[o.hash].tx.IsCoinStake() {
      StaysMature(s, theirs[o.hash].index.pos);
    }
  }

  lemma StaysUnused(s: Site, tx: Tx, mine: PrevMap, theirs: PrevMap, sigs: seq<bool>, theirSigs: seq<bool>, i: nat)
    requires LikeInputs(s, tx, mine, theirs) && i < |tx.vin| && Unused(IndexOf(mine), Prevouts(tx.vin), sigs, i)
    requires i < |theirSigs| ==> i < |sigs| && theirSigs[i] == sigs[i]
    ensures Unused(IndexOf(theirs), Prevouts(tx.vin), theirSigs, i)
  {
    var o := tx.vin[i].prevout;
    assert LikePrev(s, mine[o.hash], theirs[o.hash]);
  }

  lemma StaysAcceptable(s: Site, tx: Tx, mine: PrevMap, theirs: PrevMap, sigs: seq<bool>, theirSigs: seq<bool>)
    requires LikeInputs(s, tx, mine, theirs) && !tx.IsCoinBase() && Acceptable(tx, mine, s.e.recent, sigs)
    requires forall q | q in s.recent :: q in s.e.recent || q == s.at
    requires |theirSigs| <= |sigs| && forall i | 0 <= i < |theirSigs| :: theirSigs[i] == sigs[i]
    ensures Acceptable(tx, theirs, s.recent, theirSigs)
  {
    hide Plausible, Unused, LikeInputs;
    forall i | 0 <= i < |tx.vin|
      ensures Plausible(tx, theirs, s.recent, i) && Unused(IndexOf(theirs), Prevouts(tx.vin), theirSigs, i)
    {
      assert Plausible(tx, mine, s.e.recent, i) && Unused(IndexOf(mine), Prevouts(tx.vin), sigs, i);
      StaysPlausible(s, tx, mine, theirs, i);
      StaysUnused(s, tx, mine, theirs, sigs, theirSigs, i);
    }
    SameValueIn(s, tx, mine, theirs, Prevouts(tx.vin), |tx.vin|);
  }

  // ----- the whole block

  /** The miner and the node get the same answers about signatures. */
  predicate SameSignatures(s: Site, a: Answers) {
    forall k, i | 0 <= k < |s.txs| && 0 <= i < |s.txs[k].vin| :: SameSignature(s, a, k, i)
  }

  predicate SameSignature(s: Site, a: Answers, k: nat, i: nat) {
    && k < |s.txs| && i < |s.e.sigOk(s.txs[k].id)|
    && a.sigOk(s.txs[k].id, i) == s.e.sigOk(s.txs[k].id)[i]
  }

  lemma SameAnswers(s: Site, a: Answers, bestHeight: int, k: nat)
    requires SameSignatures(s, a) && k < |s.txs|
    ensures var mine, theirs := s.e.sigOk(s.txs[k].id), Signatures(a, s.txs[k], bestHeight);
            |theirs| <= |mine| && forall i | 0 <= i < |theirs| :: theirs[i] == mine[i]
  {
    var mine, theirs := s.e.sigOk(s.txs[k].id), Signatures(a, s.txs[k], bestHeight);
    if |theirs| > 0 {
      assert SameSignature(s, a, k, |s.txs[k].vin| - 1);
      forall i | 0 <= i < |theirs|
        ensures theirs[i] == mine[i]
      {
        assert SameSignature(s, a, k, i);
      }
    }
  }

  lemma {:induction false} OnePasses(s: Site, height: nat, a: Answers, bestHeight: int, k: nat)
    requires Written(s, height) && FromTemplate(s) && SameSignatures(s, a) && k < |s.txs|
    ensures var now := ApplyTxs(s.e.db, s.at, s.B(), k + 1);
            TxPasses(s.e.db, now, s.file, s.txs[k], s.recent, Signatures(a, s.txs[k], bestHeight))
  {
    hide ApplyTxs, T.View, Alike, FromTemplate, Fetchable, Acceptable, FetchedMap, LikeInputs, GoodIndex, Filed;
    var now, view, tx := ApplyTxs(s.e.db, s.at, s.B(), k + 1), T.View(s.e.db, s.txs, k), s.txs[k];
    AlikeAfter(s, height, k);
    PlacedFacts(s, k);
    NewHere(s, k);
    FoundAlike(s, now, view, tx);
    var theirSigs := Signatures(a, tx, bestHeight);
    SameAnswers(s, a, bestHeight, k);
    StaysAcceptable(s, tx, FetchedMap(tx, view, s.e.file, s.e.pool, false), FetchedMap(tx, now, s.file, map[], false),
                    s.e.sigOk(tx.id), theirSigs);
  }

  /** ConnectBlock's loop accepts the coinbase and every transaction of a template. */
  lemma {:induction false} AllPass(s: Site, height: nat, a: Answers, bestHeight: int, n: nat)
    requires Written(s, height) && FromTemplate(s) && SameSignatures(s, a) && n <= |s.txs| + 1
    ensures TxsPass(s.e.db, s.at, s.B(), s.file, s.recent, a, bestHeight, n)
  {
    hide Written, SameSignatures, TxPasses, ApplyTxs, Signatures;
    if n > 0 {
      AllPass(s, height, a, bestHeight, n - 1);
      if n == 1 {
        CoinbasePasses(s, a, bestHeight);
      } else {
        OnePasses(s, height, a, bestHeight, n - 2);
        assert s.B().vtx[n - 1] == s.txs[n - 2];
      }
    }
  }

  lemma CoinbasePasses(s: Site, a: Answers, bestHeight: int)
    requires FromTemplate(s)
    ensures TxPasses(s.e.db, ApplyTxs(s.e.db, s.at, s.B(), 0), s.file, s.B().vtx[0], s.recent,
                     Signatures(a, s.B().vtx[0], bestHeight))
  {
    hide Signatures;
    assert s.B().vtx[0] == s.coinbase;
  }

  /** The fees the miner counted are the fees ConnectBlock counts. */
  lemma {:induction false} SameFees(s: Site, height: nat, k: nat)
    requires Written(s, height) && FromTemplate(s) && k <= |s.txs|
    ensures TallyUpTo(s.e.db, s.at, s.B(), s.file, k + 1).fees == T.TotalFees(s.e, s.txs, k)
  {
    hide Written, FromTemplate, ApplyTxs, OutValues, ValueOut, Spends, T.View, T.FeeOf, T.Accepts;
    if k == 0 {
      assert s.B().vtx[0] == s.coinbase;
      CoinbaseIs(s);
      assert TallyUpTo(s.e.db, s.at, s.B(), s.file, 0).fees == 0;
    } else {
      SameFees(s, height, k - 1);
      var tx := s.txs[k - 1];
      assert s.B().vtx[k] == tx;
      PlacedFacts(s, k - 1);
      SameFee(s, height, k - 1);
    }
  }

  lemma CoinbaseIs(s: Site)
    requires FromTemplate(s)
    ensures s.coinbase.IsCoinBase()
  {
  }

  lemma {:induction false} SameFee(s: Site, height: nat, k: nat)
    requires Written(s, height) && FromTemplate(s) && k < |s.txs|
    ensures var tx, now := s.txs[k], ApplyTxs(s.e.db, s.at, s.B(), k + 1);
            OutValues(now, s.file, Spends(tx), |Spends(tx)|) - ValueOut(tx.vout)
            == T.FeeOf(s.e, T.View(s.e.db, s.txs, k), tx)
  {
    hide ApplyTxs, T.View, Alike, FromTemplate, Written, Fetchable, Acceptable, FetchOne, ValueOut;
    var now, view, tx := ApplyTxs(s.e.db, s.at, s.B(), k + 1), T.View(s.e.db, s.txs, k), s.txs[k];
    AlikeAfter(s, height, k);
    PlacedFacts(s, k);
    FoundAlike(s, now, view, tx);
    var mine, theirs := FetchedMap(tx, view, s.e.file, s.e.pool, false), FetchedMap(tx, now, s.file, map[], false);
    SpendsAreFetched(tx, theirs);
    ValueInIsOutValues(now, s.file, theirs, Spends(tx), |Spends(tx)|);
    SameValueIn(s, tx, mine, theirs, Prevouts(tx.vin), |tx.vin|);
  }

  // ----- the block as a whole

  lemma {:induction false} IdsOf(txs: seq<Tx>, n: nat, i: nat)
    requires i < n <= |txs|
    ensures txs[i].id in T.IdSet(txs, n)
  {
    if i < n - 1 {
      IdsOf(txs, n - 1, i);
    }
  }

  lemma IdsDistinct(s: Site)
    requires FromTemplate(s)
    ensures Distinct(TxIds(s.B()))
  {
    hide T.PlacedAt, T.IdSet;
    var ids := TxIds(s.B());
    forall i, j | 0 <= i < j < |ids|
      ensures ids[i] != ids[j]
    {
      assert ids[j] == s.txs[j - 1].id;
      NewIdAt(s.e.db, s.txs, j - 1, |s.txs|);
      if i == 0 {
        IdsOf(s.txs, |s.txs|, j - 1);
      } else {
        IdsOf(s.txs, j - 1, i - 1);
      }
    }
  }

  lemma BlockChecks(s: Site)
    requires FromTemplate(s) && CheckTransaction(s.coinbase)
    requires forall k | 0 <= k < |s.txs| :: CheckTransaction(s.txs[k])
    ensures CheckBlock(s.B()) && !s.B().IsProofOfStake()
  {
    hide FromTemplate, CheckTransaction;
    IdsDistinct(s);
    CoinbaseIs(s);
    var b := s.B();
    forall i | 0 <= i < |b.vtx|
      ensures CheckTransaction(b.vtx[i]) && (i > 0 ==> !b.vtx[i].IsCoinBase() && !b.vtx[i].IsCoinStake())
    {
      if i > 0 {
        assert b.vtx[i] == s.txs[i - 1];
        PlacedFacts(s, i - 1);
      }
    }
  }

  /** A template for a proof-of-work block, with a new coinbase in front that takes the reward
      CreateNewBlock computes from its fees, passes ConnectBlock on the index it was made for, as
      far as the answers of code outside the model allow. */
  lemma TemplatePasses(s: Site, height: nat, a: Answers, bestHeight: int)
    requires Written(s, height) && FromTemplate(s) && SameSignatures(s, a)
    requires CheckTransaction(s.coinbase) && forall k | 0 <= k < |s.txs| :: CheckTransaction(s.txs[k])
    requires ValueOut(s.coinbase.vout) <= ProofOfWorkReward(T.TotalFees(s.e, s.txs, |s.txs|), bestHeight)
    ensures BlockPasses(s.e.db, s.at, s.B(), s.file, s.recent, a, bestHeight) <==> a.checks
  {
    hide Written, FromTemplate, SameSignatures, TxsPass, TallyUpTo, CheckBlock, ProofOfWorkReward, ValueOut;
    BlockChecks(s);
    AllPass(s, height, a, bestHeight, |s.txs| + 1);
    SameFees(s, height, |s.txs|);
  }
}
