/** Connecting and disconnecting one block (src/main.cpp): ConnectBlock and DisconnectBlock over the
    transaction database, and what a block does to the money supply. */
module Chain {
  import opened Basics
  import opened Ledger
  import opened Inputs
  import opened Provenance
  import opened Supply
  import opened BlockTree
  import opened TxDb

  const COINBASE_MATURITY := 32

  /** Height of the last hardened checkpoint; signatures below it are not checked. */
  const TOTAL_BLOCKS_ESTIMATE := 2_390_000

  // ----- index changes of one block

  method DisconnectInputs(db: TxDB, tx: Tx) returns (ok: bool)
    requires db.active
    modifies db`pending
    ensures ok == UndoTx(old(db.View()), tx).Some?
    ensures ok ==> db.View() == UndoTx(old(db.View()), tx).value
  {
    hide SetSpentUpTo;
    ghost var m := db.View();
    ghost var outs := Spends(tx);
    MarkNone(m, outs);
    if !tx.IsCoinBase() {
      for i := 0 to |tx.vin|
        invariant db.View() == SetSpentUpTo(m, outs, i, Null)
        invariant forall j | 0 <= j < i :: HasOutput(m, outs[j])
      {
        var prevout := tx.vin[i].prevout;
        SetSpentUpToKeepsOutputs(m, outs, i, Null, outs[i]);
        MarkNext(m, outs, i);
        var r := db.ReadTxIndex(prevout.hash);
        if r.None? || prevout.n >= |r.value.spent| {
          assert outs[i] in outs && !HasOutput(m, outs[i]);
          return false;
        }
        db.UpdateTxIndex(prevout.hash, r.value.(spent := r.value.spent[prevout.n := Null]));
      }
    }
    assert forall o | o in outs :: HasOutput(m, o);
    db.EraseTxIndex(tx.id);
    ok := true;
  }

  lemma {:induction false} MarkNone(m: TxMap, outs: seq<OutPoint>)
    ensures SetSpentUpTo(m, outs, 0, Null) == m
  {
  }

  lemma MarkNext(m: TxMap, outs: seq<OutPoint>, i: nat)
    requires i < |outs|
    ensures SetSpentUpTo(m, outs, i + 1, Null) == SetSpent(SetSpentUpTo(m, outs, i, Null), outs[i], Null)
  {
  }

  lemma {:induction false} SetSpentUpToKeepsOutputs(m: TxMap, outs: seq<OutPoint>, n: nat, mark: DiskPos, o: OutPoint)
    requires n <= |outs|
    ensures HasOutput(SetSpentUpTo(m, outs, n, mark), o) == HasOutput(m, o)
  {
    if o.hash in m {
      SetSpentUpToAt(m, outs, n, mark, o.hash);
    }
  }

  method DisconnectBlock(db: TxDB, b: Block) returns (ok: bool)
    requires db.active
    modifies db`pending
    ensures ok == UndoBlock(old(db.View()), b).Some?
    ensures ok ==> db.View() == UndoBlock(old(db.View()), b).value
  {
    hide UndoTx, TxDB.View;
    var i := |b.vtx|;
    while i > 0
      invariant 0 <= i <= |b.vtx|
      invariant UndoTxs(db.View(), b, i) == UndoBlock(old(db.View()), b)
    {
      i := i - 1;
      ok := DisconnectInputs(db, b.vtx[i]);
      if !ok {
        return;
      }
    }
    ok := true;
  }

  /** The loop that writes mapQueuedChanges, in any order. */
  method WriteQueued(db: TxDB, queued: TxMap)
    requires db.active
    modifies db`pending
    ensures db.View() == old(db.View()) + queued
  {
    var todo := queued;
    while todo != map[]
      invariant db.View() + todo == old(db.View()) + queued
      decreases |todo|
    {
      var k :| k in todo;
      OverlayMoves(db.View(), todo, k);
      db.UpdateTxIndex(k, todo[k]);
      todo := todo - {k};
    }
    OverlayNothing(db.View());
  }

  lemma OverlayNothing(a: TxMap)
    ensures a + map[] == a
  {
  }

  lemma OverlayMoves(a: TxMap, b: TxMap, k: Hash)
    requires k in b
    ensures a[k := b[k]] + (b - {k}) == a + b
  {
  }

  /** What code outside the model answers about a block: its proof, timestamps, signature-operation
      count, Merkle root and sizes; each input's signature; and the coin age of its coinstake. */
  datatype Answers = Answers(checks: bool, sigOk: (Hash, nat) -> bool, coinAge: Option<nat>)

  /** The signature answers that count: none below the last hardened checkpoint. */
  function Signatures(a: Answers, tx: Tx, bestHeight: int): seq<bool> {
    if bestHeight >= TOTAL_BLOCKS_ESTIMATE then seq(|tx.vin|, i requires 0 <= i < |tx.vin| => a.sigOk(tx.id, i)) else []
  }

  /** A transaction passes ConnectBlock's loop: it overwrites nothing that has an unspent output,
      and all it spends is there, unspent and allowed. view is the index before the block, now the
      index with the transactions before this one. */
  predicate TxPasses(view: TxMap, now: TxMap, file: TxFile, tx: Tx, recent: seq<BlockPos>, sigOk: seq<bool>) {
    && !(tx.id in view && Null in view[tx.id].spent)
    && (tx.IsCoinBase() ||
        (Fetchable(tx, now, file, map[], false)
         && Acceptable(tx, FetchedMap(tx, now, file, map[], false), recent, sigOk)))
  }

  /** One turn of ConnectBlock's loop: the overwrite check, then fetch, connect and queue. */
  method ConnectTx(view: TxMap, queued0: TxMap, file: TxFile, tx: Tx, pos: DiskPos, recent: seq<BlockPos>, sigOk: seq<bool>)
    returns (ok: bool, queued: TxMap, txIn: int)
    requires pos != Null
    ensures ok <==> TxPasses(view, view + queued0, file, tx, recent, sigOk)
    ensures ok ==> Spendable(view + queued0, tx)
    ensures ok ==> view + queued == ApplyTx(view + queued0, tx, pos)
    ensures ok ==> txIn == OutValues(view + queued0, file, Spends(tx), |Spends(tx)|)
  {
    hide Acceptable, Fetchable, FetchedMap, ValueInUpTo, OutValues, FetchOne, SetAllSpent, Spendable, PrevHashes, IndexOf, Fetched;
    queued, txIn := queued0, 0;
    if tx.id in view && Null in view[tx.id].spent {
      return false, queued, txIn;
    }
    if !tx.IsCoinBase() {
      var inputs, invalid;
      ok, inputs, invalid := FetchInputs(tx, view, queued, file, map[], true, false);
      if !ok {
        return;
      }
      txIn := ValueIn(inputs, Prevouts(tx.vin));
      SpendsAreFetched(tx, inputs);
      ValueInIsOutValues(view + queued0, file, inputs, Spends(tx), |Spends(tx)|);
      FetchedMapIs(tx, view + queued0, file, map[], false, inputs);
      ok, queued := ConnectInputs(tx, inputs, queued, pos, recent, sigOk, true, false);
      if !ok {
        return;
      }
      ConnectedView(view, queued0, file, map[], tx, inputs, pos);
      AcceptableIsSpendable(view + queued0, file, map[], tx, inputs, recent, sigOk);
    } else {
      CoinbaseSpendsNothing(view + queued0, file, tx, pos);
    }
    QueueOne(view, queued, tx.id, NewTxIndex(pos, |tx.vout|));
    queued := queued[tx.id := NewTxIndex(pos, |tx.vout|)];
    ok := true;
  }

  lemma {:induction false} CoinbaseSpendsNothing(m: TxMap, file: TxFile, tx: Tx, pos: DiskPos)
    requires tx.IsCoinBase()
    ensures Spendable(m, tx) && OutValues(m, file, Spends(tx), |Spends(tx)|) == 0
    ensures ApplyTx(m, tx, pos) == m[tx.id := NewTxIndex(pos, |tx.vout|)]
  {
  }

  lemma QueueOne(a: TxMap, b: TxMap, k: Hash, e: TxIndex)
    ensures a + b[k := e] == (a + b)[k := e]
  {
  }

  lemma SpendsAreFetched(tx: Tx, inputs: PrevMap)
    requires !tx.IsCoinBase() && inputs.Keys == PrevHashes(tx)
    ensures forall o | o in Spends(tx) :: o.hash in inputs
  {
    forall o | o in Spends(tx)
      ensures o.hash in inputs
    {
      var i :| 0 <= i < |tx.vin| && Prevouts(tx.vin)[i] == o;
      assert tx.vin[i].prevout.hash in HashesUpTo(tx, |tx.vin|);
    }
  }

  /** ConnectBlock's tallies over the transactions of a block. */
  datatype Tally = Tally(fees: int, valueIn: int, valueOut: int, stakeReward: int) {
    function Add(tx: Tx, txIn: int): Tally {
      var txOut := ValueOut(tx.vout);
      Tally(if tx.IsCoinBase() || tx.IsCoinStake() then fees else fees + (txIn - txOut),
            valueIn + txIn, valueOut + txOut,
            if !tx.IsCoinBase() && tx.IsCoinStake() then txOut - txIn else stakeReward)
    }

    /** In a proof-of-stake block everything but the coinstake's reward is a fee. */
    predicate StakeOnly(i: nat) {
      valueOut - valueIn == stakeReward - fees && (i < 2 ==> stakeReward == 0)
    }
  }

  /** The tallies after i transactions. */
  function TallyUpTo(view: TxMap, at: BlockPos, b: Block, file: TxFile, i: nat): Tally
    requires i <= |b.vtx|
  {
    if i == 0 then Tally(0, 0, 0, 0)
    else
      var tx := b.vtx[i - 1];
      TallyUpTo(view, at, b, file, i - 1).Add(
        tx, OutValues(ApplyTxs(view, at, b, i - 1), file, Spends(tx), |Spends(tx)|))
  }

  /** The first n transactions pass, each on top of the ones before it. */
  predicate TxsPass(view: TxMap, at: BlockPos, b: Block, file: TxFile, recent: seq<BlockPos>, a: Answers,
                    bestHeight: int, n: nat)
    requires n <= |b.vtx|
  {
    n == 0 ||
    (&& TxsPass(view, at, b, file, recent, a, bestHeight, n - 1)
     && TxPasses(view, ApplyTxs(view, at, b, n - 1), file, b.vtx[n - 1], recent, Signatures(a, b.vtx[n - 1], bestHeight)))
  }

  lemma {:induction false} TxsPassDown(view: TxMap, at: BlockPos, b: Block, file: TxFile, recent: seq<BlockPos>,
                                       a: Answers, bestHeight: int, i: nat, n: nat)
    requires i <= n <= |b.vtx| && TxsPass(view, at, b, file, recent, a, bestHeight, n)
    ensures TxsPass(view, at, b, file, recent, a, bestHeight, i)
  {
    hide TxPasses;
    if i < n {
      TxsPassDown(view, at, b, file, recent, a, bestHeight, i, n - 1);
    }
  }

  /** ConnectBlock's loop over the transactions. */
  method ConnectTxs(view: TxMap, at: BlockPos, b: Block, file: TxFile, recent: seq<BlockPos>, a: Answers, bestHeight: int)
    returns (ok: bool, queued: TxMap, tally: Tally)
    ensures ok <==> TxsPass(view, at, b, file, recent, a, bestHeight, |b.vtx|)
    ensures ok ==> SpendableUpTo(view, at, b, |b.vtx|)
    ensures ok ==> view + queued == ApplyBlock(view, at, b)
    ensures ok ==> tally == TallyUpTo(view, at, b, file, |b.vtx|)
  {
    hide ApplyTx, Spendable, OutValues, Spends, ValueOut, TxPasses, Signatures;
    queued, tally := map[], Tally(0, 0, 0, 0);
    OverlayNothing(view);
    var nTxPos := at.offset + 80 + CompactSizeLen(|b.vtx|);
    for i := 0 to |b.vtx|
      invariant nTxPos == TxOffset(at, b, i)
      invariant view + queued == ApplyTxs(view, at, b, i)
      invariant SpendableUpTo(view, at, b, i)
      invariant tally == TallyUpTo(view, at, b, file, i)
      invariant TxsPass(view, at, b, file, recent, a, bestHeight, i)
    {
      var pos := At(at.file, at.offset, nTxPos);
      var txIn;
      ok, queued, txIn := ConnectTx(view, queued, file, b.vtx[i], pos, recent, Signatures(a, b.vtx[i], bestHeight));
      if !ok {
        if TxsPass(view, at, b, file, recent, a, bestHeight, |b.vtx|) {
          TxsPassDown(view, at, b, file, recent, a, bestHeight, i + 1, |b.vtx|);
        }
        return;
      }
      nTxPos := nTxPos + b.vtx[i].size;
      tally := tally.Add(b.vtx[i], txIn);
    }
    ok := true;
  }

  /** What ConnectBlock knows of a block whose transactions have all passed. */
  ghost predicate Passed(view: TxMap, at: BlockPos, b: Block, file: TxFile, height: nat) {
    && CollisionFree(file) && Filed(at, b, file) && GoodIndex(view, file, height)
    && b.vtx != [] && b.vtx[0].IsCoinBase() && Tagged(b.vtx[0], height + 1)
    && (forall i | 1 <= i < |b.vtx| :: Spending(b, i))
    && SpendableUpTo(view, at, b, |b.vtx|)
  }

  lemma PassedConnecting(view: TxMap, at: BlockPos, b: Block, file: TxFile, height: nat, n: nat)
    requires Passed(view, at, b, file, height) && n <= |b.vtx|
    ensures Connecting(view, file, height, at, b, n)
  {
    if n > 0 {
      SpendableDown(view, at, b, 0, |b.vtx|);
      FirstTxGood(view, file, height, at, b);
      if n < |b.vtx| {
        SpendableDown(view, at, b, n, |b.vtx|);
      }
      GoodAfterTxs(view, file, height + 1, at, b, n);
    }
  }

  lemma PassedStep(view: TxMap, at: BlockPos, b: Block, file: TxFile, height: nat, n: nat)
    requires Passed(view, at, b, file, height) && n < |b.vtx|
    ensures var before := ApplyTxs(view, at, b, n);
            Total(ApplyTxs(view, at, b, n + 1), file)
            == Total(before, file) + ValueOut(b.vtx[n].vout)
               - OutValues(before, file, Spends(b.vtx[n]), |Spends(b.vtx[n])|)
  {
    PassedConnecting(view, at, b, file, height, n);
    SpendableDown(view, at, b, n, |b.vtx|);
    assert n > 0 ==> Spending(b, n);
    ConnectStep(view, file, height, at, b, n);
  }

  /** The tallies account for every coin: what was created minus what was spent is the change of
      the unspent total. */
  lemma {:induction false} TallyIsTotal(view: TxMap, at: BlockPos, b: Block, file: TxFile, height: nat, n: nat)
    requires Passed(view, at, b, file, height) && n <= |b.vtx|
    ensures var tally := TallyUpTo(view, at, b, file, n);
            Total(ApplyTxs(view, at, b, n), file) == Total(view, file) + tally.valueOut - tally.valueIn
  {
    hide ApplyTx, Total, Passed, OutValues, ValueOut, Spends;
    if n > 0 {
      TallyIsTotal(view, at, b, file, height, n - 1);
      PassedStep(view, at, b, file, height, n - 1);
    }
  }

  predicate StakeAt(b: Block, i: nat) {
    && i < |b.vtx|
    && (i == 0 ==> b.vtx[0].IsCoinBase() && ValueOut(b.vtx[0].vout) == 0)
    && (i == 1 ==> !b.vtx[1].IsCoinBase() && b.vtx[1].IsCoinStake())
    && (i >= 2 ==> !b.vtx[i].IsCoinBase() && !b.vtx[i].IsCoinStake())
  }

  lemma CheckedStake(b: Block)
    requires CheckBlock(b) && b.IsProofOfStake()
    ensures forall i | 0 <= i < |b.vtx| :: StakeAt(b, i)
  {
    assert ValueOutUpTo(b.vtx[0].vout, 0) == 0;
  }

  /** In a checked proof-of-stake block everything but the coinstake's reward is a fee. */
  lemma {:induction false} TallyStakeOnly(view: TxMap, at: BlockPos, b: Block, file: TxFile, n: nat)
    requires n <= |b.vtx| && forall i | 0 <= i < |b.vtx| :: StakeAt(b, i)
    ensures TallyUpTo(view, at, b, file, n).StakeOnly(n)
  {
    if n > 0 {
      TallyStakeOnly(view, at, b, file, n - 1);
      assert StakeAt(b, n - 1);
    }
  }

  predicate WorkAt(b: Block, i: nat) {
    && i < |b.vtx|
    && if i == 0 then b.vtx[0].IsCoinBase() else !b.vtx[i].IsCoinBase() && !b.vtx[i].IsCoinStake()
  }

  /** Without a coinstake everything but the coinbase's value is a fee. */
  lemma {:induction false} TallyWorkOnly(view: TxMap, at: BlockPos, b: Block, file: TxFile, n: nat)
    requires 0 < n <= |b.vtx| && forall i | 0 <= i < |b.vtx| :: WorkAt(b, i)
    ensures var tally := TallyUpTo(view, at, b, file, n);
            tally.valueOut - tally.valueIn == ValueOut(b.vtx[0].vout) - tally.fees
  {
    hide OutValues, ValueOut, ApplyTxs;
    assert WorkAt(b, n - 1);
    if n > 1 {
      TallyWorkOnly(view, at, b, file, n - 1);
    } else {
      assert TallyUpTo(view, at, b, file, 0) == Tally(0, 0, 0, 0);
      CoinbaseSpendsNothing(ApplyTxs(view, at, b, 0), file, b.vtx[0], Null);
    }
  }

  /** So a block without a coinstake mints at most the reward for work: 64 coins, or the whole initial
      supply right after genesis. */
  lemma {:induction false} WorkSupply(view: TxMap, at: BlockPos, b: Block, file: TxFile, a: Answers, bestHeight: int)
    requires CheckBlock(b) && forall i | 1 <= i < |b.vtx| :: !b.vtx[i].IsCoinStake()
    requires RewardOk(b, TallyUpTo(view, at, b, file, |b.vtx|), a, bestHeight)
    ensures var tally := TallyUpTo(view, at, b, file, |b.vtx|);
            tally.valueOut - tally.valueIn <= (if bestHeight == 0 then 47_786_667 else 64) * 100_000_000
  {
    hide TallyUpTo, ValueOut, CheckTransaction, Distinct;
    forall i | 0 <= i < |b.vtx|
      ensures WorkAt(b, i)
    {
    }
    TallyWorkOnly(view, at, b, file, |b.vtx|);
  }

  lemma CheckedSpending(b: Block)
    requires CheckBlock(b)
    ensures forall i | 1 <= i < |b.vtx| :: Spending(b, i)
  {
    forall i | 1 <= i < |b.vtx|
      ensures Spending(b, i)
    {
      assert CheckTransaction(b.vtx[i]);
    }
  }

  /** What a block whose transactions all pass does to the supply. */
  lemma {:induction false} SupplyChange(view: TxMap, at: BlockPos, b: Block, file: TxFile, height: nat)
    requires CollisionFree(file) && Filed(at, b, file) && GoodIndex(view, file, height)
    requires CheckBlock(b) && Tagged(b.vtx[0], height + 1) && SpendableUpTo(view, at, b, |b.vtx|)
    ensures var tally := TallyUpTo(view, at, b, file, |b.vtx|);
            && Total(ApplyBlock(view, at, b), file) == Total(view, file) + tally.valueOut - tally.valueIn
            && (b.IsProofOfStake() ==> tally.valueOut - tally.valueIn == tally.stakeReward - tally.fees)
  {
    hide GoodIndex, Filed, CollisionFree, Tagged, Total, SpendableUpTo, TallyUpTo;
    CheckedSpending(b);
    TallyIsTotal(view, at, b, file, height, |b.vtx|);
    if b.IsProofOfStake() {
      CheckedStake(b);
      TallyStakeOnly(view, at, b, file, |b.vtx|);
    }
  }

  /** Fees are added on top of the reward for coin age. */
  lemma RewardCarriesFees(a: Answers, bestHeight: int)
    ensures a.coinAge.Some? ==> forall fees :: ProofOfStakeReward(a.coinAge.value, fees, bestHeight)
                                               == ProofOfStakeReward(a.coinAge.value, 0, bestHeight) + fees
  {
  }

  /** The coinbase or the coinstake takes no more than its reward. */
  predicate RewardOk(b: Block, tally: Tally, a: Answers, bestHeight: int)
    requires b.vtx != []
  {
    if b.IsProofOfStake() then
      a.coinAge.Some? && tally.stakeReward <= ProofOfStakeReward(a.coinAge.value, tally.fees, bestHeight)
    else ValueOut(b.vtx[0].vout) <= ProofOfWorkReward(tally.fees, bestHeight)
  }

  /** Everything ConnectBlock demands of a block on top of the index `view`. */
  predicate BlockPasses(view: TxMap, at: BlockPos, b: Block, file: TxFile, recent: seq<BlockPos>, a: Answers, bestHeight: int) {
    && CheckBlock(b) && a.checks
    && TxsPass(view, at, b, file, recent, a, bestHeight, |b.vtx|)
    && RewardOk(b, TallyUpTo(view, at, b, file, |b.vtx|), a, bestHeight)
  }

  /** What an input of a transaction that passes finds on file: an output that exists and is unspent,
      of a transaction that is no later and, if it made new coins, is in none of the recent blocks. */
  lemma SpendsMature(view: TxMap, now: TxMap, file: TxFile, tx: Tx, recent: seq<BlockPos>, sigOk: seq<bool>, i: nat)
    requires TxPasses(view, now, file, tx, recent, sigOk) && !tx.IsCoinBase() && i < |tx.vin|
    ensures var o := tx.vin[i].prevout;
            && o.hash in now && now[o.hash].pos in file && o.n < |now[o.hash].spent| && now[o.hash].spent[o.n] == Null
            && var p, prev := now[o.hash].pos, file[now[o.hash].pos];
            && o.n < |prev.vout| && MoneyRange(prev.vout[o.n].value) && prev.time <= tx.time
            && (p.At? && (prev.IsCoinBase() || prev.IsCoinStake()) ==> BlockPos(p.file, p.blockPos) !in recent)
  {
    var o := tx.vin[i].prevout;
    var inputs := FetchedMap(tx, now, file, map[], false);
    assert FetchableAt(tx, now, file, map[], false, i);
    assert Plausible(tx, inputs, recent, i) && Unused(IndexOf(inputs), Prevouts(tx.vin), sigOk, i);
    assert inputs[o.hash] == FetchOne(now, file, map[], false, o.hash).value;
  }

  /** From the last hardened checkpoint on, every signature of a block that passes is good. */
  lemma SignaturesChecked(view: TxMap, at: BlockPos, b: Block, file: TxFile, recent: seq<BlockPos>, a: Answers, bestHeight: int,
                          k: nat, i: nat)
    requires BlockPasses(view, at, b, file, recent, a, bestHeight) && bestHeight >= 2_390_000
    requires 1 <= k < |b.vtx| && i < |b.vtx[k].vin|
    ensures a.sigOk(b.vtx[k].id, i)
  {
    hide TxPasses, ApplyTxs, CheckTransaction, RewardOk, TallyUpTo, Distinct;
    TxsPassDown(view, at, b, file, recent, a, bestHeight, k + 1, |b.vtx|);
    SignaturesCount(view, ApplyTxs(view, at, b, k), file, b.vtx[k], recent, Signatures(a, b.vtx[k], bestHeight), i);
  }

  lemma SignaturesCount(view: TxMap, now: TxMap, file: TxFile, tx: Tx, recent: seq<BlockPos>, sigOk: seq<bool>, i: nat)
    requires TxPasses(view, now, file, tx, recent, sigOk) && !tx.IsCoinBase() && i < |tx.vin| && i < |sigOk|
    ensures sigOk[i]
  {
    hide FetchedMap, Fetchable, Plausible, Unspent;
    assert Unused(IndexOf(FetchedMap(tx, now, file, map[], false)), Prevouts(tx.vin), sigOk, i);
  }

  lemma {:induction false} SkippedUpTo(view: TxMap, at: BlockPos, b: Block, file: TxFile, recent: seq<BlockPos>, a: Answers,
                                       sigOk: (Hash, nat) -> bool, bestHeight: int, n: nat)
    requires bestHeight < 2_390_000 && n <= |b.vtx|
    ensures TxsPass(view, at, b, file, recent, a, bestHeight, n)
       <==> TxsPass(view, at, b, file, recent, a.(sigOk := sigOk), bestHeight, n)
  {
    hide TxPasses, ApplyTxs;
    if n > 0 {
      SkippedUpTo(view, at, b, file, recent, a, sigOk, bestHeight, n - 1);
    }
  }

  /** Before it no signature matters. */
  lemma SignaturesSkipped(view: TxMap, at: BlockPos, b: Block, file: TxFile, recent: seq<BlockPos>, a: Answers,
                          sigOk: (Hash, nat) -> bool, bestHeight: int)
    requires bestHeight < 2_390_000
    ensures BlockPasses(view, at, b, file, recent, a, bestHeight)
       <==> BlockPasses(view, at, b, file, recent, a.(sigOk := sigOk), bestHeight)
  {
    hide TxsPass, CheckBlock, TallyUpTo;
    SkippedUpTo(view, at, b, file, recent, a, sigOk, bestHeight, |b.vtx|);
  }

  /** ConnectBlock for the block at height `height` + 1. */
  method ConnectBlock(db: TxDB, at: BlockPos, b: Block, file: TxFile, recent: seq<BlockPos>, a: Answers, bestHeight: int,
                      prevSupply: int, ghost height: nat)
    returns (ok: bool, moneySupply: int)
    requires db.active && CollisionFree(file) && Filed(at, b, file)
    requires b.vtx != [] && Tagged(b.vtx[0], height + 1) && GoodIndex(db.View(), file, height)
    modifies db`pending
    ensures ok <==> BlockPasses(old(db.View()), at, b, file, recent, a, bestHeight)
    ensures !ok ==> db.View() == old(db.View())
    ensures ok ==> Connects(old(db.View()), at, b) && db.View() == ApplyBlock(old(db.View()), at, b)
    ensures ok ==> moneySupply - prevSupply == Total(db.View(), file) - Total(old(db.View()), file)
    ensures ok && b.IsProofOfStake() ==>
              a.coinAge.Some? && moneySupply - prevSupply <= ProofOfStakeReward(a.coinAge.value, 0, bestHeight)
    ensures ok && (forall i | 1 <= i < |b.vtx| :: !b.vtx[i].IsCoinStake()) ==>
              moneySupply - prevSupply <= (if bestHeight == 0 then 47_786_667 else 64) * 100_000_000
    ensures ok && bestHeight >= TOTAL_BLOCKS_ESTIMATE ==>
              forall k, i | 1 <= k < |b.vtx| && 0 <= i < |b.vtx[k].vin| :: a.sigOk(b.vtx[k].id, i)
  {
    hide TxsPass, CheckBlock, GoodIndex, Filed, CollisionFree, Tagged, Total, TallyUpTo, SpendableUpTo, ApplyTxs;
    hide ProofOfStakeReward, ProofOfWorkReward, ValueOut;
    RewardCarriesFees(a, bestHeight);
    moneySupply := 0;
    if !CheckBlock(b) || !a.checks {
      return false, moneySupply;
    }
    var view := db.View();
    var queued, tally;
    ok, queued, tally := ConnectTxs(view, at, b, file, recent, a, bestHeight);
    if !ok {
      return;
    }
    SupplyChange(view, at, b, file, height);
    if !b.IsProofOfStake() {
      if ValueOut(b.vtx[0].vout) > ProofOfWorkReward(tally.fees, bestHeight) {
        return false, moneySupply;
      }
    } else {
      if a.coinAge.None? || tally.stakeReward > ProofOfStakeReward(a.coinAge.value, tally.fees, bestHeight) {
        return false, moneySupply;
      }
    }
    if forall i | 1 <= i < |b.vtx| :: !b.vtx[i].IsCoinStake() {
      WorkSupply(view, at, b, file, a, bestHeight);
    }
    forall k, i | 1 <= k < |b.vtx| && 0 <= i < |b.vtx[k].vin| && bestHeight >= TOTAL_BLOCKS_ESTIMATE
      ensures a.sigOk(b.vtx[k].id, i)
    {
      SignaturesChecked(view, at, b, file, recent, a, bestHeight, k, i);
    }
    moneySupply := prevSupply + tally.valueOut - tally.valueIn;
    WriteQueued(db, queued);
    ok := true;
  }
}
