/** Why a transaction id is never indexed twice on one chain: a repeated spending transaction
    meets its own earlier spends, and a repeated coinbase would need the same height prefix. */
module Provenance {
  import opened Basics
  import opened BigNum
  import opened Ledger
  import opened Inputs

  // ----- the height prefix of a coinbase

  const OP_1 := 0x51

  /** CScript() << nHeight for a height in int range. */
  function HeightScript(h: nat): (s: seq<Byte>)
    requires h < 0x8000_0000
    ensures |s| >= 1
  {
    if 1 <= h <= 16 then [h + (OP_1 - 1)]
    else
      LeBytesShort(h);
      [|GetVch(h)|] + GetVch(h)
  }

  /** Read back, the push is the height: an opcode for 1 to 16, otherwise a length and that many bytes,
      lowest first, with no sign bit and as few as possible. */
  lemma HeightReadsBack(h: nat)
    requires h < 0x8000_0000
    ensures var s := HeightScript(h);
            if 1 <= h <= 16 then s == [0x50 + h]
            else
              && s[0] == |s| - 1 <= 4 && LeValue(s[1..]) == h
              && (|s| > 1 ==> s[|s| - 1] < 0x80)
              && (|s| > 1 && s[|s| - 1] == 0 ==> |s| > 2 && s[|s| - 2] >= 0x80)
  {
    LeBytesShort(h);
    LeValueOfLeBytes(h);
    LeValueTrailingZero(LeBytes(h));
  }

  /** One script cannot start with two different heights. */
  lemma HeightPrefixUnique(a: nat, b: nat, script: seq<Byte>)
    requires a < 0x8000_0000 && b < 0x8000_0000
    requires HeightScript(a) <= script && HeightScript(b) <= script
    ensures a == b
  {
    LeBytesShort(a);
    LeBytesShort(b);
    var x, y := HeightScript(a), HeightScript(b);
    assert x[0] == script[0] == y[0];
    if 1 <= a <= 16 || 1 <= b <= 16 {
    } else {
      assert x == script[..|x|] && y == script[..|y|];
      assert x[1..] == GetVch(a) && y[1..] == GetVch(b);
      SetVchOfGetVch(a);
      SetVchOfGetVch(b);
    }
  }

  predicate Tagged(tx: Tx, h: nat) {
    h < 0x8000_0000 && tx.vin != [] && HeightScript(h) <= tx.vin[0].scriptSig
  }

  // ----- what every index built from blocks satisfies

  /** Distinct transactions on file have distinct ids. */
  predicate CollisionFree(file: TxFile) {
    forall p, q {:trigger Agree(file, p, q)} | p in file && q in file :: Agree(file, p, q)
  }

  predicate Agree(file: TxFile, p: DiskPos, q: DiskPos) {
    p in file && q in file && (file[p].id == file[q].id ==> file[p] == file[q])
  }

  predicate Describes(e: TxIndex, k: Hash, file: TxFile) {
    e.pos in file && file[e.pos].id == k && |e.spent| == |file[e.pos].vout|
  }

  predicate Spent(m: TxMap, o: OutPoint) {
    HasOutput(m, o) && m[o.hash].spent[o.n] != Null
  }

  predicate TaggedUpTo(tx: Tx, height: nat) {
    exists h :: 1 <= h <= height && Tagged(tx, h)
  }

  /** Entry k is on file, its inputs are spent, and a coinbase carries a height up to `height`. */
  predicate GoodEntry(m: TxMap, file: TxFile, height: nat, k: Hash) {
    && k in m && Describes(m[k], k, file)
    && (forall o | o in Spends(file[m[k].pos]) :: Spent(m, o))
    && (file[m[k].pos].IsCoinBase() ==> TaggedUpTo(file[m[k].pos], height))
  }

  ghost predicate GoodIndex(m: TxMap, file: TxFile, height: nat) {
    forall k {:trigger GoodEntry(m, file, height, k)} | k in m :: GoodEntry(m, file, height, k)
  }

  lemma SpentAfterMarking(m: TxMap, outs: seq<OutPoint>, pos: DiskPos, o: OutPoint)
    requires pos != Null && (Spent(m, o) || (o in outs && HasOutput(m, o)))
    ensures Spent(SetAllSpent(m, outs, pos), o)
  {
    SetAllSpentAt(m, outs, pos, o.hash);
    assert OutPoint(o.hash, o.n) == o;
  }

  lemma GoodEntryKept(m: TxMap, file: TxFile, height: nat, tx: Tx, pos: DiskPos, k: Hash)
    requires pos != Null && GoodEntry(m, file, height, k) && tx.id !in m
    ensures GoodEntry(ApplyTx(m, tx, pos), file, height, k)
  {
    var r := ApplyTx(m, tx, pos);
    SetAllSpentAt(m, Spends(tx), pos, k);
    forall o | o in Spends(file[m[k].pos])
      ensures Spent(r, o)
    {
      SpentAfterMarking(m, Spends(tx), pos, o);
    }
  }

  lemma GoodIndexApply(m: TxMap, file: TxFile, height: nat, tx: Tx, pos: DiskPos)
    requires GoodIndex(m, file, height)
    requires pos != Null && pos in file && file[pos] == tx
    requires Spendable(m, tx) && tx.id !in m
    requires tx.IsCoinBase() ==> TaggedUpTo(tx, height)
    ensures GoodIndex(ApplyTx(m, tx, pos), file, height)
  {
    var r := ApplyTx(m, tx, pos);
    forall k | k in r
      ensures GoodEntry(r, file, height, k)
    {
      if k != tx.id {
        assert k in m;
        GoodEntryKept(m, file, height, tx, pos, k);
      } else {
        forall o | o in Spends(tx)
          ensures Spent(r, o)
        {
          assert Unspent(m, o);
          SpentAfterMarking(m, Spends(tx), pos, o);
        }
      }
    }
  }

  lemma IndexedMeansInputsSpent(m: TxMap, file: TxFile, height: nat, tx: Tx, pos: DiskPos)
    requires GoodIndex(m, file, height) && CollisionFree(file)
    requires pos in file && file[pos] == tx && tx.id in m
    ensures forall o | o in Spends(tx) :: Spent(m, o)
  {
    assert GoodEntry(m, file, height, tx.id);
    assert Agree(file, m[tx.id].pos, pos);
  }

  /** A spending transaction whose id is indexed cannot be connected again. */
  lemma NoSecondSpend(m: TxMap, file: TxFile, height: nat, tx: Tx, pos: DiskPos)
    requires GoodIndex(m, file, height) && CollisionFree(file)
    requires pos in file && file[pos] == tx
    requires !tx.IsCoinBase() && tx.vin != [] && Spendable(m, tx)
    ensures tx.id !in m
  {
    var o := Spends(tx)[0];
    assert o in Spends(tx) && Unspent(m, o);
    if tx.id in m {
      IndexedMeansInputsSpent(m, file, height, tx, pos);
    }
  }

  lemma TaggedOnce(tx: Tx, height: nat)
    requires Tagged(tx, height + 1)
    ensures !TaggedUpTo(tx, height)
  {
    hide HeightScript;
    forall h | 1 <= h <= height
      ensures !Tagged(tx, h)
    {
      if Tagged(tx, h) {
        HeightPrefixUnique(h, height + 1, tx.vin[0].scriptSig);
      }
    }
  }

  lemma NoSecondCoinbase(m: TxMap, file: TxFile, height: nat, tx: Tx, pos: DiskPos)
    requires GoodIndex(m, file, height) && CollisionFree(file)
    requires pos in file && file[pos] == tx
    requires tx.IsCoinBase() && Tagged(tx, height + 1)
    ensures tx.id !in m
  {
    if tx.id in m {
      assert GoodEntry(m, file, height, tx.id);
      assert Agree(file, m[tx.id].pos, pos);
      TaggedOnce(tx, height);
    }
  }

  /** Every transaction of the block is on file at its own position. */
  predicate Filed(at: BlockPos, b: Block, file: TxFile) {
    forall i | 0 <= i < |b.vtx| :: FiledAt(at, b, file, i)
  }

  predicate FiledAt(at: BlockPos, b: Block, file: TxFile, i: nat) {
    i < |b.vtx| && TxPosition(at, b, i) in file && file[TxPosition(at, b, i)] == b.vtx[i]
  }

  lemma GoodIndexLater(m: TxMap, file: TxFile, height: nat)
    requires GoodIndex(m, file, height)
    ensures GoodIndex(m, file, height + 1)
  {
    forall k | k in m
      ensures GoodEntry(m, file, height + 1, k)
    {
      assert GoodEntry(m, file, height, k);
      if file[m[k].pos].IsCoinBase() {
        var h :| 1 <= h <= height && Tagged(file[m[k].pos], h);
        assert 1 <= h <= height + 1 && Tagged(file[m[k].pos], h);
      }
    }
  }

  lemma {:induction false} FirstTxGood(m: TxMap, file: TxFile, height: nat, at: BlockPos, b: Block)
    requires GoodIndex(m, file, height) && CollisionFree(file) && Filed(at, b, file)
    requires SpendableAt(m, at, b, 0) && b.vtx[0].IsCoinBase() && Tagged(b.vtx[0], height + 1)
    ensures b.vtx[0].id !in m
    ensures GoodIndex(ApplyTxs(m, at, b, 1), file, height + 1)
  {
    var pos := TxPosition(at, b, 0);
    assert FiledAt(at, b, file, 0);
    NoSecondCoinbase(m, file, height, b.vtx[0], pos);
    GoodIndexLater(m, file, height);
    assert TaggedUpTo(b.vtx[0], height + 1) by {
      assert 1 <= height + 1 <= height + 1 && Tagged(b.vtx[0], height + 1);
    }
    GoodIndexApply(m, file, height + 1, b.vtx[0], pos);
    assert ApplyTxs(m, at, b, 1) == ApplyTx(ApplyTxs(m, at, b, 0), b.vtx[0], pos);
  }

  /** One more transaction: it is new, and the index stays good. */
  lemma NextTxGood(m: TxMap, file: TxFile, height: nat, at: BlockPos, b: Block, n: nat)
    requires CollisionFree(file) && Filed(at, b, file)
    requires 1 <= n < |b.vtx| && !b.vtx[n].IsCoinBase() && b.vtx[n].vin != [] && SpendableAt(m, at, b, n)
    requires GoodIndex(ApplyTxs(m, at, b, n), file, height)
    ensures b.vtx[n].id !in ApplyTxs(m, at, b, n)
    ensures GoodIndex(ApplyTxs(m, at, b, n + 1), file, height)
  {
    var pos := TxPosition(at, b, n);
    var before := ApplyTxs(m, at, b, n);
    assert FiledAt(at, b, file, n);
    NoSecondSpend(before, file, height, b.vtx[n], pos);
    GoodIndexApply(before, file, height, b.vtx[n], pos);
  }

  predicate Spending(b: Block, i: nat) {
    i < |b.vtx| && !b.vtx[i].IsCoinBase() && b.vtx[i].vin != []
  }

  lemma {:induction false} GoodAfterTxs(m: TxMap, file: TxFile, height: nat, at: BlockPos, b: Block, n: nat)
    requires CollisionFree(file) && Filed(at, b, file)
    requires 1 <= n <= |b.vtx|
    requires forall i | 1 <= i < n :: Spending(b, i)
    requires SpendableUpTo(m, at, b, n)
    requires GoodIndex(ApplyTxs(m, at, b, 1), file, height)
    ensures GoodIndex(ApplyTxs(m, at, b, n), file, height)
  {
    if n > 1 {
      GoodAfterTxs(m, file, height, at, b, n - 1);
      assert Spending(b, n - 1);
      NextTxGood(m, file, height, at, b, n - 1);
    }
  }

  /** A block that connects to a good index has only new ids, and leaves a good index. */
  lemma ConnectedIdsAreFresh(m: TxMap, file: TxFile, height: nat, at: BlockPos, b: Block)
    requires GoodIndex(m, file, height) && CollisionFree(file) && Filed(at, b, file)
    requires Connects(m, at, b) && Tagged(b.vtx[0], height + 1)
    ensures FreshIds(m, b)
    ensures GoodIndex(ApplyBlock(m, at, b), file, height + 1)
  {
    SpendableDown(m, at, b, 0, |b.vtx|);
    FirstTxGood(m, file, height, at, b);
    assert forall i | 1 <= i < |b.vtx| :: CheckTransaction(b.vtx[i]) && Spending(b, i);
    GoodAfterTxs(m, file, height + 1, at, b, |b.vtx|);
    forall i | 0 <= i < |b.vtx|
      ensures b.vtx[i].id !in m
    {
      if i > 0 {
        SpendableDown(m, at, b, i, |b.vtx|);
        GoodAfterTxs(m, file, height + 1, at, b, i);
        assert Spending(b, i);
        NextTxGood(m, file, height + 1, at, b, i);
        ApplyTxsKeys(m, at, b, i);
      }
    }
  }
}
