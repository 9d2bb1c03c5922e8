/** The total value of unspent outputs in a transaction index. */
module Supply {
  import opened Arithmetic
  import opened Basics
  import opened Ledger
  import opened Inputs
  import opened Provenance

  /** Value of the first n outputs that nobody spent. */
  function UnspentValue(spent: seq<DiskPos>, outs: seq<TxOut>, n: nat): int
    requires n <= |spent| && n <= |outs|
  {
    if n == 0 then 0
    else UnspentValue(spent, outs, n - 1) + if spent[n - 1] == Null then outs[n - 1].value else 0
  }

  function EntryValue(e: TxIndex, file: TxFile): int {
    if e.pos in file && |e.spent| == |file[e.pos].vout|
    then UnspentValue(e.spent, file[e.pos].vout, |e.spent|) else 0
  }

  /** Value of all unspent outputs of m. */
  ghost function Total(m: TxMap, file: TxFile): int {
    if m == map[] then 0
    else
      var k :| k in m;
      EntryValue(m[k], file) + Total(m - {k}, file)
  }

  /** The choice of the next key does not matter. */
  lemma {:induction false} TotalRemove(m: TxMap, file: TxFile, k: Hash)
    requires k in m
    ensures Total(m, file) == EntryValue(m[k], file) + Total(m - {k}, file)
    decreases |m|
  {
    var j :| j in m && Total(m, file) == EntryValue(m[j], file) + Total(m - {j}, file);
    if j != k {
      TotalRemove(m - {j}, file, k);
      TotalRemove(m - {k}, file, j);
      assert m - {j} - {k} == m - {k} - {j};
    }
  }

  lemma TotalUpdate(m: TxMap, file: TxFile, k: Hash, e: TxIndex)
    ensures Total(m[k := e], file)
         == Total(m, file) + EntryValue(e, file) - if k in m then EntryValue(m[k], file) else 0
  {
    TotalRemove(m[k := e], file, k);
    if k in m {
      TotalRemove(m, file, k);
      assert m[k := e] - {k} == m - {k};
    } else {
      assert m[k := e] - {k} == m;
    }
  }

  lemma {:induction false} MarkValue(spent: seq<DiskPos>, outs: seq<TxOut>, n: nat, i: nat, mark: DiskPos)
    requires n <= |spent| && n <= |outs| && i < |spent| && i < |outs|
    requires spent[i] == Null && mark != Null
    ensures UnspentValue(spent[i := mark], outs, n)
         == UnspentValue(spent, outs, n) - if i < n then outs[i].value else 0
  {
    if n > 0 {
      MarkValue(spent, outs, n - 1, i, mark);
    }
  }

  lemma {:induction false} AllUnspentValue(outs: seq<TxOut>, n: nat)
    requires n <= |outs|
    ensures UnspentValue(seq(|outs|, _ => Null), outs, n) == ValueOutUpTo(outs, n)
  {
    if n > 0 {
      AllUnspentValue(outs, n - 1);
    }
  }

  /** Value of an indexed output. */
  function OutValue(m: TxMap, file: TxFile, o: OutPoint): int {
    if o.hash in m && m[o.hash].pos in file && o.n < |file[m[o.hash].pos].vout|
    then file[m[o.hash].pos].vout[o.n].value else 0
  }

  function OutValues(m: TxMap, file: TxFile, outs: seq<OutPoint>, n: nat): int
    requires n <= |outs|
  {
    if n == 0 then 0 else OutValues(m, file, outs, n - 1) + OutValue(m, file, outs[n - 1])
  }

  lemma {:induction false} TotalSetSpent(m: TxMap, file: TxFile, o: OutPoint, mark: DiskPos)
    requires Unspent(m, o) && Describes(m[o.hash], o.hash, file) && mark != Null
    ensures Total(SetSpent(m, o, mark), file) == Total(m, file) - OutValue(m, file, o)
  {
    var e := m[o.hash];
    var e' := e.(spent := e.spent[o.n := mark]);
    TotalUpdate(m, file, o.hash, e');
    MarkValue(e.spent, file[e.pos].vout, |e.spent|, o.n, mark);
  }

  lemma {:induction false} NextStillUnspent(m: TxMap, file: TxFile, outs: seq<OutPoint>, n: nat, mark: DiskPos)
    requires n < |outs| && Distinct(outs) && mark != Null
    requires Unspent(m, outs[n]) && Describes(m[outs[n].hash], outs[n].hash, file)
    ensures var r := SetSpentUpTo(m, outs, n, mark);
            && Unspent(r, outs[n]) && Describes(r[outs[n].hash], outs[n].hash, file)
            && OutValue(r, file, outs[n]) == OutValue(m, file, outs[n])
  {
    UnspentAfterMarking(m, outs, n, mark);
    SetSpentUpToAt(m, outs, n, mark, outs[n].hash);
  }

  lemma {:induction false} TotalSetAllSpent(m: TxMap, file: TxFile, outs: seq<OutPoint>, n: nat, mark: DiskPos)
    requires n <= |outs| && Distinct(outs) && mark != Null
    requires forall o | o in outs :: Unspent(m, o) && Describes(m[o.hash], o.hash, file)
    ensures Total(SetSpentUpTo(m, outs, n, mark), file) == Total(m, file) - OutValues(m, file, outs, n)
  {
    if n > 0 {
      var o := outs[n - 1];
      assert o in outs;
      TotalSetAllSpent(m, file, outs, n - 1, mark);
      NextStillUnspent(m, file, outs, n - 1, mark);
      TotalSetSpent(SetSpentUpTo(m, outs, n - 1, mark), file, o, mark);
    }
  }

  /** Applying a transaction changes the total by what it creates minus what it spends. */
  lemma {:induction false} TotalApplyTx(m: TxMap, file: TxFile, tx: Tx, pos: DiskPos)
    requires Spendable(m, tx) && tx.id !in m && pos in file && file[pos] == tx && pos != Null
    requires forall o | o in Spends(tx) :: Describes(m[o.hash], o.hash, file)
    ensures Total(ApplyTx(m, tx, pos), file)
         == Total(m, file) + ValueOut(tx.vout) - OutValues(m, file, Spends(tx), |Spends(tx)|)
  {
    var outs := Spends(tx);
    TotalSetAllSpent(m, file, outs, |outs|, pos);
    TotalUpdate(SetAllSpent(m, outs, pos), file, tx.id, NewTxIndex(pos, |tx.vout|));
    AllUnspentValue(tx.vout, |tx.vout|);
  }

  /** What GetValueIn adds up in a block is the value of the indexed outputs. */
  lemma {:induction false} ValueInIsOutValues(base: TxMap, file: TxFile, inputs: PrevMap, outs: seq<OutPoint>, n: nat)
    requires n <= |outs|
    requires forall h | h in inputs :: FetchOne(base, file, map[], false, h) == Some(inputs[h])
    requires forall o | o in outs :: o.hash in inputs
    ensures ValueInUpTo(inputs, outs, n) == OutValues(base, file, outs, n)
  {
    if n > 0 {
      ValueInIsOutValues(base, file, inputs, outs, n - 1);
      assert outs[n - 1] in outs;
      assert FetchOne(base, file, map[], false, outs[n - 1].hash) == Some(inputs[outs[n - 1].hash]);
    }
  }

  /** The file may grow without changing the value of what is already described. */
  lemma {:induction false} TotalFileGrows(m: TxMap, file: TxFile, more: TxFile)
    requires forall k | k in m :: Describes(m[k], k, file)
    requires forall p | p in file :: p in more && more[p] == file[p]
    ensures Total(m, more) == Total(m, file)
    decreases |m|
  {
    if m != map[] {
      var k :| k in m;
      TotalRemove(m, file, k);
      TotalRemove(m, more, k);
      TotalFileGrows(m - {k}, file, more);
    }
  }

  // ----- rewards

  const COIN_YEAR_REWARD := 32 * CENT
  const COIN_YEAR_REWARD_V2 := 320_000

  /** GetProofOfStakeReward over unbounded integers. */
  function ProofOfStakeReward(coinAge: nat, fees: int, bestHeight: int): int {
    var rate := if bestHeight <= 1_999_793 then COIN_YEAR_REWARD else COIN_YEAR_REWARD_V2;
    TruncDiv(coinAge * rate * 33, 365 * 33 + 8) + fees
  }

  /** A year's reward is 32 cents a coin up to height 1,999,793 and a hundredth of that after it, for a
      year of 365 + 8/33 days, rounded down; fees come on top. */
  lemma StakeRewardIs(coinAge: nat, fees: int, bestHeight: int)
    ensures var rate := if bestHeight <= 1_999_793 then 32_000_000 else 320_000;
            var r := ProofOfStakeReward(coinAge, fees, bestHeight) - fees;
            0 <= r && r * 12_053 <= coinAge * rate * 33 < (r + 1) * 12_053
  {
    var rate := if bestHeight <= 1_999_793 then 32_000_000 else 320_000;
    DivBounds(coinAge * rate * 33, 12_053);
  }

  /** The reward rate only ever dropped. */
  lemma EarlyRewardIsMost(coinAge: nat, fees: int, bestHeight: int)
    ensures ProofOfStakeReward(coinAge, fees, bestHeight) <= ProofOfStakeReward(coinAge, fees, 0)
  {
    var d := 365 * 33 + 8;
    var x, y := coinAge * COIN_YEAR_REWARD_V2 * 33, coinAge * COIN_YEAR_REWARD * 33;
    assert 0 <= x <= y;
    DivBounds(x, d);
    DivAtLeast(x / d, y, d);
  }

  /** GetProofOfWorkReward. */
  function ProofOfWorkReward(fees: int, bestHeight: int): int {
    (if bestHeight == 0 then 47_786_667 * COIN else 64 * COIN) + fees
  }
}
