/** Transactions, blocks and the transaction index (src/main.h), with the effect that
    connecting and disconnecting a block has on the index as plain functions. */
module Ledger {
  import opened Basics
  import opened BigNum

  /** uint256. Hashing is not modelled: a transaction carries its id. */
  type Hash = nat

  const COIN := 100_000_000
  const CENT := 1_000_000
  const MAX_MONEY := 74_666_667 * COIN
  const MIN_TX_FEE := 10_000
  const NULL_INDEX := 0xFFFF_FFFF

  predicate MoneyRange(v: int) {
    0 <= v <= MAX_MONEY
  }

  datatype OutPoint = OutPoint(hash: Hash, n: nat) {
    predicate IsNull() {
      hash == 0 && n == NULL_INDEX
    }
  }

  datatype TxIn = TxIn(prevout: OutPoint, scriptSig: seq<Byte>)

  datatype TxOut = TxOut(value: int, script: seq<Byte>) {
    predicate IsEmpty() {
      value == 0 && script == []
    }
  }

  /** size is the serialised size on disk. */
  datatype Tx = Tx(id: Hash, time: nat, vin: seq<TxIn>, vout: seq<TxOut>, size: nat) {
    predicate IsCoinBase() {
      |vin| == 1 && vin[0].prevout.IsNull() && |vout| >= 1
    }

    predicate IsCoinStake() {
      |vin| > 0 && !vin[0].prevout.IsNull() && |vout| >= 2 && vout[0].IsEmpty()
    }
  }

  /** CDiskTxPos; Null is the position whose file number is -1. */
  datatype DiskPos = Null | At(file: nat, blockPos: nat, txPos: nat)

  /** The position that makes FetchInputs look in the memory pool. */
  const POOL_POS := At(1, 1, 1)

  /** CTxIndex: where a transaction is, and who spent each of its outputs. */
  datatype TxIndex = TxIndex(pos: DiskPos, spent: seq<DiskPos>)

  function NewTxIndex(pos: DiskPos, outputs: nat): TxIndex {
    TxIndex(pos, seq(outputs, _ => Null))
  }

  type TxMap = map<Hash, TxIndex>

  datatype Block = Block(vtx: seq<Tx>) {
    predicate IsProofOfStake() {
      |vtx| > 1 && vtx[1].IsCoinStake()
    }
  }

  /** Where a block sits in the block files. */
  datatype BlockPos = BlockPos(file: nat, offset: nat)

  /** Disk positions of a block's transactions: consecutive, after an 80-byte header and the
      transaction count. */
  function CompactSizeLen(n: nat): nat {
    if n < 253 then 1 else if n <= 0xFFFF then 3 else if n <= 0xFFFF_FFFF then 5 else 9
  }

  /** One byte up to 252; above that a marker and the fewest of two, four or eight bytes. */
  lemma CompactSizeIs(n: nat)
    requires n < 0x1_0000_0000_0000_0000
    ensures CompactSizeLen(n) == if n <= 252 then 1 else if n < 0x1_0000 then 1 + 2 else if n < 0x1_0000_0000 then 1 + 4 else 1 + 8
  {
  }

  function TxOffset(at: BlockPos, b: Block, i: nat): nat
    requires i <= |b.vtx|
  {
    if i == 0 then at.offset + 80 + CompactSizeLen(|b.vtx|)
    else TxOffset(at, b, i - 1) + b.vtx[i - 1].size
  }

  function TxPosition(at: BlockPos, b: Block, i: nat): DiskPos
    requires i < |b.vtx|
  {
    At(at.file, at.offset, TxOffset(at, b, i))
  }

  // ----- values

  /** Total value of the first n outputs. */
  function ValueOutUpTo(outs: seq<TxOut>, n: nat): int
    requires n <= |outs|
  {
    if n == 0 then 0 else ValueOutUpTo(outs, n - 1) + outs[n - 1].value
  }

  /** CTransaction::GetValueOut. */
  function ValueOut(outs: seq<TxOut>): int {
    ValueOutUpTo(outs, |outs|)
  }

  // ----- context-free checks

  function Prevouts(ins: seq<TxIn>): (s: seq<OutPoint>)
    ensures |s| == |ins| && forall i | 0 <= i < |ins| :: s[i] == ins[i].prevout
  {
    seq(|ins|, i requires 0 <= i < |ins| => ins[i].prevout)
  }

  /** CTransaction::CheckTransaction without the size limit and the coinbase script length. */
  predicate CheckTransaction(tx: Tx) {
    && tx.vin != [] && tx.vout != []
    && (forall i | 0 <= i < |tx.vout| ::
         && !(tx.vout[i].IsEmpty() && !tx.IsCoinBase() && !tx.IsCoinStake())
         && MoneyRange(tx.vout[i].value)
         && MoneyRange(ValueOutUpTo(tx.vout, i + 1)))
    && Distinct(Prevouts(tx.vin))
    && (!tx.IsCoinBase() ==> forall i | 0 <= i < |tx.vin| :: !tx.vin[i].prevout.IsNull())
  }

  /** A coinbase has one input, of the null outpoint; a coinstake has a real first input and an empty
      first output, with another after it. They exclude each other. */
  lemma TxKinds(tx: Tx)
    ensures tx.IsCoinBase() <==> |tx.vin| == 1 && tx.vin[0].prevout == OutPoint(0, 0xFFFF_FFFF) && |tx.vout| >= 1
    ensures tx.IsCoinStake() <==>
            |tx.vin| >= 1 && tx.vin[0].prevout != OutPoint(0, 0xFFFF_FFFF) && |tx.vout| >= 2 && tx.vout[0] == TxOut(0, [])
    ensures !(tx.IsCoinBase() && tx.IsCoinStake())
  {
  }

  /** What CheckTransaction amounts to: the running totals that it tests are in range exactly if no
      value is negative and the whole total is at most all the money. */
  predicate WellFormed(tx: Tx) {
    && tx.vin != [] && tx.vout != []
    && (forall i | 0 <= i < |tx.vout| :: tx.vout[i].value >= 0) && ValueOut(tx.vout) <= 74_666_667 * 100_000_000
    && (!tx.IsCoinBase() && !tx.IsCoinStake() ==>
          forall i | 0 <= i < |tx.vout| :: tx.vout[i].value != 0 || tx.vout[i].script != [])
    && (forall i, j | 0 <= i < j < |tx.vin| :: tx.vin[i].prevout != tx.vin[j].prevout)
    && (!tx.IsCoinBase() ==>
          forall i | 0 <= i < |tx.vin| :: tx.vin[i].prevout.hash != 0 || tx.vin[i].prevout.n != 0xFFFF_FFFF)
  }

  lemma CheckedExactly(tx: Tx)
    ensures CheckTransaction(tx) <==> WellFormed(tx)
  {
    if CheckTransaction(tx) {
      CheckedIsWellFormed(tx);
    }
    if WellFormed(tx) {
      WellFormedIsChecked(tx);
    }
  }

  lemma CheckedIsWellFormed(tx: Tx)
    requires CheckTransaction(tx)
    ensures WellFormed(tx)
  {
    SamePrevouts(tx.vin);
    var last := |tx.vout| - 1;
    assert MoneyRange(tx.vout[last].value) && MoneyRange(ValueOutUpTo(tx.vout, last + 1));
    forall i | 0 <= i < |tx.vin| && !tx.IsCoinBase()
      ensures tx.vin[i].prevout.hash != 0 || tx.vin[i].prevout.n != 0xFFFF_FFFF
    {
      assert !tx.vin[i].prevout.IsNull();
    }
  }

  lemma WellFormedIsChecked(tx: Tx)
    requires WellFormed(tx)
    ensures CheckTransaction(tx)
  {
    SamePrevouts(tx.vin);
    forall i | 0 <= i < |tx.vout|
      ensures MoneyRange(tx.vout[i].value) && MoneyRange(ValueOutUpTo(tx.vout, i + 1))
    {
      ValueOutGrows(tx.vout, 0, i);
      ValueOutGrows(tx.vout, i + 1, |tx.vout|);
    }
    forall i | 0 <= i < |tx.vin| && !tx.IsCoinBase()
      ensures !tx.vin[i].prevout.IsNull()
    {
      assert tx.vin[i].prevout.hash != 0 || tx.vin[i].prevout.n != 0xFFFF_FFFF;
    }
  }

  lemma SamePrevouts(ins: seq<TxIn>)
    ensures Distinct(Prevouts(ins)) <==> (forall i, j | 0 <= i < j < |ins| :: ins[i].prevout != ins[j].prevout)
  {
    if Distinct(Prevouts(ins)) {
      forall i, j | 0 <= i < j < |ins|
        ensures ins[i].prevout != ins[j].prevout
      {
        assert Prevouts(ins)[i] != Prevouts(ins)[j];
      }
    }
  }

  lemma {:induction false} ValueOutGrows(outs: seq<TxOut>, i: nat, n: nat)
    requires i <= n <= |outs| && forall j | 0 <= j < |outs| :: outs[j].value >= 0
    ensures 0 <= ValueOutUpTo(outs, n) - ValueOutUpTo(outs, i)
  {
    if i < n {
      ValueOutGrows(outs, i, n - 1);
    }
  }

  function TxIds(b: Block): (s: seq<Hash>)
    ensures |s| == |b.vtx| && forall i | 0 <= i < |s| :: s[i] == b.vtx[i].id
  {
    seq(|b.vtx|, i requires 0 <= i < |b.vtx| => b.vtx[i].id)
  }

  /** The part of CBlock::CheckBlock that is about the block's transactions. */
  predicate CheckBlock(b: Block) {
    && b.vtx != [] && b.vtx[0].IsCoinBase()
    && (forall i | 1 <= i < |b.vtx| :: !b.vtx[i].IsCoinBase())
    && (b.IsProofOfStake() ==>
         && |b.vtx[0].vout| == 1 && b.vtx[0].vout[0].IsEmpty()
         && forall i | 2 <= i < |b.vtx| :: !b.vtx[i].IsCoinStake())
    && (forall i | 0 <= i < |b.vtx| :: CheckTransaction(b.vtx[i]))
    && Distinct(TxIds(b))
  }

  // ----- the effect of connecting

  predicate HasOutput(m: TxMap, o: OutPoint) {
    o.hash in m && o.n < |m[o.hash].spent|
  }

  predicate Unspent(m: TxMap, o: OutPoint) {
    HasOutput(m, o) && m[o.hash].spent[o.n] == Null
  }

  function SetSpent(m: TxMap, o: OutPoint, mark: DiskPos): (r: TxMap)
    ensures r.Keys == m.Keys
  {
    if HasOutput(m, o) then
      var e := m[o.hash];
      m[o.hash := e.(spent := e.spent[o.n := mark])]
    else m
  }

  /** The first n listed outputs marked with `mark`, in order. */
  function SetSpentUpTo(m: TxMap, outs: seq<OutPoint>, n: nat, mark: DiskPos): (r: TxMap)
    requires n <= |outs|
    ensures r.Keys == m.Keys
  {
    if n == 0 then m else SetSpent(SetSpentUpTo(m, outs, n - 1, mark), outs[n - 1], mark)
  }

  function SetAllSpent(m: TxMap, outs: seq<OutPoint>, mark: DiskPos): (r: TxMap)
    ensures r.Keys == m.Keys
  {
    SetSpentUpTo(m, outs, |outs|, mark)
  }

  /** The outputs a transaction spends: none for a coinbase. */
  function Spends(tx: Tx): seq<OutPoint> {
    if tx.IsCoinBase() then [] else Prevouts(tx.vin)
  }

  function ApplyTx(m: TxMap, tx: Tx, pos: DiskPos): (r: TxMap)
    ensures r.Keys == m.Keys + {tx.id}
  {
    SetAllSpent(m, Spends(tx), pos)[tx.id := NewTxIndex(pos, |tx.vout|)]
  }

  /** The first n transactions of b applied in order. */
  function ApplyTxs(m: TxMap, at: BlockPos, b: Block, n: nat): TxMap
    requires n <= |b.vtx|
  {
    if n == 0 then m
    else ApplyTx(ApplyTxs(m, at, b, n - 1), b.vtx[n - 1], TxPosition(at, b, n - 1))
  }

  function ApplyBlock(m: TxMap, at: BlockPos, b: Block): TxMap {
    ApplyTxs(m, at, b, |b.vtx|)
  }

  /** tx finds all its outputs unspent, and does not name one twice. */
  predicate Spendable(m: TxMap, tx: Tx) {
    && (forall o | o in Spends(tx) :: Unspent(m, o))
    && Distinct(Spends(tx))
  }

  /** Transaction i can spend its inputs once the transactions before it are applied. */
  predicate SpendableAt(m: TxMap, at: BlockPos, b: Block, i: nat) {
    i < |b.vtx| && Spendable(ApplyTxs(m, at, b, i), b.vtx[i])
  }

  predicate SpendableUpTo(m: TxMap, at: BlockPos, b: Block, n: nat) {
    n == 0 || (SpendableUpTo(m, at, b, n - 1) && SpendableAt(m, at, b, n - 1))
  }

  lemma {:induction false} SpendableDown(m: TxMap, at: BlockPos, b: Block, i: nat, n: nat)
    requires i < n && SpendableUpTo(m, at, b, n)
    ensures SpendableAt(m, at, b, i) && SpendableUpTo(m, at, b, i)
  {
    if i < n - 1 {
      SpendableDown(m, at, b, i, n - 1);
    }
  }

  /** The block passes CheckBlock, and its transactions can be applied in order. */
  predicate Connects(m: TxMap, at: BlockPos, b: Block) {
    CheckBlock(b) && SpendableUpTo(m, at, b, |b.vtx|)
  }

  // ----- the effect of disconnecting

  /** CTransaction::DisconnectInputs: None is its error return. */
  function UndoTx(m: TxMap, tx: Tx): Option<TxMap> {
    if forall o | o in Spends(tx) :: HasOutput(m, o) then
      Some(SetAllSpent(m, Spends(tx), Null) - {tx.id})
    else None
  }

  /** The first n transactions of b undone, last one first. */
  function UndoTxs(m: TxMap, b: Block, n: nat): Option<TxMap>
    requires n <= |b.vtx|
  {
    if n == 0 then Some(m)
    else
      var r := UndoTx(m, b.vtx[n - 1]);
      if r.None? then None else UndoTxs(r.value, b, n - 1)
  }

  function UndoBlock(m: TxMap, b: Block): Option<TxMap> {
    UndoTxs(m, b, |b.vtx|)
  }

  // ----- lemmas about marking outputs

  /** Marking changes exactly the named slots. */
  lemma {:induction false} SetSpentUpToAt(m: TxMap, outs: seq<OutPoint>, i: nat, mark: DiskPos, k: Hash)
    requires k in m && i <= |outs|
    ensures var r := SetSpentUpTo(m, outs, i, mark);
            && r[k].pos == m[k].pos
            && |r[k].spent| == |m[k].spent|
            && forall n | 0 <= n < |m[k].spent| ::
                 r[k].spent[n] == if OutPoint(k, n) in outs[..i] then mark else m[k].spent[n]
  {
    if i > 0 {
      SetSpentUpToAt(m, outs, i - 1, mark, k);
      assert outs[..i] == outs[..i - 1] + [outs[i - 1]];
    }
  }

  lemma SetAllSpentAt(m: TxMap, outs: seq<OutPoint>, mark: DiskPos, k: Hash)
    requires k in m
    ensures var r := SetAllSpent(m, outs, mark);
            && r[k].pos == m[k].pos
            && |r[k].spent| == |m[k].spent|
            && forall n | 0 <= n < |m[k].spent| ::
                 r[k].spent[n] == if OutPoint(k, n) in outs then mark else m[k].spent[n]
  {
    SetSpentUpToAt(m, outs, |outs|, mark, k);
    assert outs[..|outs|] == outs;
  }

  lemma SetAllSpentKeepsOutputs(m: TxMap, outs: seq<OutPoint>, mark: DiskPos, o: OutPoint)
    ensures HasOutput(SetAllSpent(m, outs, mark), o) == HasOutput(m, o)
  {
    if o.hash in m {
      SetAllSpentAt(m, outs, mark, o.hash);
    }
  }

  /** Erasing after marking restores a map in which the marked slots were empty. */
  lemma MarkThenClear(m: TxMap, outs: seq<OutPoint>, mark: DiskPos)
    requires forall o | o in outs :: Unspent(m, o)
    ensures SetAllSpent(SetAllSpent(m, outs, mark), outs, Null) == m
  {
    var r := SetAllSpent(m, outs, mark);
    var q := SetAllSpent(r, outs, Null);
    forall k | k in m
      ensures q[k] == m[k]
    {
      SetAllSpentAt(m, outs, mark, k);
      SetAllSpentAt(r, outs, Null, k);
      forall n | 0 <= n < |m[k].spent|
        ensures q[k].spent[n] == m[k].spent[n]
      {
        if OutPoint(k, n) in outs {
          assert Unspent(m, OutPoint(k, n));
        }
      }
    }
  }

  /** A key that none of the outputs names can be added before or after marking. */
  lemma {:induction false} MarkSkipsOtherKey(m: TxMap, outs: seq<OutPoint>, i: nat, mark: DiskPos, k: Hash, e: TxIndex)
    requires i <= |outs| && forall o | o in outs :: o.hash != k
    ensures SetSpentUpTo(m[k := e], outs, i, mark) == SetSpentUpTo(m, outs, i, mark)[k := e]
  {
    if i > 0 {
      MarkSkipsOtherKey(m, outs, i - 1, mark, k, e);
      assert outs[i - 1] in outs;
    }
  }

  // ----- DisconnectBlock against ConnectBlock

  lemma UndoTxUndoes(m: TxMap, tx: Tx, pos: DiskPos)
    requires Spendable(m, tx) && tx.id !in m
    ensures UndoTx(ApplyTx(m, tx, pos), tx) == Some(m)
  {
    var outs := Spends(tx);
    var e := NewTxIndex(pos, |tx.vout|);
    var r := SetAllSpent(m, outs, pos);
    forall o | o in outs
      ensures HasOutput(r[tx.id := e], o) && o.hash != tx.id
    {
      SetAllSpentKeepsOutputs(m, outs, pos, o);
    }
    MarkSkipsOtherKey(r, outs, |outs|, Null, tx.id, e);
    MarkThenClear(m, outs, pos);
    assert m[tx.id := e] - {tx.id} == m;
  }

  /** The ids of the first n transactions. */
  function IdsUpTo(b: Block, n: nat): set<Hash>
    requires n <= |b.vtx|
  {
    if n == 0 then {} else IdsUpTo(b, n - 1) + {b.vtx[n - 1].id}
  }

  lemma {:induction false} IdsUpToHas(b: Block, n: nat, x: Hash)
    requires n <= |b.vtx|
    ensures x in IdsUpTo(b, n) <==> exists i | 0 <= i < n :: b.vtx[i].id == x
  {
    if n > 0 {
      IdsUpToHas(b, n - 1, x);
    }
  }

  lemma {:induction false} ApplyTxsKeys(m: TxMap, at: BlockPos, b: Block, n: nat)
    requires n <= |b.vtx|
    ensures ApplyTxs(m, at, b, n).Keys == m.Keys + IdsUpTo(b, n)
  {
    if n > 0 {
      var before := ApplyTxs(m, at, b, n - 1);
      ApplyTxsKeys(m, at, b, n - 1);
      assert ApplyTx(before, b.vtx[n - 1], TxPosition(at, b, n - 1)).Keys == before.Keys + {b.vtx[n - 1].id};
    }
  }

  predicate FreshIds(m: TxMap, b: Block) {
    forall i | 0 <= i < |b.vtx| :: b.vtx[i].id !in m
  }

  lemma {:induction false} IdNotYetApplied(m: TxMap, at: BlockPos, b: Block, n: nat)
    requires Distinct(TxIds(b)) && FreshIds(m, b) && n < |b.vtx|
    ensures b.vtx[n].id !in ApplyTxs(m, at, b, n)
  {
    ApplyTxsKeys(m, at, b, n);
    IdsUpToHas(b, n, b.vtx[n].id);
    assert forall i | 0 <= i < n :: TxIds(b)[i] != TxIds(b)[n];
  }

  lemma {:induction false} UndoTxsUndoes(m: TxMap, at: BlockPos, b: Block, n: nat)
    requires n <= |b.vtx| && Distinct(TxIds(b)) && FreshIds(m, b)
    requires SpendableUpTo(m, at, b, n)
    ensures UndoTxs(ApplyTxs(m, at, b, n), b, n) == Some(m)
  {
    if n > 0 {
      var before := ApplyTxs(m, at, b, n - 1);
      IdNotYetApplied(m, at, b, n - 1);
      UndoTxUndoes(before, b.vtx[n - 1], TxPosition(at, b, n - 1));
      UndoTxsUndoes(m, at, b, n - 1);
    }
  }

  /** Undoing leaves none of the undone ids, and touches no other key. */
  lemma {:induction false} UndoTxsKeys(m: TxMap, b: Block, n: nat)
    requires n <= |b.vtx| && UndoTxs(m, b, n).Some?
    ensures UndoTxs(m, b, n).value.Keys == m.Keys - IdsUpTo(b, n)
  {
    if n > 0 {
      UndoTxsKeys(UndoTx(m, b.vtx[n - 1]).value, b, n - 1);
    }
  }

  /** DisconnectBlock undoes ConnectBlock exactly when no id of the block was indexed before.
      ConnectBlock itself lets an id through when its old outputs are all spent. */
  lemma DisconnectUndoesConnect(m: TxMap, at: BlockPos, b: Block)
    requires Connects(m, at, b)
    ensures UndoBlock(ApplyBlock(m, at, b), b) == Some(m) <==> FreshIds(m, b)
  {
    if FreshIds(m, b) {
      UndoTxsUndoes(m, at, b, |b.vtx|);
    } else {
      var i :| 0 <= i < |b.vtx| && b.vtx[i].id in m;
      if UndoBlock(ApplyBlock(m, at, b), b).Some? {
        UndoTxsKeys(ApplyBlock(m, at, b), b, |b.vtx|);
        IdsUpToHas(b, |b.vtx|, b.vtx[i].id);
      }
    }
  }
}
