/** CTransaction::FetchInputs, GetValueIn and ConnectInputs (src/main.cpp), shared by block
    connection, the miner and the memory pool. */
module Inputs {
  import opened Basics
  import opened Ledger

  type TxFile = map<DiskPos, Tx>

  /** One entry of MapPrevTx. */
  datatype Prev = Prev(index: TxIndex, tx: Tx)

  type PrevMap = map<Hash, Prev>

  /** The transactions named by the first n inputs. */
  function HashesUpTo(tx: Tx, n: nat): set<Hash>
    requires n <= |tx.vin|
  {
    set i | 0 <= i < n :: tx.vin[i].prevout.hash
  }

  function PrevHashes(tx: Tx): set<Hash> {
    HashesUpTo(tx, |tx.vin|)
  }

  lemma HashesUpToStep(tx: Tx, n: nat)
    requires n < |tx.vin|
    ensures HashesUpTo(tx, n + 1) == HashesUpTo(tx, n) + {tx.vin[n].prevout.hash}
  {
  }

  lemma NoHashes(tx: Tx)
    ensures HashesUpTo(tx, 0) == {}
  {
  }

  lemma NamedHash(tx: Tx, i: nat)
    requires i < |tx.vin|
    ensures tx.vin[i].prevout.hash in PrevHashes(tx)
  {
  }

  /** Where a previous transaction is found. base is the index (with the proposed changes, when
      connecting a block or building one); only a loose transaction may fall back on the pool
      when the index has no entry. */
  function FetchOne(base: TxMap, file: TxFile, pool: map<Hash, Tx>, loose: bool, h: Hash): Option<Prev> {
    if h in base then
      if base[h].pos == POOL_POS then
        if h in pool then Some(Prev(base[h], pool[h])) else None
      else if base[h].pos in file then Some(Prev(base[h], file[base[h].pos]))
      else None
    else if loose && h in pool then Some(Prev(NewTxIndex(Null, |pool[h].vout|), pool[h]))
    else None
  }

  /** The contents of an indexed transaction can be read: from the pool if its position says so,
      from the block files otherwise. */
  predicate Readable(e: TxIndex, h: Hash, file: TxFile, pool: map<Hash, Tx>) {
    if e.pos == At(1, 1, 1) then h in pool else e.pos in file
  }

  /** A previous transaction of a loose transaction is found exactly if it is indexed and readable,
      or not indexed and pooled; a pooled one then has all its outputs unspent. */
  lemma LooseFound(db: TxMap, file: TxFile, pool: map<Hash, Tx>, h: Hash)
    ensures var r := FetchOne(db, file, pool, true, h);
            && (r.Some? <==> if h in db then Readable(db[h], h, file, pool) else h in pool)
            && (r.Some? && h in db ==>
                  r.value == Prev(db[h], if db[h].pos == At(1, 1, 1) then pool[h] else file[db[h].pos]))
            && (r.Some? && h !in db ==> FromPool(r.value, pool[h]))
  {
  }

  /** The transaction is tx, at no place in the chain, and nothing of it is spent. */
  predicate FromPool(p: Prev, tx: Tx) {
    p.tx == tx && p.index.pos == Null && |p.index.spent| == |tx.vout| && forall n | 0 <= n < |tx.vout| :: p.index.spent[n] == Null
  }

  /** In a block or a template it is found exactly if it is indexed, proposed changes first, and
      readable. */
  lemma BlockFound(db: TxMap, testPool: TxMap, file: TxFile, pool: map<Hash, Tx>, h: Hash)
    ensures var r := FetchOne(Base(db, testPool, false), file, pool, false, h);
            && (r.Some? <==> if h in testPool then Readable(testPool[h], h, file, pool)
                             else h in db && Readable(db[h], h, file, pool))
            && (r.Some? ==>
                  && r.value.index == (if h in testPool then testPool[h] else db[h])
                  && r.value.tx == if r.value.index.pos == At(1, 1, 1) then pool[h] else file[r.value.index.pos])
  {
  }

  predicate InRange(p: Prev, n: nat) {
    n < |p.tx.vout| && n < |p.index.spent|
  }

  predicate FetchableAt(tx: Tx, base: TxMap, file: TxFile, pool: map<Hash, Tx>, loose: bool, i: nat) {
    && i < |tx.vin|
    && FetchOne(base, file, pool, loose, tx.vin[i].prevout.hash).Some?
    && InRange(FetchOne(base, file, pool, loose, tx.vin[i].prevout.hash).value, tx.vin[i].prevout.n)
  }

  /** Every input is found, and names an existing output. */
  predicate Fetchable(tx: Tx, base: TxMap, file: TxFile, pool: map<Hash, Tx>, loose: bool) {
    tx.IsCoinBase()
    || forall i | 0 <= i < |tx.vin| :: FetchableAt(tx, base, file, pool, loose, i)
  }

  /** Every input's transaction is found, whether or not it has the output. */
  predicate AllFound(tx: Tx, base: TxMap, file: TxFile, pool: map<Hash, Tx>, loose: bool) {
    forall i | 0 <= i < |tx.vin| :: FetchOne(base, file, pool, loose, tx.vin[i].prevout.hash).Some?
  }

  /** The index a block, a template or a loose transaction is checked against. */
  function Base(db: TxMap, testPool: TxMap, loose: bool): TxMap {
    if loose then db else db + testPool
  }

  /** What FetchInputs collects. */
  function FetchedMap(tx: Tx, base: TxMap, file: TxFile, pool: map<Hash, Tx>, loose: bool): PrevMap {
    map h | h in PrevHashes(tx) && FetchOne(base, file, pool, loose, h).Some? :: FetchOne(base, file, pool, loose, h).value
  }

  lemma FetchedMapIs(tx: Tx, base: TxMap, file: TxFile, pool: map<Hash, Tx>, loose: bool, inputs: PrevMap)
    requires inputs.Keys == PrevHashes(tx)
    requires forall h | h in inputs :: FetchOne(base, file, pool, loose, h) == Some(inputs[h])
    ensures FetchedMap(tx, base, file, pool, loose) == inputs
  {
  }

  /** The body of FetchInputs' first loop. */
  method FetchPrev(h: Hash, db: TxMap, testPool: TxMap, file: TxFile, pool: map<Hash, Tx>,
                   fBlock: bool, fMiner: bool)
    returns (r: Option<Prev>)
    ensures var loose := !(fBlock || fMiner);
            r == FetchOne(Base(db, testPool, loose), file, pool, loose, h)
  {
    var index := TxIndex(Null, []);
    var found := true;
    if (fBlock || fMiner) && h in testPool {
      index := testPool[h];
    } else {
      found := h in db;
      if found {
        index := db[h];
      }
    }
    if !found && (fBlock || fMiner) {
      return None;
    }
    if !found || index.pos == POOL_POS {
      if h !in pool {
        return None;
      }
      if !found {
        index := NewTxIndex(Null, |pool[h].vout|);
      }
      return Some(Prev(index, pool[h]));
    }
    if index.pos !in file {
      return None;
    }
    return Some(Prev(index, file[index.pos]));
  }

  method FetchInputs(tx: Tx, db: TxMap, testPool: TxMap, file: TxFile, pool: map<Hash, Tx>,
                     fBlock: bool, fMiner: bool)
    returns (ok: bool, inputs: PrevMap, invalid: bool)
    ensures var loose := !(fBlock || fMiner);
            ok == Fetchable(tx, Base(db, testPool, loose), file, pool, loose)
    ensures ok && !tx.IsCoinBase() ==> inputs.Keys == PrevHashes(tx)
    ensures ok ==>
              var loose := !(fBlock || fMiner);
              forall h | h in inputs :: FetchOne(Base(db, testPool, loose), file, pool, loose, h) == Some(inputs[h])
    ensures ok ==> Fetched(tx, inputs)
    ensures tx.IsCoinBase() ==> inputs == map[]
    ensures var loose := !(fBlock || fMiner);
            invalid <==> !ok && AllFound(tx, Base(db, testPool, loose), file, pool, loose)
    ensures !fBlock && !fMiner && !tx.IsCoinBase() ==>
              && (ok || invalid <==> forall i | 0 <= i < |tx.vin| :: LooselyThere(tx.vin[i].prevout.hash, db, file, pool))
              && (ok ==> forall h | h in inputs && h !in db :: h in pool && FromPool(inputs[h], pool[h]))
  {
    if tx.IsCoinBase() {
      return true, map[], false;
    }
    LooseMeans(tx, db, testPool, file, pool);
    ghost var loose := !(fBlock || fMiner);
    ghost var base := Base(db, testPool, loose);
    hide FetchOne, Base;
    ok, inputs := FetchAll(tx, db, testPool, file, pool, fBlock, fMiner);
    if !ok {
      if Fetchable(tx, base, file, pool, loose) {
        FetchableIsFound(tx, base, file, pool, loose);
      }
      return false, inputs, false;
    }
    ok := IndexesValid(tx, inputs);
    forall i | 0 <= i < |tx.vin|
      ensures FetchableAt(tx, base, file, pool, loose, i)
         <==> InRange(inputs[tx.vin[i].prevout.hash], tx.vin[i].prevout.n)
    {
      assert tx.vin[i].prevout.hash in HashesUpTo(tx, |tx.vin|);
    }
    invalid := !ok;
  }

  predicate LooselyThere(h: Hash, db: TxMap, file: TxFile, pool: map<Hash, Tx>) {
    if h in db then Readable(db[h], h, file, pool) else h in pool
  }

  lemma LooseMeans(tx: Tx, db: TxMap, testPool: TxMap, file: TxFile, pool: map<Hash, Tx>)
    ensures Base(db, testPool, true) == db
    ensures AllFound(tx, db, file, pool, true) <==>
            forall i | 0 <= i < |tx.vin| :: LooselyThere(tx.vin[i].prevout.hash, db, file, pool)
    ensures forall h | h !in db && FetchOne(db, file, pool, true, h).Some? ::
              h in pool && FromPool(FetchOne(db, file, pool, true, h).value, pool[h])
  {
    forall h: Hash
      ensures FetchOne(db, file, pool, true, h).Some? <==> LooselyThere(h, db, file, pool)
      ensures FetchOne(db, file, pool, true, h).Some? && h !in db ==>
                h in pool && FromPool(FetchOne(db, file, pool, true, h).value, pool[h])
    {
      LooseFound(db, file, pool, h);
    }
  }

  lemma FetchableIsFound(tx: Tx, base: TxMap, file: TxFile, pool: map<Hash, Tx>, loose: bool)
    requires Fetchable(tx, base, file, pool, loose) && !tx.IsCoinBase()
    ensures AllFound(tx, base, file, pool, loose)
  {
    forall i | 0 <= i < |tx.vin|
      ensures FetchOne(base, file, pool, loose, tx.vin[i].prevout.hash).Some?
    {
      assert FetchableAt(tx, base, file, pool, loose, i);
    }
  }

  /** FetchInputs' first loop. */
  method FetchAll(tx: Tx, db: TxMap, testPool: TxMap, file: TxFile, pool: map<Hash, Tx>, fBlock: bool, fMiner: bool)
    returns (ok: bool, inputs: PrevMap)
    ensures ok ==> inputs.Keys == PrevHashes(tx)
    ensures var loose := !(fBlock || fMiner);
            && (forall h | h in inputs ::
                  FetchOne(Base(db, testPool, loose), file, pool, loose, h) == Some(inputs[h]))
            && (ok <==> AllFound(tx, Base(db, testPool, loose), file, pool, loose))
  {
    inputs := map[];
    ghost var loose := !(fBlock || fMiner);
    ghost var base := Base(db, testPool, loose);
    hide FetchOne, Base;
    for i := 0 to |tx.vin|
      invariant inputs.Keys == HashesUpTo(tx, i)
      invariant forall h | h in inputs :: FetchOne(base, file, pool, loose, h) == Some(inputs[h])
      invariant forall j | 0 <= j < i :: tx.vin[j].prevout.hash in inputs
    {
      HashesUpToStep(tx, i);
      var h := tx.vin[i].prevout.hash;
      if h !in inputs {
        var r := FetchPrev(h, db, testPool, file, pool, fBlock, fMiner);
        if r.None? {
          return false, inputs;
        }
        inputs := inputs[h := r.value];
      }
    }
    ok := true;
  }

  /** FetchInputs' second loop. */
  method IndexesValid(tx: Tx, inputs: PrevMap) returns (ok: bool)
    requires inputs.Keys == PrevHashes(tx)
    ensures ok == forall i | 0 <= i < |tx.vin| :: InRange(inputs[tx.vin[i].prevout.hash], tx.vin[i].prevout.n)
  {
    for i := 0 to |tx.vin|
      invariant forall j | 0 <= j < i :: InRange(inputs[tx.vin[j].prevout.hash], tx.vin[j].prevout.n)
    {
      var prevout := tx.vin[i].prevout;
      assert prevout.hash in HashesUpTo(tx, |tx.vin|);
      if prevout.n >= |inputs[prevout.hash].tx.vout| || prevout.n >= |inputs[prevout.hash].index.spent| {
        assert !InRange(inputs[tx.vin[i].prevout.hash], tx.vin[i].prevout.n);
        return false;
      }
    }
    ok := true;
  }

  /** What FetchInputs leaves for ConnectInputs. */
  predicate Fetched(tx: Tx, inputs: PrevMap) {
    !tx.IsCoinBase() ==>
      && inputs.Keys == PrevHashes(tx)
      && forall i | 0 <= i < |tx.vin| :: InRange(inputs[tx.vin[i].prevout.hash], tx.vin[i].prevout.n)
  }

  function InputValue(inputs: PrevMap, o: OutPoint): int {
    if o.hash in inputs && o.n < |inputs[o.hash].tx.vout| then inputs[o.hash].tx.vout[o.n].value else 0
  }

  function ValueInUpTo(inputs: PrevMap, outs: seq<OutPoint>, n: nat): int
    requires n <= |outs|
  {
    if n == 0 then 0 else ValueInUpTo(inputs, outs, n - 1) + InputValue(inputs, outs[n - 1])
  }

  /** CTransaction::GetValueIn. */
  function ValueIn(inputs: PrevMap, outs: seq<OutPoint>): int {
    ValueInUpTo(inputs, outs, |outs|)
  }

  function IndexOf(inputs: PrevMap): TxMap {
    map h | h in inputs :: inputs[h].index
  }

  /** One of the last nCoinbaseMaturity blocks holds the transaction at pos. */
  predicate Immature(pos: DiskPos, recent: seq<BlockPos>) {
    pos.At? && exists i | 0 <= i < |recent| :: recent[i] == BlockPos(pos.file, pos.blockPos)
  }

  /** The inexpensive checks of ConnectInputs on one input. */
  predicate Plausible(tx: Tx, inputs: PrevMap, recent: seq<BlockPos>, i: nat) {
    && i < |tx.vin|
    && var o := tx.vin[i].prevout;
    && o.hash in inputs && InRange(inputs[o.hash], o.n)
    && ((inputs[o.hash].tx.IsCoinBase() || inputs[o.hash].tx.IsCoinStake()) ==>
          !Immature(inputs[o.hash].index.pos, recent))
    && inputs[o.hash].tx.time <= tx.time
    && MoneyRange(inputs[o.hash].tx.vout[o.n].value)
    && MoneyRange(ValueInUpTo(inputs, Prevouts(tx.vin), i + 1))
  }

  /** The checks of the second loop on one input. sigOk[i] is what VerifySignature answers for
      input i; it is empty while signatures are not checked (a block below the last hardened
      checkpoint). */
  predicate Unused(im: TxMap, outs: seq<OutPoint>, sigOk: seq<bool>, i: nat) {
    i < |outs| && Unspent(im, outs[i]) && (i < |sigOk| ==> sigOk[i])
  }

  /** Everything ConnectInputs demands. */
  predicate Acceptable(tx: Tx, inputs: PrevMap, recent: seq<BlockPos>, sigOk: seq<bool>)
  {
    tx.IsCoinBase() ||
    (&& (forall i | 0 <= i < |tx.vin| :: Plausible(tx, inputs, recent, i))
     && (forall i | 0 <= i < |tx.vin| :: Unused(IndexOf(inputs), Prevouts(tx.vin), sigOk, i))
     && Distinct(Prevouts(tx.vin))
     && (!tx.IsCoinStake() ==> PaysFee(tx, ValueIn(inputs, Prevouts(tx.vin)))))
  }

  predicate PaysFee(tx: Tx, valueIn: int) {
    valueIn - ValueOut(tx.vout) >= MIN_TX_FEE && MoneyRange(valueIn - ValueOut(tx.vout))
  }

  lemma DistinctStep<T>(s: seq<T>, i: nat)
    requires i < |s|
    ensures Distinct(s[..i + 1]) <==> Distinct(s[..i]) && s[i] !in s[..i]
  {
    var t := s[..i + 1];
    if Distinct(t) {
      forall a | 0 <= a < i
        ensures s[..i][a] != s[i]
      {
        assert t[a] != t[i];
      }
      forall a, b | 0 <= a < b < |s[..i]|
        ensures s[..i][a] != s[..i][b]
      {
        assert t[a] != t[b];
      }
    }
    if Distinct(s[..i]) && s[i] !in s[..i] {
      forall a, b | 0 <= a < b < |t|
        ensures t[a] != t[b]
      {
        if b < i {
          assert s[..i][a] != s[..i][b];
        } else {
          assert s[a] == s[..i][a];
        }
      }
    }
  }

  /** An output named twice is already marked when its turn comes. */
  lemma {:induction false} UnspentAfterMarking(im: TxMap, outs: seq<OutPoint>, i: nat, pos: DiskPos)
    requires i < |outs| && pos != Null
    ensures Unspent(SetSpentUpTo(im, outs, i, pos), outs[i]) <==> Unspent(im, outs[i]) && outs[i] !in outs[..i]
    ensures HasOutput(SetSpentUpTo(im, outs, i, pos), outs[i]) == HasOutput(im, outs[i])
  {
    var o := outs[i];
    if o.hash in im {
      SetSpentUpToAt(im, outs, i, pos, o.hash);
      assert OutPoint(o.hash, o.n) == o;
    }
  }

  /** The first loop of ConnectInputs. */
  method CheckInputs(tx: Tx, inputs: PrevMap, recent: seq<BlockPos>) returns (ok: bool, nValueIn: int)
    requires Fetched(tx, inputs) && !tx.IsCoinBase()
    ensures ok == forall i | 0 <= i < |tx.vin| :: Plausible(tx, inputs, recent, i)
    ensures ok ==> nValueIn == ValueIn(inputs, Prevouts(tx.vin))
  {
    ghost var outs := Prevouts(tx.vin);
    nValueIn := 0;
    for i := 0 to |tx.vin|
      invariant forall j | 0 <= j < i :: Plausible(tx, inputs, recent, j)
      invariant nValueIn == ValueInUpTo(inputs, outs, i)
    {
      var o := tx.vin[i].prevout;
      assert o.hash in HashesUpTo(tx, |tx.vin|);
      var prev := inputs[o.hash];
      assert InRange(prev, o.n);
      if (prev.tx.IsCoinBase() || prev.tx.IsCoinStake()) && Immature(prev.index.pos, recent) {
        assert !Plausible(tx, inputs, recent, i);
        return false, nValueIn;
      }
      if prev.tx.time > tx.time {
        assert !Plausible(tx, inputs, recent, i);
        return false, nValueIn;
      }
      nValueIn := nValueIn + prev.tx.vout[o.n].value;
      if !MoneyRange(prev.tx.vout[o.n].value) || !MoneyRange(nValueIn) {
        assert !Plausible(tx, inputs, recent, i);
        return false, nValueIn;
      }
    }
    ok := true;
  }

  /** The records of m for the listed transactions. */
  function Restrict(m: TxMap, hs: set<Hash>): TxMap {
    map h | h in m && h in hs :: m[h]
  }

  lemma RestrictAll(m: TxMap, hs: set<Hash>)
    requires m.Keys <= hs
    ensures Restrict(m, hs) == m
  {
  }

  lemma WriteOne(pool: TxMap, m: TxMap, hs: set<Hash>, h: Hash, e: TxIndex)
    ensures pool + Restrict(m[h := e], hs + {h}) == (pool + Restrict(m, hs))[h := e]
  {
  }

  /** One turn of ConnectInputs' second loop: refuse a spent output or a bad signature, otherwise
      mark the output and write the record back. */
  method SpendOne(o: OutPoint, index0: TxMap, testPool0: TxMap, pos: DiskPos, sigOk: bool, write: bool)
    returns (ok: bool, index: TxMap, testPool: TxMap)
    requires HasOutput(index0, o)
    ensures ok == (Unspent(index0, o) && sigOk)
    ensures ok ==> index == SetSpent(index0, o, pos)
    ensures ok ==> testPool == if write then testPool0[o.hash := index[o.hash]] else testPool0
  {
    index, testPool := index0, testPool0;
    if index[o.hash].spent[o.n] != Null || !sigOk {
      return false, index, testPool;
    }
    index := index[o.hash := index[o.hash].(spent := index[o.hash].spent[o.n := pos])];
    if write {
      testPool := testPool[o.hash := index[o.hash]];
    }
    ok := true;
  }

  /** The first n outputs pass the second loop, each checked with the earlier ones marked. */
  predicate UsableUpTo(im: TxMap, outs: seq<OutPoint>, sigOk: seq<bool>, pos: DiskPos, n: nat)
    requires n <= |outs|
  {
    n == 0 ||
    (&& UsableUpTo(im, outs, sigOk, pos, n - 1)
     && Unspent(SetSpentUpTo(im, outs, n - 1, pos), outs[n - 1])
     && (n - 1 < |sigOk| ==> sigOk[n - 1]))
  }

  lemma {:induction false} UsableDown(im: TxMap, outs: seq<OutPoint>, sigOk: seq<bool>, pos: DiskPos, i: nat, n: nat)
    requires i <= n <= |outs| && UsableUpTo(im, outs, sigOk, pos, n)
    ensures UsableUpTo(im, outs, sigOk, pos, i)
  {
    if i < n {
      UsableDown(im, outs, sigOk, pos, i, n - 1);
    }
  }

  /** Marking as it goes, the loop accepts exactly distinct outputs that were all unspent. */
  lemma {:induction false} UsableMeans(im: TxMap, outs: seq<OutPoint>, sigOk: seq<bool>, pos: DiskPos, n: nat)
    requires n <= |outs| && pos != Null
    ensures UsableUpTo(im, outs, sigOk, pos, n)
       <==> Distinct(outs[..n]) && forall i | 0 <= i < n :: Unused(im, outs, sigOk, i)
  {
    if n > 0 {
      UsableMeans(im, outs, sigOk, pos, n - 1);
      UnspentAfterMarking(im, outs, n - 1, pos);
      DistinctStep(outs, n - 1);
      assert UsableUpTo(im, outs, sigOk, pos, n) <==>
             UsableUpTo(im, outs, sigOk, pos, n - 1) && outs[n - 1] !in outs[..n - 1] && Unused(im, outs, sigOk, n - 1);
      assert (forall i | 0 <= i < n :: Unused(im, outs, sigOk, i)) <==>
             (forall i | 0 <= i < n - 1 :: Unused(im, outs, sigOk, i)) && Unused(im, outs, sigOk, n - 1);
    }
  }

  /** One turn of the loop. */
  lemma UsableStep(im: TxMap, outs: seq<OutPoint>, sigOk: seq<bool>, pos: DiskPos, i: nat)
    requires i < |outs|
    ensures UsableUpTo(im, outs, sigOk, pos, 0) && SetSpentUpTo(im, outs, 0, pos) == im
    ensures SetSpentUpTo(im, outs, i + 1, pos) == SetSpent(SetSpentUpTo(im, outs, i, pos), outs[i], pos)
    ensures UsableUpTo(im, outs, sigOk, pos, i + 1) <==>
            && UsableUpTo(im, outs, sigOk, pos, i)
            && Unspent(SetSpentUpTo(im, outs, i, pos), outs[i]) && (i < |sigOk| ==> sigOk[i])
  {
  }

  lemma {:induction false} SpendStart(tx: Tx, inputs: PrevMap, testPool: TxMap, sigOk: seq<bool>, pos: DiskPos)
    requires Fetched(tx, inputs) && !tx.IsCoinBase()
    ensures var im, outs := IndexOf(inputs), Prevouts(tx.vin);
            && UsableUpTo(im, outs, sigOk, pos, 0) && SetSpentUpTo(im, outs, 0, pos) == im
            && SetAllSpent(im, outs, pos) == SetSpentUpTo(im, outs, |outs|, pos)
            && testPool + Restrict(im, HashesUpTo(tx, 0)) == testPool && im.Keys == HashesUpTo(tx, |tx.vin|)
  {
    NoHashes(tx);
    assert Restrict(IndexOf(inputs), {}) == map[];
  }

  lemma FetchedOutput(tx: Tx, inputs: PrevMap, i: nat)
    requires Fetched(tx, inputs) && !tx.IsCoinBase() && i < |tx.vin|
    ensures HasOutput(IndexOf(inputs), tx.vin[i].prevout)
  {
    NamedHash(tx, i);
    assert InRange(inputs[tx.vin[i].prevout.hash], tx.vin[i].prevout.n);
  }

  /** The second loop of ConnectInputs. `index` holds the records of `inputs`, which the source
      marks in its own copy of the map. */
  method SpendInputs(tx: Tx, inputs: PrevMap, testPool0: TxMap, pos: DiskPos, sigOk: seq<bool>, write: bool)
    returns (ok: bool, testPool: TxMap)
    requires Fetched(tx, inputs) && !tx.IsCoinBase() && pos != Null
    ensures ok == UsableUpTo(IndexOf(inputs), Prevouts(tx.vin), sigOk, pos, |tx.vin|)
    ensures ok ==> testPool == if write then testPool0 + SetAllSpent(IndexOf(inputs), Prevouts(tx.vin), pos)
                               else testPool0
  {
    hide HashesUpTo, Distinct, UsableUpTo, SetSpentUpTo, SetAllSpent, Fetched, IndexOf, Restrict, Unspent, HasOutput, Prevouts;
    var index := IndexOf(inputs);
    ghost var im, outs := index, Prevouts(tx.vin);
    SpendStart(tx, inputs, testPool0, sigOk, pos);
    testPool := testPool0;
    for i := 0 to |tx.vin|
      invariant index == SetSpentUpTo(im, outs, i, pos)
      invariant UsableUpTo(im, outs, sigOk, pos, i)
      invariant testPool == if write then testPool0 + Restrict(index, HashesUpTo(tx, i)) else testPool0
    {
      var o := tx.vin[i].prevout;
      FetchedOutput(tx, inputs, i);
      UnspentAfterMarking(im, outs, i, pos);
      UsableStep(im, outs, sigOk, pos, i);
      HashesUpToStep(tx, i);
      WriteOne(testPool0, index, HashesUpTo(tx, i), o.hash, SetSpent(index, o, pos)[o.hash]);
      ok, index, testPool := SpendOne(o, index, testPool, pos, i < |sigOk| ==> sigOk[i], write);
      if !ok {
        if UsableUpTo(im, outs, sigOk, pos, |tx.vin|) {
          UsableDown(im, outs, sigOk, pos, i + 1, |tx.vin|);
        }
        return;
      }
    }
    RestrictAll(index, HashesUpTo(tx, |tx.vin|));
    ok := true;
  }

  method ConnectInputs(tx: Tx, inputs: PrevMap, testPool0: TxMap, pos: DiskPos, recent: seq<BlockPos>,
                       sigOk: seq<bool>, fBlock: bool, fMiner: bool)
    returns (ok: bool, testPool: TxMap)
    requires Fetched(tx, inputs) && pos != Null
    ensures ok == Acceptable(tx, inputs, recent, sigOk)
    ensures ok ==> testPool == if (fBlock || fMiner) && !tx.IsCoinBase()
                               then testPool0 + SetAllSpent(IndexOf(inputs), Spends(tx), pos)
                               else testPool0
  {
    hide Plausible, Unused, UsableUpTo, SetAllSpent, IndexOf, ValueIn, ValueOut, Distinct, PrevHashes;
    testPool := testPool0;
    if tx.IsCoinBase() {
      return true, testPool;
    }
    var nValueIn;
    ok, nValueIn := CheckInputs(tx, inputs, recent);
    if !ok {
      return;
    }
    UsableMeans(IndexOf(inputs), Prevouts(tx.vin), sigOk, pos, |tx.vin|);
    assert Prevouts(tx.vin)[..|tx.vin|] == Prevouts(tx.vin);
    ok, testPool := SpendInputs(tx, inputs, testPool0, pos, sigOk, fBlock || fMiner);
    if !ok {
      return;
    }
    if !tx.IsCoinStake() {
      if nValueIn < ValueOut(tx.vout) {
        return false, testPool;
      }
      var fee := nValueIn - ValueOut(tx.vout);
      if fee < MIN_TX_FEE {
        return false, testPool;
      }
      if !MoneyRange(fee) {
        return false, testPool;
      }
    }
    ok := true;
  }

  // ----- what the two methods do to the index seen through the proposed changes

  /** What passes ConnectInputs is spendable in the index the inputs were fetched from. */
  lemma AcceptableIsSpendable(base: TxMap, file: TxFile, pool: map<Hash, Tx>, tx: Tx, inputs: PrevMap,
                              recent: seq<BlockPos>, sigOk: seq<bool>)
    requires !tx.IsCoinBase() && Acceptable(tx, inputs, recent, sigOk)
    requires forall h | h in inputs :: FetchOne(base, file, pool, false, h) == Some(inputs[h])
    ensures Spendable(base, tx)
  {
    forall o | o in Spends(tx)
      ensures Unspent(base, o)
    {
      var i :| 0 <= i < |tx.vin| && Prevouts(tx.vin)[i] == o;
      assert Unused(IndexOf(inputs), Prevouts(tx.vin), sigOk, i);
      assert FetchOne(base, file, pool, false, o.hash) == Some(inputs[o.hash]);
    }
  }

  lemma OverlaySetSpent(base: TxMap, a: TxMap, o: OutPoint, pos: DiskPos)
    requires o.hash in a
    ensures base + SetSpent(a, o, pos) == SetSpent(base + a, o, pos)
  {
  }

  lemma {:induction false} MarkThroughOverlay(base: TxMap, im: TxMap, outs: seq<OutPoint>, n: nat, pos: DiskPos)
    requires n <= |outs|
    requires forall h | h in im :: h in base && base[h] == im[h]
    requires forall o | o in outs :: o.hash in im
    ensures base + SetSpentUpTo(im, outs, n, pos) == SetSpentUpTo(base, outs, n, pos)
  {
    if n > 0 {
      MarkThroughOverlay(base, im, outs, n - 1, pos);
      assert outs[n - 1] in outs;
      OverlaySetSpent(base, SetSpentUpTo(im, outs, n - 1, pos), outs[n - 1], pos);
    }
  }

  /** Fetch and connect together: the spent outputs are marked in the index, through the proposed
      changes and nowhere else. */
  lemma ConnectedView(db: TxMap, pool0: TxMap, file: TxFile, pool: map<Hash, Tx>, tx: Tx, inputs: PrevMap, pos: DiskPos)
    requires !tx.IsCoinBase() && inputs.Keys == PrevHashes(tx)
    requires forall h | h in inputs :: FetchOne(db + pool0, file, pool, false, h) == Some(inputs[h])
    ensures db + (pool0 + SetAllSpent(IndexOf(inputs), Spends(tx), pos))
         == SetAllSpent(db + pool0, Spends(tx), pos)
  {
    var base := db + pool0;
    var im := IndexOf(inputs);
    forall o | o in Spends(tx)
      ensures o.hash in im
    {
      var i :| 0 <= i < |tx.vin| && Prevouts(tx.vin)[i] == o;
      assert tx.vin[i].prevout.hash in HashesUpTo(tx, |tx.vin|);
    }
    forall h | h in im
      ensures h in base && base[h] == im[h]
    {
      assert FetchOne(base, file, pool, false, h) == Some(inputs[h]);
    }
    MarkThroughOverlay(base, im, Spends(tx), |Spends(tx)|, pos);
    OverlayAssociates(db, pool0, SetAllSpent(im, Spends(tx), pos));
  }

  lemma OverlayAssociates(a: TxMap, b: TxMap, c: TxMap)
    ensures a + (b + c) == (a + b) + c
  {
  }
}
