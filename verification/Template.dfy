/** CreateNewBlock (src/miner.cpp): the order in which pooled transactions are tried and placed
    into a block template. */
module Template {
  import opened Basics
  import opened Ledger
  import opened Inputs
  import opened Provenance
  import MemPool

  // ----- dependencies inside the pool

  /** What CreateNewBlock reads: the chain, the pool, and the answers of code that is not modelled
      (finality, signatures, signature-operation counts, the floating-point priority and fee rate). */
  datatype Env = Env(db: TxMap, file: TxFile, pool: map<Hash, Tx>, recent: seq<BlockPos>,
                     final: Hash -> bool, sigOk: Hash -> seq<bool>, legacyOps: Hash -> nat, p2shOps: (Hash, PrevMap) -> nat,
                     priority: Hash -> real, feePerKb: Hash -> real,
                     now: nat, proofOfStake: bool, coinbaseTime: nat)

  /** CTransaction::ReadFromDisk on the output's transaction succeeds. */
  predicate OnDisk(e: Env, o: OutPoint) {
    o.hash in e.db && e.db[o.hash].pos in e.file && o.n < |e.file[e.db[o.hash].pos].vout|
  }

  function DepsUpTo(e: Env, tx: Tx, n: nat): set<Hash>
    requires n <= |tx.vin|
  {
    set i | 0 <= i < n && !OnDisk(e, tx.vin[i].prevout) :: tx.vin[i].prevout.hash
  }

  lemma DepsStep(e: Env, tx: Tx, n: nat)
    requires n < |tx.vin|
    ensures DepsUpTo(e, tx, n + 1) ==
            DepsUpTo(e, tx, n) + if OnDisk(e, tx.vin[n].prevout) then {} else {tx.vin[n].prevout.hash}
  {
  }

  /** The pooled transactions h has to wait for. */
  function Deps(e: Env, h: Hash): set<Hash> {
    if h in e.pool then DepsUpTo(e, e.pool[h], |e.pool[h].vin|) else {}
  }

  /** Neither in the chain nor in the pool. */
  predicate Missing(e: Env, o: OutPoint) {
    !OnDisk(e, o) && o.hash !in e.pool
  }

  predicate MissesUpTo(e: Env, tx: Tx, n: nat)
    requires n <= |tx.vin|
  {
    exists i | 0 <= i < n :: Missing(e, tx.vin[i].prevout)
  }

  /** A transaction that is tried: not reserved to blocks, final, and with no input missing. */
  predicate Candidate(e: Env, h: Hash) {
    && h in e.pool && !e.pool[h].IsCoinBase() && !e.pool[h].IsCoinStake() && e.final(h)
    && !MissesUpTo(e, e.pool[h], |e.pool[h].vin|)
  }

  /** Said of the chain, the files and the pool: a transaction is tried if each input is an output of a
      readable transaction of the chain or names a pooled transaction, and waits for the pooled ones. */
  lemma CandidatesAre(e: Env, h: Hash, p: Hash)
    ensures Candidate(e, h) <==>
            && h in e.pool && !e.pool[h].IsCoinBase() && !e.pool[h].IsCoinStake() && e.final(h)
            && forall i | 0 <= i < |e.pool[h].vin| ::
                 var o := e.pool[h].vin[i].prevout;
                 o.hash in e.pool || (o.hash in e.db && e.db[o.hash].pos in e.file && o.n < |e.file[e.db[o.hash].pos].vout|)
    ensures p in Deps(e, h) <==>
            && h in e.pool
            && exists i | 0 <= i < |e.pool[h].vin| ::
                 var o := e.pool[h].vin[i].prevout;
                 o.hash == p && !(o.hash in e.db && e.db[o.hash].pos in e.file && o.n < |e.file[e.db[o.hash].pos].vout|)
  {
  }

  /** A transaction whose first missing input comes after a dependency in the pool makes
      CreateNewBlock drop an entry it has already listed as a depender, and follow a dangling pointer
      later; there is no such transaction. */
  predicate NoDanglingAt(e: Env, tx: Tx, i: nat)
    requires i < |tx.vin|
  {
    Missing(e, tx.vin[i].prevout) && !MissesUpTo(e, tx, i) ==> DepsUpTo(e, tx, i) == {}
  }

  predicate NoDangling(e: Env, tx: Tx) {
    forall i: nat | i < |tx.vin| :: NoDanglingAt(e, tx, i)
  }

  /** The pool beside a chain of the given height: ids are ids, in the pool and on file, and every
      transaction has an input. */
  ghost predicate SoundPool(e: Env, height: nat) {
    && (forall h | h in e.pool :: e.pool[h].id == h && e.pool[h].vin != [] && NoDangling(e, e.pool[h]))
    && GoodIndex(e.db, e.file, height) && CollisionFree(e.file)
    && (forall p | p in e.file && e.file[p].id in e.pool :: e.file[p] == e.pool[e.file[p].id])
  }

  /** An input that is not in the chain is a dependency. */
  lemma ParentIsDep(e: Env, h: Hash, i: nat)
    requires h in e.pool && i < |e.pool[h].vin| && !OnDisk(e, e.pool[h].vin[i].prevout)
    ensures e.pool[h].vin[i].prevout.hash in Deps(e, h)
  {
  }

  /** A pooled transaction that is in the chain already finds its inputs spent there. */
  lemma IndexedIsSpent(e: Env, height: nat, h: Hash)
    requires SoundPool(e, height) && Candidate(e, h) && h in e.db
    ensures Spends(e.pool[h]) != [] && Spent(e.db, Spends(e.pool[h])[0])
  {
    hide NoDangling;
    assert GoodEntry(e.db, e.file, height, h);
    var p := e.db[h].pos;
    assert e.file[p] == e.pool[h];
    assert Spends(e.pool[h])[0] in Spends(e.pool[h]);
  }

  // ----- gathering

  type Waiting = map<Hash, set<Hash>>
  type Dependers = map<Hash, seq<Hash>>

  function DependersOf(m: Dependers, p: Hash): seq<Hash> {
    if p in m then m[p] else []
  }

  /** The queue and the two dependency tables after the transactions of `seen` have been read. */
  ghost predicate Gathered(e: Env, seen: seq<Hash>, heap: seq<Hash>, waiting: Waiting, dependers: Dependers) {
    && Distinct(heap)
    && (forall h :: h in heap <==> h in seen && Candidate(e, h) && Deps(e, h) == {})
    && (forall h :: h in waiting <==> h in seen && Candidate(e, h) && Deps(e, h) != {})
    && (forall h | h in waiting :: waiting[h] == Deps(e, h))
    && (forall p, h :: h in DependersOf(dependers, p) <==> h in seen && Candidate(e, h) && p in Deps(e, h))
  }

  method Gather(e: Env, order: seq<Hash>) returns (heap: seq<Hash>, waiting: Waiting, dependers: Dependers)
    requires Distinct(order) && forall h | h in order :: h in e.pool && NoDangling(e, e.pool[h])
    ensures Gathered(e, order, heap, waiting, dependers)
  {
    hide Deps, MissesUpTo, NoDangling;
    heap, waiting, dependers := [], map[], map[];
    assert Gathered(e, order[..0], heap, waiting, dependers);
    hide Gathered, DependersOf;
    for k := 0 to |order|
      invariant Gathered(e, order[..k], heap, waiting, dependers)
    {
      var h := order[k];
      NewToPrefix(order, k);
      assert order[..k + 1] == order[..k] + [h];
      assert h in order;
      var tx := e.pool[h];
      if tx.IsCoinBase() || tx.IsCoinStake() || !e.final(h) {
        GatherNone(e, order[..k], h, heap, waiting, dependers);
        continue;
      }
      var missing, deps, dependers' := Depend(e, h, dependers);
      if missing {
        GatherNone(e, order[..k], h, heap, waiting, dependers);
      } else {
        GatherOne(e, order[..k], h, heap, waiting, dependers, dependers');
        if deps != {} {
          waiting := waiting[h := deps];
        } else {
          heap := heap + [h];
        }
      }
      dependers := dependers';
    }
    assert order[..|order|] == order;
  }

  /** One more candidate: into the queue, or among those that wait. */
  lemma GatherOne(e: Env, seen: seq<Hash>, h: Hash, heap: seq<Hash>, waiting: Waiting, was: Dependers, now: Dependers)
    requires Gathered(e, seen, heap, waiting, was) && h !in seen && Candidate(e, h)
    requires forall p, d :: d in DependersOf(now, p) <==> d in DependersOf(was, p) || (d == h && p in Deps(e, h))
    ensures Gathered(e, seen + [h], if Deps(e, h) == {} then heap + [h] else heap,
                     if Deps(e, h) == {} then waiting else waiting[h := Deps(e, h)], now)
  {
    hide Candidate, Deps, DependersOf;
    DistinctAppend(heap, [h]);
  }

  lemma GatherNone(e: Env, seen: seq<Hash>, h: Hash, heap: seq<Hash>, waiting: Waiting, dependers: Dependers)
    requires Gathered(e, seen, heap, waiting, dependers) && !Candidate(e, h)
    ensures Gathered(e, seen + [h], heap, waiting, dependers)
  {
    hide Candidate, Deps, DependersOf;
  }

  lemma NewToPrefix(s: seq<Hash>, k: nat)
    requires Distinct(s) && k < |s|
    ensures s[k] !in s[..k]
  {
  }

  /** The loop over a transaction's inputs. It stops at a missing one, and the transaction is then
      not tried. */
  method Depend(e: Env, h: Hash, dependers0: Dependers) returns (missing: bool, deps: set<Hash>, dependers: Dependers)
    requires h in e.pool && NoDangling(e, e.pool[h])
    ensures missing == MissesUpTo(e, e.pool[h], |e.pool[h].vin|)
    ensures missing ==> dependers == dependers0
    ensures !missing ==> deps == Deps(e, h)
    ensures !missing ==> forall p, d :: d in DependersOf(dependers, p) <==>
              d in DependersOf(dependers0, p) || (d == h && p in Deps(e, h))
  {
    var tx := e.pool[h];
    missing, deps, dependers := false, {}, dependers0;
    for i := 0 to |tx.vin|
      invariant deps == DepsUpTo(e, tx, i) && !MissesUpTo(e, tx, i)
      invariant deps == {} ==> dependers == dependers0
      invariant forall p, d :: d in DependersOf(dependers, p) <==>
                  d in DependersOf(dependers0, p) || (d == h && p in deps)
    {
      DepsStep(e, tx, i);
      var o := tx.vin[i].prevout;
      if !OnDisk(e, o) {
        if o.hash !in e.pool {
          assert NoDanglingAt(e, tx, i);
          return true, deps, dependers;
        }
        ghost var was := dependers;
        dependers := dependers[o.hash := DependersOf(dependers, o.hash) + [h]];
        deps := deps + {o.hash};
        assert forall p :: DependersOf(dependers, p) ==
                 if p == o.hash then DependersOf(was, p) + [h] else DependersOf(was, p);
      }
    }
  }

  // ----- the schedule

  predicate Ready(e: Env, placed: set<Hash>, h: Hash) {
    Candidate(e, h) && Deps(e, h) <= placed
  }

  /** Everything ready is queued or has been tried, once; everything else still waits for exactly
      the parents that are not placed. */
  ghost predicate Scheduled(e: Env, heap: seq<Hash>, waiting: Waiting, placed: set<Hash>, tried: set<Hash>) {
    && Distinct(heap)
    && (forall h :: h in heap <==> Ready(e, placed, h) && h !in tried)
    && (forall h | h in tried :: Ready(e, placed, h))
    && placed <= tried
    && Waits(e, waiting, placed)
  }

  ghost predicate Waits(e: Env, waiting: Waiting, placed: set<Hash>) {
    && (forall h :: h in waiting <==> Candidate(e, h) && Deps(e, h) != {})
    && (forall h | h in waiting :: waiting[h] == Deps(e, h) - placed)
  }

  lemma StartSchedule(e: Env, order: seq<Hash>, heap: seq<Hash>, waiting: Waiting, dependers: Dependers)
    requires Gathered(e, order, heap, waiting, dependers) && forall h | h in e.pool :: h in order
    ensures Scheduled(e, heap, waiting, {}, {})
  {
    hide Deps;
    assert forall h | Candidate(e, h) :: h in order;
    assert forall h | h in waiting :: Deps(e, h) - {} == Deps(e, h);
  }

  predicate Listed(dependers: seq<Hash>, waiting: Waiting, h: Hash) {
    forall d | d in dependers :: d in waiting && (waiting[d] == {} || h in waiting[d])
  }

  /** What the dependers listed so far wait for once h is placed. */
  predicate Released(ds: seq<Hash>, h: Hash, was: Waiting, now: Waiting) {
    && now.Keys == was.Keys
    && forall d | d in was :: now[d] == if d in ds then was[d] - {h} else was[d]
  }

  ghost predicate Woken(ds: seq<Hash>, h: Hash, was: Waiting, extra: seq<Hash>) {
    && Distinct(extra)
    && forall d :: d in extra <==> d in ds && d in was && was[d] == {h}
  }

  /** The loop over the dependers of a transaction just placed. One that spends it twice is listed
      twice, and released once. */
  method Release(h: Hash, ds: seq<Hash>, heap0: seq<Hash>, waiting0: Waiting)
    returns (heap: seq<Hash>, waiting: Waiting, ghost extra: seq<Hash>)
    requires Listed(ds, waiting0, h)
    ensures heap == heap0 + extra && Released(ds, h, waiting0, waiting) && Woken(ds, h, waiting0, extra)
  {
    heap, waiting, extra := heap0, waiting0, [];
    for i := 0 to |ds|
      invariant heap == heap0 + extra
      invariant Released(ds[..i], h, waiting0, waiting) && Woken(ds[..i], h, waiting0, extra)
    {
      var d := ds[i];
      assert ds[..i + 1] == ds[..i] + [d];
      assert d in ds;
      if waiting[d] != {} {
        waiting := waiting[d := waiting[d] - {h}];
        if waiting[d] == {} {
          heap := heap + [d];
          extra := extra + [d];
        }
      }
    }
    assert ds[..|ds|] == ds;
  }

  /** Placing h and releasing its dependers keeps the schedule. */
  lemma PlaceKeepsWaits(e: Env, waiting: Waiting, placed: set<Hash>, h: Hash, ds: seq<Hash>, waiting': Waiting)
    requires Waits(e, waiting, placed) && Released(ds, h, waiting, waiting')
    requires forall d :: d in ds <==> Candidate(e, d) && h in Deps(e, d)
    ensures Waits(e, waiting', placed + {h})
  {
    hide Candidate, Deps;
    forall d | d in waiting'
      ensures waiting'[d] == Deps(e, d) - (placed + {h})
    {
      assert Deps(e, d) - (placed + {h}) == (Deps(e, d) - placed) - {h};
    }
  }

  lemma NewlyReady(e: Env, waiting: Waiting, placed: set<Hash>, h: Hash, ds: seq<Hash>, d: Hash)
    requires Waits(e, waiting, placed) && h !in placed
    requires forall x :: x in ds <==> Candidate(e, x) && h in Deps(e, x)
    ensures Ready(e, placed + {h}, d) <==> Ready(e, placed, d) || (d in ds && d in waiting && waiting[d] == {h})
    ensures Ready(e, placed, d) ==> !(d in waiting && waiting[d] == {h})
  {
    hide Candidate, Deps;
    if Ready(e, placed + {h}, d) && !Ready(e, placed, d) {
      assert h in Deps(e, d);
      assert waiting[d] == Deps(e, d) - placed;
      assert waiting[d] == {h};
    }
  }

  lemma PlaceKeepsSchedule(e: Env, heap: seq<Hash>, waiting: Waiting, placed: set<Hash>, tried: set<Hash>, h: Hash,
                           ds: seq<Hash>, extra: seq<Hash>, waiting': Waiting)
    requires Scheduled(e, heap, waiting, placed, tried) && h in tried && h !in placed
    requires forall d :: d in ds <==> Candidate(e, d) && h in Deps(e, d)
    requires Released(ds, h, waiting, waiting') && Woken(ds, h, waiting, extra)
    ensures Scheduled(e, heap + extra, waiting', placed + {h}, tried)
  {
    hide Candidate, Deps, Ready;
    PlaceKeepsWaits(e, waiting, placed, h, ds, waiting');
    hide Released, Waits;
    forall d
      ensures d in heap + extra <==> Ready(e, placed + {h}, d) && d !in tried
      ensures d in tried ==> Ready(e, placed + {h}, d)
      ensures d in heap ==> d !in extra
    {
      NewlyReady(e, waiting, placed, h, ds, d);
    }
    DistinctAppend(heap, extra);
  }

  // ----- the priority queue

  /** TxPriorityCompare. */
  predicate Less(e: Env, byFee: bool, a: Hash, b: Hash) {
    if byFee then
      if e.feePerKb(a) == e.feePerKb(b) then e.priority(a) < e.priority(b) else e.feePerKb(a) < e.feePerKb(b)
    else
      if e.priority(a) == e.priority(b) then e.feePerKb(a) < e.feePerKb(b) else e.priority(a) < e.priority(b)
  }

  /** Taking the front of the heap: nothing left in the queue comes before it. */
  method PopBest(e: Env, byFee: bool, heap: seq<Hash>) returns (h: Hash, rest: seq<Hash>)
    requires heap != [] && Distinct(heap)
    ensures h in heap && Distinct(rest)
    ensures forall g :: g in rest <==> g in heap && g != h
    ensures forall g | g in rest ::
              if byFee then e.feePerKb(g) < e.feePerKb(h) || (e.feePerKb(g) == e.feePerKb(h) && e.priority(g) <= e.priority(h))
              else e.priority(g) < e.priority(h) || (e.priority(g) == e.priority(h) && e.feePerKb(g) <= e.feePerKb(h))
  {
    var best := 0;
    for i := 1 to |heap|
      invariant 0 <= best < i && forall j | 0 <= j < i :: !Less(e, byFee, heap[best], heap[j])
    {
      if Less(e, byFee, heap[best], heap[i]) {
        best := i;
      }
    }
    h := heap[best];
    rest := heap[..best] + heap[best + 1..];
  }

  lemma PopKeepsSchedule(e: Env, heap: seq<Hash>, waiting: Waiting, placed: set<Hash>, tried: set<Hash>, h: Hash,
                         rest: seq<Hash>)
    requires Scheduled(e, heap, waiting, placed, tried) && h in heap && Distinct(rest)
    requires forall g :: g in rest <==> g in heap && g != h
    ensures Scheduled(e, rest, waiting, placed, tried + {h})
    ensures h !in tried && Candidate(e, h) && Deps(e, h) <= placed
  {
    hide Candidate, Deps, Waits;
  }

  // ----- the block under construction

  /** The index after the first n transactions. */
  function View(db: TxMap, txs: seq<Tx>, n: nat): TxMap
    requires n <= |txs|
  {
    if n == 0 then db else ApplyTx(View(db, txs, n - 1), txs[n - 1], POOL_POS)
  }

  /** Each of the first n transactions spends distinct outputs, unspent when its turn comes. */
  predicate ConnectsUpTo(db: TxMap, txs: seq<Tx>, n: nat)
    requires n <= |txs|
  {
    n == 0 || (ConnectsUpTo(db, txs, n - 1) && Spendable(View(db, txs, n - 1), txs[n - 1]))
  }

  function AllSpends(txs: seq<Tx>, n: nat): seq<OutPoint>
    requires n <= |txs|
  {
    if n == 0 then [] else AllSpends(txs, n - 1) + Spends(txs[n - 1])
  }

  function IdSet(txs: seq<Tx>, n: nat): set<Hash>
    requires n <= |txs|
  {
    if n == 0 then {} else IdSet(txs, n - 1) + {txs[n - 1].id}
  }

  /** No id is used twice or already in the index. */
  predicate NewIds(db: TxMap, txs: seq<Tx>, n: nat)
    requires n <= |txs|
  {
    n == 0 || (NewIds(db, txs, n - 1) && txs[n - 1].id !in IdSet(txs, n - 1) && txs[n - 1].id !in db)
  }

  lemma {:induction false} ViewKeys(db: TxMap, txs: seq<Tx>, n: nat)
    requires n <= |txs|
    ensures View(db, txs, n).Keys == db.Keys + IdSet(txs, n)
  {
    if n > 0 {
      ViewKeys(db, txs, n - 1);
    }
  }

  lemma ApplySpends(m: TxMap, tx: Tx, o: OutPoint)
    requires tx.id !in m && (Spent(m, o) || (o in Spends(tx) && Unspent(m, o)))
    ensures Spent(ApplyTx(m, tx, POOL_POS), o)
  {
    SetAllSpentAt(m, Spends(tx), POOL_POS, o.hash);
    assert OutPoint(o.hash, o.n) == o;
  }

  lemma {:induction false} SpentStaysSpent(db: TxMap, txs: seq<Tx>, n: nat, o: OutPoint)
    requires n <= |txs| && NewIds(db, txs, n) && ConnectsUpTo(db, txs, n) && o in AllSpends(txs, n)
    ensures Spent(View(db, txs, n), o)
  {
    hide ApplyTx, Unspent;
    if n > 0 {
      var tx := txs[n - 1];
      ViewKeys(db, txs, n - 1);
      if o in AllSpends(txs, n - 1) {
        SpentStaysSpent(db, txs, n - 1, o);
      } else {
        assert o in Spends(tx);
      }
      ApplySpends(View(db, txs, n - 1), tx, o);
    }
  }

  /** What the chain has spent stays spent. */
  lemma {:induction false} ChainSpentStays(db: TxMap, txs: seq<Tx>, n: nat, o: OutPoint)
    requires n <= |txs| && NewIds(db, txs, n) && Spent(db, o)
    ensures Spent(View(db, txs, n), o)
  {
    hide ApplyTx, Unspent, Spent;
    if n > 0 {
      ViewKeys(db, txs, n - 1);
      ChainSpentStays(db, txs, n - 1, o);
      ApplySpends(View(db, txs, n - 1), txs[n - 1], o);
    }
  }

  /** No outpoint is spent twice in the template. */
  lemma {:induction false} NothingSpentTwice(db: TxMap, txs: seq<Tx>, n: nat)
    requires n <= |txs| && NewIds(db, txs, n) && ConnectsUpTo(db, txs, n)
    ensures Distinct(AllSpends(txs, n))
  {
    hide ApplyTx, HasOutput;
    if n > 0 {
      var a, b := AllSpends(txs, n - 1), Spends(txs[n - 1]);
      NothingSpentTwice(db, txs, n - 1);
      forall o | o in a
        ensures o !in b
      {
        SpentStaysSpent(db, txs, n - 1, o);
      }
      DistinctAppend(a, b);
    }
  }

  // ----- one transaction

  const MAX_BLOCK_SIZE := 1_000_000
  const MAX_BLOCK_SIGOPS := 20_000

  /** The block size options after their limits have been applied. */
  datatype Limits = Limits(maxSize: nat, prioritySize: nat, minSize: nat, minTxFee: int)

  function Clamp(maxSize: nat, prioritySize: nat, minSize: nat, minTxFee: int): (l: Limits)
    ensures l.maxSize == if maxSize < 1000 then 1000 else if maxSize <= 999_000 then maxSize else 999_000
    ensures l.prioritySize <= l.maxSize && (prioritySize <= l.maxSize ==> l.prioritySize == prioritySize)
    ensures l.minSize <= l.maxSize && (minSize <= l.maxSize ==> l.minSize == minSize)
    ensures l.minTxFee == minTxFee
  {
    var most := if MAX_BLOCK_SIZE - 1000 < maxSize then MAX_BLOCK_SIZE - 1000 else maxSize;
    var m := if most < 1000 then 1000 else most;
    Limits(m, if m < prioritySize then m else prioritySize, if m < minSize then m else minSize, minTxFee)
  }

  datatype Work = Work(txs: seq<Tx>, testPool: TxMap, size: nat, ops: nat, fees: int, byFee: bool)

  function FeeOf(e: Env, view: TxMap, tx: Tx): int {
    ValueIn(FetchedMap(tx, view, e.file, e.pool, false), Prevouts(tx.vin)) - ValueOut(tx.vout)
  }

  function TotalSize(txs: seq<Tx>, n: nat): nat
    requires n <= |txs|
  {
    if n == 0 then 0 else TotalSize(txs, n - 1) + txs[n - 1].size
  }

  function TotalFees(e: Env, txs: seq<Tx>, n: nat): int
    requires n <= |txs|
  {
    if n == 0 then 0 else TotalFees(e, txs, n - 1) + FeeOf(e, View(e.db, txs, n - 1), txs[n - 1])
  }

  /** The signature operations of the first n transactions. */
  function TotalOps(e: Env, txs: seq<Tx>, n: nat): nat
    requires n <= |txs|
  {
    if n == 0 then 0 else TotalOps(e, txs, n - 1) + OpsOf(e, View(e.db, txs, n - 1), txs[n - 1])
  }

  function OpsOf(e: Env, view: TxMap, tx: Tx): nat {
    e.legacyOps(tx.id) + e.p2shOps(tx.id, FetchedMap(tx, view, e.file, e.pool, false))
  }

  /** The tests that come before the inputs are read. */
  predicate Worthwhile(e: Env, lim: Limits, w: Work, h: Hash)
    requires h in e.pool
  {
    var tx := e.pool[h];
    && w.size + tx.size < lim.maxSize
    && w.ops + e.legacyOps(h) < MAX_BLOCK_SIGOPS
    && tx.time <= e.now && (e.proofOfStake ==> tx.time <= e.coinbaseTime)
    && !(w.byFee && e.feePerKb(h) < lim.minTxFee as real && w.size + tx.size >= lim.minSize)
  }

  /** The queue is ordered by fee once past the priority size or out of high priorities. */
  predicate Switches(e: Env, lim: Limits, w: Work, h: Hash)
    requires h in e.pool
  {
    w.byFee || w.size + e.pool[h].size >= lim.prioritySize || e.priority(h) < (COIN * 144 / 250) as real
  }

  /** All tests a transaction has to pass to be placed. */
  predicate Placeable(e: Env, lim: Limits, w: Work, h: Hash)
    requires h in e.pool
  {
    var tx, view := e.pool[h], e.db + w.testPool;
    var inputs := FetchedMap(tx, view, e.file, e.pool, false);
    && Worthwhile(e, lim, w, h)
    && Fetchable(tx, view, e.file, e.pool, false)
    && FeeOf(e, view, tx) >= MemPool.GetMinFee(w.size, 0)
    && w.ops + e.legacyOps(h) + e.p2shOps(h, inputs) < MAX_BLOCK_SIGOPS
    && Acceptable(tx, inputs, e.recent, e.sigOk(h))
  }

  /** The body of the selection loop after a transaction has been taken from the queue. */
  method TryPlace(e: Env, lim: Limits, w: Work, h: Hash) returns (ok: bool, r: Work)
    requires h in e.pool && !e.pool[h].IsCoinBase() && e.pool[h].id == h
    ensures ok <==> Placeable(e, lim, w, h)
    ensures var tx, view := e.pool[h], e.db + w.testPool;
            ok <==> && w.size + tx.size < lim.maxSize
                    && w.ops + OpsOf(e, view, tx) < 20_000
                    && tx.time <= e.now && (e.proofOfStake ==> tx.time <= e.coinbaseTime)
                    && (w.byFee ==> e.feePerKb(h) >= lim.minTxFee as real || w.size + tx.size < lim.minSize)
                    && FeeOf(e, view, tx) >= MemPool.GetMinFee(w.size, 0)
                    && Accepts(e, view, tx)
    ensures r.byFee <==> (|| w.byFee
                          || (&& Worthwhile(e, lim, w, h)
                              && (w.size + e.pool[h].size >= lim.prioritySize || e.priority(h) < 57_600_000.0)))
    ensures !ok ==> r == w.(byFee := r.byFee)
    ensures ok ==> r.txs == w.txs + [e.pool[h]]
    ensures ok ==> r.size == w.size + e.pool[h].size
    ensures ok ==> r.fees == w.fees + FeeOf(e, e.db + w.testPool, e.pool[h])
    ensures ok ==> r.ops == w.ops + OpsOf(e, e.db + w.testPool, e.pool[h]) < MAX_BLOCK_SIGOPS
    ensures ok ==> Spendable(e.db + w.testPool, e.pool[h])
                   && e.db + r.testPool == ApplyTx(e.db + w.testPool, e.pool[h], POOL_POS)
  {
    hide Acceptable, Fetchable, FetchedMap, ValueIn, FetchOne, SetAllSpent, Spendable, PrevHashes, MemPool.GetMinFee;
    hide Fetched, IndexOf;
    var tx := e.pool[h];
    r := w;
    if !Worthwhile(e, lim, w, h) {
      return false, r;
    }
    r := r.(byFee := Switches(e, lim, w, h));
    var nMinFee := MemPool.GetMinFee(w.size, 0);
    ghost var view := e.db + w.testPool;
    var fetched, inputs, invalid := FetchInputs(tx, e.db, w.testPool, e.file, e.pool, false, true);
    if !fetched {
      return false, r;
    }
    FetchedMapIs(tx, view, e.file, e.pool, false, inputs);
    var nTxFees := ValueIn(inputs, Prevouts(tx.vin)) - ValueOut(tx.vout);
    if nTxFees < nMinFee {
      return false, r;
    }
    var nTxSigOps := e.legacyOps(h) + e.p2shOps(h, inputs);
    if w.ops + nTxSigOps >= MAX_BLOCK_SIGOPS {
      return false, r;
    }
    var connected, tmp := ConnectInputs(tx, inputs, w.testPool, POOL_POS, e.recent, e.sigOk(h), false, true);
    if !connected {
      return false, r;
    }
    AcceptableIsSpendable(view, e.file, e.pool, tx, inputs, e.recent, e.sigOk(h));
    ConnectedView(e.db, w.testPool, e.file, e.pool, tx, inputs, POOL_POS);
    PlaceRecord(e.db, tmp, tx);
    tmp := tmp[tx.id := NewTxIndex(POOL_POS, |tx.vout|)];
    r := Work(w.txs + [tx], tmp, w.size + tx.size, w.ops + nTxSigOps, w.fees + nTxFees, r.byFee);
    ok := true;
  }

  lemma PlaceRecord(db: TxMap, tmp: TxMap, tx: Tx)
    ensures db + tmp[tx.id := NewTxIndex(POOL_POS, |tx.vout|)] == (db + tmp)[tx.id := NewTxIndex(POOL_POS, |tx.vout|)]
  {
  }

  // ----- the whole template

  /** Transaction k comes from the pool, after everything it waits for, and can be connected. */
  predicate PlacedAt(e: Env, txs: seq<Tx>, k: nat)
    requires k < |txs|
  {
    && Candidate(e, txs[k].id) && txs[k] == e.pool[txs[k].id]
    && Deps(e, txs[k].id) <= IdSet(txs, k)
    && Accepts(e, View(e.db, txs, k), txs[k])
    && txs[k].time <= e.now && (e.proofOfStake ==> txs[k].time <= e.coinbaseTime)
    && FeeOf(e, View(e.db, txs, k), txs[k]) >= MemPool.GetMinFee(1000 + TotalSize(txs, k), 0)
  }

  /** tx finds its inputs in the index `view`, and may spend them. */
  predicate Accepts(e: Env, view: TxMap, tx: Tx) {
    && Fetchable(tx, view, e.file, e.pool, false)
    && Acceptable(tx, FetchedMap(tx, view, e.file, e.pool, false), e.recent, e.sigOk(tx.id))
  }

  ghost predicate WorkOk(e: Env, lim: Limits, w: Work) {
    var n := |w.txs|;
    && e.db + w.testPool == View(e.db, w.txs, n)
    && ConnectsUpTo(e.db, w.txs, n) && NewIds(e.db, w.txs, n)
    && (forall k: nat | k < n :: PlacedAt(e, w.txs, k))
    && w.size == 1000 + TotalSize(w.txs, n) && w.size <= lim.maxSize
    && w.fees == TotalFees(e, w.txs, n)
    && w.ops == 100 + TotalOps(e, w.txs, n) && w.ops < MAX_BLOCK_SIGOPS
  }

  lemma {:induction false} PrefixView(e: Env, txs: seq<Tx>, tx: Tx, n: nat)
    requires n <= |txs|
    ensures View(e.db, txs + [tx], n) == View(e.db, txs, n)
    ensures IdSet(txs + [tx], n) == IdSet(txs, n)
    ensures TotalSize(txs + [tx], n) == TotalSize(txs, n)
  {
    hide ApplyTx;
    if n > 0 {
      PrefixView(e, txs, tx, n - 1);
    }
  }

  lemma {:induction false} PrefixConnects(e: Env, txs: seq<Tx>, tx: Tx, n: nat)
    requires n <= |txs|
    ensures ConnectsUpTo(e.db, txs + [tx], n) == ConnectsUpTo(e.db, txs, n)
    ensures NewIds(e.db, txs + [tx], n) == NewIds(e.db, txs, n)
    ensures TotalFees(e, txs + [tx], n) == TotalFees(e, txs, n) && TotalOps(e, txs + [tx], n) == TotalOps(e, txs, n)
  {
    hide Spendable, FeeOf, OpsOf, View, IdSet;
    if n > 0 {
      PrefixConnects(e, txs, tx, n - 1);
      PrefixView(e, txs, tx, n - 1);
    }
  }

  lemma PrefixPlaced(e: Env, txs: seq<Tx>, tx: Tx, k: nat)
    requires k < |txs| && PlacedAt(e, txs, k)
    ensures PlacedAt(e, txs + [tx], k)
  {
    hide Candidate, Deps, Accepts, FeeOf, MemPool.GetMinFee;
    PrefixView(e, txs, tx, k);
  }

  lemma WorkStep(e: Env, lim: Limits, w: Work, h: Hash, r: Work)
    requires WorkOk(e, lim, w) && Candidate(e, h) && e.pool[h].id == h && h !in e.db
    requires Deps(e, h) <= IdSet(w.txs, |w.txs|) && h !in IdSet(w.txs, |w.txs|)
    requires r.txs == w.txs + [e.pool[h]] && r.size == w.size + e.pool[h].size <= lim.maxSize
    requires r.fees == w.fees + FeeOf(e, e.db + w.testPool, e.pool[h])
    requires r.ops == w.ops + OpsOf(e, e.db + w.testPool, e.pool[h]) < MAX_BLOCK_SIGOPS
    requires e.pool[h].time <= e.now && (e.proofOfStake ==> e.pool[h].time <= e.coinbaseTime)
    requires FeeOf(e, e.db + w.testPool, e.pool[h]) >= MemPool.GetMinFee(w.size, 0)
    requires Spendable(e.db + w.testPool, e.pool[h]) && Accepts(e, e.db + w.testPool, e.pool[h])
    requires e.db + r.testPool == ApplyTx(e.db + w.testPool, e.pool[h], POOL_POS)
    ensures WorkOk(e, lim, r)
    ensures IdSet(r.txs, |r.txs|) == IdSet(w.txs, |w.txs|) + {h}
  {
    hide Deps, Spendable, ApplyTx, FeeOf, PlacedAt, OnDisk, MissesUpTo, Accepts, View, ConnectsUpTo, NewIds, TotalSize, TotalFees, IdSet;
    hide OpsOf, TotalOps, MemPool.GetMinFee;
    var n, tx := |w.txs|, e.pool[h];
    LastStep(e, w.txs, tx);
    forall k: nat | k < n + 1
      ensures PlacedAt(e, r.txs, k)
    {
      if k < n {
        PrefixPlaced(e, w.txs, tx, k);
      } else {
        LastPlaced(e, w.txs, h);
      }
    }
  }

  lemma {:induction false} LastPlaced(e: Env, txs: seq<Tx>, h: Hash)
    requires Candidate(e, h) && e.pool[h].id == h && Deps(e, h) <= IdSet(txs, |txs|)
    requires Accepts(e, View(e.db, txs, |txs|), e.pool[h])
    requires e.pool[h].time <= e.now && (e.proofOfStake ==> e.pool[h].time <= e.coinbaseTime)
    requires FeeOf(e, View(e.db, txs, |txs|), e.pool[h]) >= MemPool.GetMinFee(1000 + TotalSize(txs, |txs|), 0)
    ensures PlacedAt(e, txs + [e.pool[h]], |txs|)
  {
    assert h in e.pool;
    hide Deps, Candidate, Accepts, FeeOf, MemPool.GetMinFee;
    PrefixView(e, txs, e.pool[h], |txs|);
  }

  /** What one more transaction does to the sums and the tests. */
  lemma {:induction false} LastStep(e: Env, txs: seq<Tx>, tx: Tx)
    ensures var n, all := |txs|, txs + [tx];
            && View(e.db, all, n + 1) == ApplyTx(View(e.db, txs, n), tx, POOL_POS)
            && IdSet(all, n + 1) == IdSet(txs, n) + {tx.id}
            && TotalSize(all, n + 1) == TotalSize(txs, n) + tx.size
            && TotalFees(e, all, n + 1) == TotalFees(e, txs, n) + FeeOf(e, View(e.db, txs, n), tx)
            && TotalOps(e, all, n + 1) == TotalOps(e, txs, n) + OpsOf(e, View(e.db, txs, n), tx)
            && (ConnectsUpTo(e.db, all, n + 1) <==> ConnectsUpTo(e.db, txs, n) && Spendable(View(e.db, txs, n), tx))
            && (NewIds(e.db, all, n + 1) <==> NewIds(e.db, txs, n) && tx.id !in IdSet(txs, n) && tx.id !in e.db)
  {
    hide ApplyTx, FeeOf, OpsOf, Spendable;
    PrefixView(e, txs, tx, |txs|);
    PrefixConnects(e, txs, tx, |txs|);
    assert (txs + [tx])[|txs|] == tx;
  }

  /** Every candidate was tried if and only if everything it waits for was placed. */
  ghost predicate AllConsidered(e: Env, txs: seq<Tx>, tried: set<Hash>) {
    forall h :: h in tried <==> Ready(e, IdSet(txs, |txs|), h)
  }

  /** The transactions of a new block after its coinbase, their fees, and which candidates were
      tried. The sizes and the fee are the node's options, order is the order of the pool's map. */
  method CreateNewBlock(e: Env, maxSize: nat, prioritySize: nat, minSize: nat, minTxFee: int, order: seq<Hash>,
                        ghost height: nat)
    returns (txs: seq<Tx>, fees: int, ghost tried: set<Hash>)
    requires SoundPool(e, height)
    requires Distinct(order) && forall h :: h in order <==> h in e.pool
    ensures forall k: nat | k < |txs| :: PlacedAt(e, txs, k)
    ensures NewIds(e.db, txs, |txs|) && ConnectsUpTo(e.db, txs, |txs|)
    ensures Distinct(AllSpends(txs, |txs|))
    ensures 1000 + TotalSize(txs, |txs|) <= if maxSize < 1000 then 1000 else if maxSize <= 999_000 then maxSize else 999_000
    ensures 100 + TotalOps(e, txs, |txs|) < 20_000
    ensures fees == TotalFees(e, txs, |txs|)
    ensures AllConsidered(e, txs, tried)
  {
    hide Gathered, Scheduled, WorkOk, SoundPool, Placeable, Deps, NoDangling, MissesUpTo, Accepts;
    var lim := Clamp(maxSize, prioritySize, minSize, minTxFee);
    PoolIds(e, height);
    var heap, waiting, dependers := Gather(e, order);
    StartSchedule(e, order, heap, waiting, dependers);
    DependersKnown(e, order, heap, waiting, dependers);
    var w := Work([], map[], 1000, 100, 0, lim.prioritySize <= 0);
    tried := {};
    StartWork(e, lim, w);
    while heap != []
      invariant Scheduled(e, heap, waiting, IdSet(w.txs, |w.txs|), tried) && WorkOk(e, lim, w)
      decreases e.pool.Keys - tried
    {
      ghost var placed := IdSet(w.txs, |w.txs|);
      HeapDistinct(e, heap, waiting, placed, tried);
      var h, rest := PopBest(e, w.byFee, heap);
      PopKeepsSchedule(e, heap, waiting, placed, tried, h, rest);
      assert h in e.pool.Keys - tried;
      NotPlacedYet(e, heap, waiting, placed, tried, h);
      heap, tried := rest, tried + {h};
      var ok, r := TryPlace(e, lim, w, h);
      if ok {
        PlaceableParts(e, lim, w, h);
        NotIndexed(e, height, lim, w, h);
        WorkStep(e, lim, w, h, r);
        var ds := DependersOf(dependers, h);
        ghost var was := waiting;
        ghost var extra;
        DependersListed(e, heap, waiting, placed, tried, h, ds);
        heap, waiting, extra := Release(h, ds, heap, waiting);
        PlaceKeepsSchedule(e, rest, was, placed, tried, h, ds, extra, waiting);
      } else {
        SwitchKeepsWork(e, lim, w, r);
      }
      w := r;
    }
    txs, fees := w.txs, w.fees;
    Conclude(e, lim, w, waiting, tried);
  }

  lemma DependersKnown(e: Env, order: seq<Hash>, heap: seq<Hash>, waiting: Waiting, dependers: Dependers)
    requires Gathered(e, order, heap, waiting, dependers) && forall h :: h in order <==> h in e.pool
    ensures forall p, d :: d in DependersOf(dependers, p) <==> Candidate(e, d) && p in Deps(e, d)
  {
    hide Deps;
  }

  lemma StartWork(e: Env, lim: Limits, w: Work)
    requires w == Work([], map[], 1000, 100, 0, w.byFee) && lim.maxSize >= 1000
    ensures WorkOk(e, lim, w) && IdSet(w.txs, |w.txs|) == {}
  {
    assert e.db + map[] == e.db;
  }

  lemma HeapDistinct(e: Env, heap: seq<Hash>, waiting: Waiting, placed: set<Hash>, tried: set<Hash>)
    requires Scheduled(e, heap, waiting, placed, tried)
    ensures Distinct(heap)
  {
  }

  lemma NotPlacedYet(e: Env, heap: seq<Hash>, waiting: Waiting, placed: set<Hash>, tried: set<Hash>, h: Hash)
    requires Scheduled(e, heap, waiting, placed, tried) && h in heap
    ensures h !in placed
  {
  }

  lemma PlaceableParts(e: Env, lim: Limits, w: Work, h: Hash)
    requires h in e.pool && e.pool[h].id == h && Placeable(e, lim, w, h)
    ensures w.size + e.pool[h].size <= lim.maxSize && Accepts(e, e.db + w.testPool, e.pool[h])
    ensures e.pool[h].time <= e.now && (e.proofOfStake ==> e.pool[h].time <= e.coinbaseTime)
    ensures FeeOf(e, e.db + w.testPool, e.pool[h]) >= MemPool.GetMinFee(w.size, 0)
  {
  }

  lemma PoolIds(e: Env, height: nat)
    requires SoundPool(e, height)
    ensures forall h | h in e.pool :: e.pool[h].id == h && NoDangling(e, e.pool[h])
  {
  }

  /** A transaction that is in the chain already is not placed: its inputs are spent. */
  lemma NotIndexed(e: Env, height: nat, lim: Limits, w: Work, h: Hash)
    requires SoundPool(e, height) && Candidate(e, h) && WorkOk(e, lim, w) && Spendable(e.db + w.testPool, e.pool[h])
    ensures h !in e.db
  {
    hide SoundPool, MissesUpTo, PlacedAt, View, ConnectsUpTo;
    if h in e.db {
      IndexedIsSpent(e, height, h);
      ChainSpentStays(e.db, w.txs, |w.txs|, Spends(e.pool[h])[0]);
      SpentNotSpendable(e.db + w.testPool, e.pool[h]);
    }
  }

  lemma SpentNotSpendable(m: TxMap, tx: Tx)
    requires Spends(tx) != [] && Spent(m, Spends(tx)[0])
    ensures !Spendable(m, tx)
  {
    assert Spends(tx)[0] in Spends(tx);
  }

  lemma SwitchKeepsWork(e: Env, lim: Limits, w: Work, r: Work)
    requires WorkOk(e, lim, w) && r == w.(byFee := r.byFee)
    ensures WorkOk(e, lim, r)
  {
  }

  lemma DependersListed(e: Env, heap: seq<Hash>, waiting: Waiting, placed: set<Hash>, tried: set<Hash>, h: Hash, ds: seq<Hash>)
    requires Scheduled(e, heap, waiting, placed, tried) && h !in placed
    requires forall d :: d in ds <==> Candidate(e, d) && h in Deps(e, d)
    ensures Listed(ds, waiting, h)
  {
    hide Deps, Candidate, Ready;
  }

  lemma {:induction false} Conclude(e: Env, lim: Limits, w: Work, waiting: Waiting, tried: set<Hash>)
    requires WorkOk(e, lim, w) && Scheduled(e, [], waiting, IdSet(w.txs, |w.txs|), tried)
    ensures forall k: nat | k < |w.txs| :: PlacedAt(e, w.txs, k)
    ensures NewIds(e.db, w.txs, |w.txs|) && ConnectsUpTo(e.db, w.txs, |w.txs|)
    ensures Distinct(AllSpends(w.txs, |w.txs|))
    ensures 1000 + TotalSize(w.txs, |w.txs|) <= lim.maxSize && w.fees == TotalFees(e, w.txs, |w.txs|)
    ensures 100 + TotalOps(e, w.txs, |w.txs|) < MAX_BLOCK_SIGOPS
    ensures AllConsidered(e, w.txs, tried)
  {
    hide Deps, Candidate, PlacedAt, Waits;
    NothingSpentTwice(e.db, w.txs, |w.txs|);
    forall h
      ensures h in tried <==> Ready(e, IdSet(w.txs, |w.txs|), h)
    {
      assert h !in [];
    }
  }

  lemma {:induction false} IdSetHas(txs: seq<Tx>, n: nat, h: Hash) returns (j: nat)
    requires n <= |txs| && h in IdSet(txs, n)
    ensures j < n && txs[j].id == h
  {
    if txs[n - 1].id == h {
      j := n - 1;
    } else {
      j := IdSetHas(txs, n - 1, h);
    }
  }

  /** In a template every parent of a transaction that is not in the chain stands before it. */
  lemma ParentsFirst(e: Env, txs: seq<Tx>, k: nat, i: nat) returns (j: nat)
    requires k < |txs| && PlacedAt(e, txs, k)
    requires i < |txs[k].vin| && !OnDisk(e, txs[k].vin[i].prevout)
    ensures j < k && txs[j].id == txs[k].vin[i].prevout.hash
  {
    hide Accepts;
    ParentIsDep(e, txs[k].id, i);
    j := IdSetHas(txs, k, txs[k].vin[i].prevout.hash);
  }
}
