/** CTxMemPool and AcceptToMemoryPool (src/main.cpp, src/main.h). */
module MemPool {
  import opened Basics
  import opened Arithmetic
  import opened Ledger
  import opened Inputs

  /** CInPoint: the pooled transaction and the input of it that spends. */
  datatype InPoint = InPoint(tx: Hash, n: nat)

  type TxPool = map<Hash, Tx>
  type NextMap = map<OutPoint, InPoint>

  // ----- the spend index

  /** Input n of pooled transaction h spends o. */
  predicate SpendsAt(m: TxPool, h: Hash, n: nat, o: OutPoint) {
    h in m && n < |m[h].vin| && m[h].vin[n].prevout == o
  }

  predicate Named(m: TxPool) {
    forall h | h in m :: m[h].id == h
  }

  /** mapNextTx is exactly the inverse of the pooled inputs. */
  predicate Inverse(m: TxPool, next: NextMap) {
    && (forall h, i | h in m && 0 <= i < |m[h].vin| ::
          m[h].vin[i].prevout in next && next[m[h].vin[i].prevout] == InPoint(h, i))
    && (forall o | o in next :: SpendsAt(m, next[o].tx, next[o].n, o))
  }

  /** So no outpoint is spent twice, within a transaction or across the pool. */
  lemma NoDoubleSpend(m: TxPool, next: NextMap, h: Hash, i: nat, h': Hash, i': nat, o: OutPoint)
    requires Inverse(m, next) && SpendsAt(m, h, i, o) && SpendsAt(m, h', i', o)
    ensures h == h' && i == i'
  {
    assert next[o] == InPoint(h, i) && next[o] == InPoint(h', i');
  }

  // ----- descendants

  /** c spends output n of p. */
  predicate Via(m: TxPool, p: Hash, n: nat, c: Hash) {
    p in m && n < |m[p].vout| && exists i | c in m && 0 <= i < |m[c].vin| :: m[c].vin[i].prevout == OutPoint(p, n)
  }

  predicate Child(m: TxPool, p: Hash, c: Hash) {
    p in m && exists n | 0 <= n < |m[p].vout| :: Via(m, p, n, c)
  }

  /** A chain of in-pool spends. */
  predicate Lineage(m: TxPool, path: seq<Hash>) {
    && path != [] && path[0] in m
    && forall k | 0 <= k < |path| - 1 :: Child(m, path[k], path[k + 1])
  }

  ghost predicate Descends(m: TxPool, a: Hash, h: Hash) {
    exists path :: Lineage(m, path) && path[0] == a && path[|path| - 1] == h
  }

  ghost predicate DescendsFromAny(m: TxPool, roots: set<Hash>, h: Hash) {
    exists a :: a in roots && Descends(m, a, h)
  }

  /** The pool without the roots and everything that descends from them. */
  ghost function Without(m: TxPool, roots: set<Hash>): TxPool {
    map h | h in m && !DescendsFromAny(m, roots, h) :: m[h]
  }

  /** Spending is acyclic: a transaction's id is a hash over the ids it spends, so ids can be
      ranked with every spender above what it spends. */
  ghost predicate Ranked(m: TxPool, rank: Hash -> nat) {
    forall h, i | h in m && 0 <= i < |m[h].vin| :: rank(m[h].vin[i].prevout.hash) < rank(h)
  }

  lemma ChildRank(m: TxPool, rank: Hash -> nat, p: Hash, c: Hash)
    requires Ranked(m, rank) && Child(m, p, c)
    ensures c in m && rank(p) < rank(c)
  {
    var n :| 0 <= n < |m[p].vout| && Via(m, p, n, c);
    var i :| 0 <= i < |m[c].vin| && m[c].vin[i].prevout == OutPoint(p, n);
    assert rank(m[c].vin[i].prevout.hash) < rank(c);
  }

  lemma {:induction false} LineageRank(m: TxPool, rank: Hash -> nat, path: seq<Hash>, k: nat)
    requires Ranked(m, rank) && Lineage(m, path) && k < |path|
    ensures path[k] in m && rank(path[0]) + k <= rank(path[k])
  {
    if k > 0 {
      LineageRank(m, rank, path, k - 1);
      assert Child(m, path[k - 1], path[k - 1 + 1]);
      ChildRank(m, rank, path[k - 1], path[k]);
    }
  }

  lemma DescendsRank(m: TxPool, rank: Hash -> nat, a: Hash, h: Hash)
    requires Ranked(m, rank) && Descends(m, a, h)
    ensures a in m && h in m && (a == h || rank(a) < rank(h))
  {
    var path :| Lineage(m, path) && path[0] == a && path[|path| - 1] == h;
    LineageRank(m, rank, path, |path| - 1);
  }

  lemma DescendsSelf(m: TxPool, a: Hash)
    requires a in m
    ensures Descends(m, a, a)
  {
    assert Lineage(m, [a]);
  }

  /** A path continued by a path. */
  lemma DescendsTransitive(m: TxPool, a: Hash, b: Hash, c: Hash)
    requires Descends(m, a, b) && Descends(m, b, c)
    ensures Descends(m, a, c)
  {
    var p :| Lineage(m, p) && p[0] == a && p[|p| - 1] == b;
    var q :| Lineage(m, q) && q[0] == b && q[|q| - 1] == c;
    var r := p + q[1..];
    forall k | 0 <= k < |r| - 1
      ensures Child(m, r[k], r[k + 1])
    {
      if k < |p| - 1 {
        assert Child(m, p[k], p[k + 1]);
      } else {
        var j := k - (|p| - 1);
        assert Child(m, q[j], q[j + 1]);
      }
    }
    assert Lineage(m, r);
    assert r[|r| - 1] == c;
  }

  lemma DescendsChild(m: TxPool, p: Hash, c: Hash)
    requires Child(m, p, c)
    ensures Descends(m, p, c)
  {
    assert Lineage(m, [p, c]);
  }

  /** A proper descendant descends from a child. */
  lemma DescendsThroughChild(m: TxPool, a: Hash, h: Hash) returns (c: Hash)
    requires Descends(m, a, h) && a != h
    ensures Child(m, a, c) && Descends(m, c, h)
  {
    var p :| Lineage(m, p) && p[0] == a && p[|p| - 1] == h;
    c := p[1];
    assert Child(m, p[0], p[0 + 1]);
    var q := p[1..];
    forall k | 0 <= k < |q| - 1
      ensures Child(m, q[k], q[k + 1])
    {
      assert Child(m, p[k + 1], p[k + 1 + 1]);
    }
    var n :| 0 <= n < |m[a].vout| && Via(m, a, n, c);
    assert Lineage(m, q);
  }

  // ----- removing one family after another

  predicate SubPool(s: TxPool, m: TxPool) {
    forall h | h in s :: h in m && s[h] == m[h]
  }

  lemma ChildIn(s: TxPool, m: TxPool, p: Hash, c: Hash)
    requires SubPool(s, m) && p in s && c in s
    ensures Child(s, p, c) <==> Child(m, p, c)
  {
    if Child(m, p, c) {
      var n :| 0 <= n < |m[p].vout| && Via(m, p, n, c);
      assert Via(s, p, n, c);
    }
    if Child(s, p, c) {
      var n :| 0 <= n < |s[p].vout| && Via(s, p, n, c);
      assert Via(m, p, n, c);
    }
  }

  lemma ChildPooled(m: TxPool, p: Hash, c: Hash)
    requires Child(m, p, c)
    ensures p in m && c in m
  {
    var n :| 0 <= n < |m[p].vout| && Via(m, p, n, c);
  }

  lemma {:induction false} LineagePooled(m: TxPool, path: seq<Hash>, k: nat)
    requires Lineage(m, path) && k < |path|
    ensures path[k] in m
  {
    if k > 0 {
      assert Child(m, path[k - 1], path[k - 1 + 1]);
      ChildPooled(m, path[k - 1], path[k]);
    }
  }

  lemma {:induction false} LineageReaches(m: TxPool, path: seq<Hash>, k: nat)
    requires Lineage(m, path) && k < |path|
    ensures Descends(m, path[k], path[|path| - 1])
  {
    var q := path[k..];
    LineagePooled(m, path, k);
    forall j | 0 <= j < |q| - 1
      ensures Child(m, q[j], q[j + 1])
    {
      assert Child(m, path[k + j], path[k + j + 1]);
    }
    assert Lineage(m, q);
  }

  /** In a smaller pool there are no more descendants. */
  lemma DescendsGrows(s: TxPool, m: TxPool, a: Hash, h: Hash)
    requires SubPool(s, m) && Descends(s, a, h)
    ensures Descends(m, a, h)
  {
    var p :| Lineage(s, p) && p[0] == a && p[|p| - 1] == h;
    forall k | 0 <= k < |p| - 1
      ensures Child(m, p[k], p[k + 1])
    {
      assert Child(s, p[k], p[k + 1]);
      ChildPooled(s, p[k], p[k + 1]);
      ChildIn(s, m, p[k], p[k + 1]);
    }
    assert Lineage(m, p);
  }

  /** A family is removed whole, so what is left keeps its own lineages. */
  lemma DescendsSurvives(m: TxPool, roots: set<Hash>, a: Hash, h: Hash)
    requires Descends(m, a, h) && !DescendsFromAny(m, roots, h)
    ensures Descends(Without(m, roots), a, h)
  {
    var s := Without(m, roots);
    var p :| Lineage(m, p) && p[0] == a && p[|p| - 1] == h;
    forall k | 0 <= k < |p|
      ensures p[k] in s
    {
      LineagePooled(m, p, k);
      LineageReaches(m, p, k);
      if DescendsFromAny(m, roots, p[k]) {
        var r :| r in roots && Descends(m, r, p[k]);
        DescendsTransitive(m, r, p[k], h);
      }
    }
    forall k | 0 <= k < |p| - 1
      ensures Child(s, p[k], p[k + 1])
    {
      assert Child(m, p[k], p[k + 1]);
      ChildIn(s, m, p[k], p[k + 1]);
    }
    assert Lineage(s, p);
  }

  /** Removing another family from what is left removes it from the whole. */
  lemma WithoutStep(m: TxPool, roots: set<Hash>, a: Hash)
    ensures Without(Without(m, roots), {a}) == Without(m, roots + {a})
  {
    var s := Without(m, roots);
    forall h | h in s
      ensures DescendsFromAny(s, {a}, h) <==> DescendsFromAny(m, roots + {a}, h)
    {
      assert a in {a} && a in roots + {a};
      if DescendsFromAny(s, {a}, h) {
        assert Descends(s, a, h);
        DescendsGrows(s, m, a, h);
      }
      if DescendsFromAny(m, roots + {a}, h) {
        var r :| r in roots + {a} && Descends(m, r, h);
        assert r == a;
        DescendsSurvives(m, roots, a, h);
      }
    }
    forall h | h in m && h !in s
      ensures DescendsFromAny(m, roots + {a}, h)
    {
      var r :| r in roots && Descends(m, r, h);
      assert r in roots + {a};
    }
  }

  lemma DescendsIn(m: TxPool, a: Hash, h: Hash)
    requires Descends(m, a, h)
    ensures a in m
  {
  }

  lemma WithoutAbsent(m: TxPool, a: Hash)
    requires a !in m
    ensures Without(m, {a}) == m
  {
    forall h | h in m && DescendsFromAny(m, {a}, h)
      ensures false
    {
      DescendsIn(m, a, h);
    }
  }

  lemma WithoutNone(m: TxPool)
    ensures Without(m, {}) == m
  {
  }

  /** The pooled transactions that spend one of the first n outputs of p. */
  ghost function ChildrenUpTo(m: TxPool, p: Hash, n: nat): set<Hash> {
    set c | c in m && exists i | 0 <= i < n :: Via(m, p, i, c)
  }

  /** The spend index finds the child that spends a given output, or knows there is none. */
  lemma NextChild(m: TxPool, next: NextMap, p: Hash, n: nat)
    requires Inverse(m, next) && p in m && n < |m[p].vout|
    ensures var o := OutPoint(p, n);
            ChildrenUpTo(m, p, n + 1) == ChildrenUpTo(m, p, n) + if o in next then {next[o].tx} else {}
    ensures OutPoint(p, n) in next ==> Via(m, p, n, next[OutPoint(p, n)].tx)
  {
    var o := OutPoint(p, n);
    if o in next {
      var c, k := next[o].tx, next[o].n;
      assert SpendsAt(m, c, k, o);
      assert Via(m, p, n, c);
    }
    forall c | Via(m, p, n, c)
      ensures o in next && c == next[o].tx
    {
      var i :| 0 <= i < |m[c].vin| && m[c].vin[i].prevout == o;
      assert m[c].vin[i].prevout in next;
    }
  }

  /** What is left of the spend index agrees with the whole. */
  lemma NextOfSub(s: TxPool, nextS: NextMap, m: TxPool, next: NextMap, o: OutPoint)
    requires SubPool(s, m) && Inverse(s, nextS) && Inverse(m, next)
    ensures o in nextS ==> o in next && next[o] == nextS[o] && nextS[o].tx in s
    ensures o in next && o !in nextS ==> next[o].tx !in s
  {
    if o in nextS {
      var h, i := nextS[o].tx, nextS[o].n;
      assert SpendsAt(s, h, i, o);
      assert m[h].vin[i].prevout in next;
    }
  }

  /** A transaction does not descend from its own children. */
  lemma StaysUntilLast(m: TxPool, rank: Hash -> nat, p: Hash, n: nat)
    requires Ranked(m, rank) && p in m && n <= |m[p].vout|
    ensures p in Without(m, ChildrenUpTo(m, p, n))
  {
    var roots := ChildrenUpTo(m, p, n);
    if DescendsFromAny(m, roots, p) {
      var c :| c in roots && Descends(m, c, p);
      var i :| 0 <= i < n && Via(m, p, i, c);
      ChildRank(m, rank, p, c);
      DescendsRank(m, rank, c, p);
    }
  }

  /** The families of all children, and the transaction itself. */
  lemma WithoutFamily(m: TxPool, p: Hash)
    requires p in m
    ensures Without(m, ChildrenUpTo(m, p, |m[p].vout|)) - {p} == Without(m, {p})
  {
    var roots := ChildrenUpTo(m, p, |m[p].vout|);
    forall h | h in m
      ensures DescendsFromAny(m, {p}, h) <==> h == p || DescendsFromAny(m, roots, h)
    {
      if h == p {
        DescendsSelf(m, p);
        assert p in {p};
      } else {
        if DescendsFromAny(m, {p}, h) {
          var c := DescendsThroughChild(m, p, h);
          ChildPooled(m, p, c);
          var n :| 0 <= n < |m[p].vout| && Via(m, p, n, c);
          assert c in roots;
        }
        if DescendsFromAny(m, roots, h) {
          var c :| c in roots && Descends(m, c, h);
          var n :| 0 <= n < |m[p].vout| && Via(m, p, n, c);
          DescendsChild(m, p, c);
          DescendsTransitive(m, p, c, h);
        }
      }
    }
  }

  /** One turn of the loop in remove, on the pool. */
  lemma FamilyStep(m: TxPool, next: NextMap, p: Hash, n: nat, nextS: NextMap)
    requires Inverse(m, next) && p in m && n < |m[p].vout|
    requires Inverse(Without(m, ChildrenUpTo(m, p, n)), nextS)
    ensures var s := Without(m, ChildrenUpTo(m, p, n));
            var o := OutPoint(p, n);
            && (o in nextS ==> nextS[o].tx in s && Child(m, p, nextS[o].tx))
            && Without(m, ChildrenUpTo(m, p, n + 1)) == if o in nextS then Without(s, {nextS[o].tx}) else s
  {
    hide Inverse, Via, ChildrenUpTo;
    var roots := ChildrenUpTo(m, p, n);
    var s := Without(m, roots);
    var o := OutPoint(p, n);
    NextChild(m, next, p, n);
    NextOfSub(s, nextS, m, next, o);
    if o in next {
      WithoutStep(m, roots, next[o].tx);
      if o !in nextS {
        WithoutAbsent(s, next[o].tx);
      }
    } else {
      assert roots + {} == roots;
    }
  }

  /** Erasing a transaction and its entries keeps the index exact. */
  lemma EraseInverse(m: TxPool, next: NextMap, h: Hash)
    requires Inverse(m, next) && h in m
    ensures Inverse(m - {h}, next - OutPointsOf(m[h]))
  {
    var m', next' := m - {h}, next - OutPointsOf(m[h]);
    forall g, i | g in m' && 0 <= i < |m'[g].vin|
      ensures m'[g].vin[i].prevout in next' && next'[m'[g].vin[i].prevout] == InPoint(g, i)
    {
      var o := m[g].vin[i].prevout;
      assert o in next && next[o] == InPoint(g, i);
    }
    forall o | o in next'
      ensures SpendsAt(m', next'[o].tx, next'[o].n, o)
    {
      assert SpendsAt(m, next[o].tx, next[o].n, o);
    }
  }

  /** The outpoints a transaction names. */
  function OutPointsOf(tx: Tx): set<OutPoint> {
    set i | 0 <= i < |tx.vin| :: tx.vin[i].prevout
  }

  ghost function Above(m: TxPool, rank: Hash -> nat, r: nat): set<Hash> {
    set h | h in m && rank(h) >= r
  }

  lemma AboveShrinks(s: TxPool, m: TxPool, rank: Hash -> nat, p: Hash, c: Hash)
    requires s.Keys <= m.Keys && p in m && rank(p) < rank(c)
    ensures |Above(s, rank, rank(c))| < |Above(m, rank, rank(p))|
  {
    var a, b := Above(s, rank, rank(c)), Above(m, rank, rank(p));
    assert a <= b - {p} && p in b;
    SubsetSize(a, b - {p});
  }

  class Pool {
    var mapTx: TxPool
    var mapNext: NextMap
    ghost const rank: Hash -> nat

    ghost predicate Valid()
      reads this
    {
      Named(mapTx) && Inverse(mapTx, mapNext) && Ranked(mapTx, rank)
    }

    constructor (ghost r: Hash -> nat)
      ensures Valid() && mapTx == map[] && rank == r
    {
      mapTx, mapNext := map[], map[];
      rank := r;
    }

    /** CTxMemPool::remove: exactly the transaction, or it and all its in-pool descendants. */
    method Remove(tx: Tx, fRecursive: bool)
      requires Valid()
      requires tx.id in mapTx ==> mapTx[tx.id] == tx
      modifies this
      ensures Valid()
      ensures mapTx == if fRecursive then Without(old(mapTx), {tx.id}) else old(mapTx) - {tx.id}
      decreases |Above(mapTx, rank, rank(tx.id))|
    {
      hide Inverse, Without, Above, Named, Ranked, Child;
      if tx.id in mapTx {
        ghost var m0, next0 := mapTx, mapNext;
        if fRecursive {
          RemoveChildren(tx);
        }
        EraseOne(tx);
        if fRecursive {
          WithoutFamily(m0, tx.id);
        }
      } else {
        WithoutAbsent(mapTx, tx.id);
        assert mapTx - {tx.id} == mapTx;
      }
    }

    /** The loop over the outputs. */
    method RemoveChildren(tx: Tx)
      requires Valid()
      requires tx.id in mapTx && mapTx[tx.id] == tx
      modifies this
      ensures Valid()
      ensures mapTx == Without(old(mapTx), ChildrenUpTo(old(mapTx), tx.id, |tx.vout|))
      ensures tx.id in mapTx && mapTx[tx.id] == tx
      decreases |Above(mapTx, rank, rank(tx.id))|, 0
    {
      hide Inverse, Without, Above, Named, Ranked, Child, ChildrenUpTo;
      ghost var m0, next0 := mapTx, mapNext;
      StartFamily(m0, tx.id);
      for i := 0 to |tx.vout|
        invariant Valid()
        invariant mapTx == Without(m0, ChildrenUpTo(m0, tx.id, i))
      {
        var o := OutPoint(tx.id, i);
        FamilyStep(m0, next0, tx.id, i, mapNext);
        if o in mapNext {
          var c := mapNext[o].tx;
          ChildRank(m0, rank, tx.id, c);
          WithoutSub(m0, ChildrenUpTo(m0, tx.id, i));
          AboveShrinks(mapTx, m0, rank, tx.id, c);
          NamedAt(mapTx, c);
          Remove(mapTx[c], true);
        }
      }
      StaysUntilLast(m0, rank, tx.id, |tx.vout|);
      WithoutSub(m0, ChildrenUpTo(m0, tx.id, |tx.vout|));
    }

    /** The end of remove: the entries of the inputs, then the transaction. */
    method EraseOne(tx: Tx)
      requires Valid()
      requires tx.id in mapTx && mapTx[tx.id] == tx
      modifies this
      ensures Valid()
      ensures mapTx == old(mapTx) - {tx.id}
    {
      hide Inverse;
      EraseInverse(mapTx, mapNext, tx.id);
      ghost var outs := OutPointsOf(tx);
      for i := 0 to |tx.vin|
        invariant mapTx == old(mapTx)
        invariant mapNext == old(mapNext) - set j | 0 <= j < i :: tx.vin[j].prevout
      {
        mapNext := mapNext - {tx.vin[i].prevout};
      }
      mapTx := mapTx - {tx.id};
    }

    /** CTxMemPool::removeConflicts. */
    method RemoveConflicts(tx: Tx)
      requires Valid()
      requires tx.id in mapTx ==> mapTx[tx.id] == tx
      modifies this
      ensures Valid()
      ensures mapTx == Without(old(mapTx), ConflictsUpTo(old(mapTx), tx, |tx.vin|))
      ensures forall h | h in mapTx && h != tx.id :: OutPointsOf(mapTx[h]) !! OutPointsOf(tx)
    {
      hide Inverse, Without, Named, Ranked, ConflictsUpTo, OutPointsOf;
      ghost var m0, next0 := mapTx, mapNext;
      StartConflicts(m0, tx);
      for i := 0 to |tx.vin|
        invariant Valid()
        invariant mapTx == Without(m0, ConflictsUpTo(m0, tx, i))
      {
        var o := tx.vin[i].prevout;
        ConflictStep(m0, next0, tx, i, mapNext);
        if o in mapNext {
          var c := mapNext[o].tx;
          NamedAt(mapTx, c);
          if mapTx[c] != tx {
            Remove(mapTx[c], true);
          }
        }
      }
      forall h | h in mapTx && h != tx.id
        ensures OutPointsOf(mapTx[h]) !! OutPointsOf(tx)
      {
        WithoutSub(m0, ConflictsUpTo(m0, tx, |tx.vin|));
        NamedAt(mapTx, h);
        NoConflictLeft(m0, tx, h);
      }
    }

    /** CTxMemPool::clear. */
    method Clear()
      modifies this
      ensures Valid() && mapTx == map[] && mapNext == map[]
    {
      mapTx, mapNext := map[], map[];
    }

    /** CTxMemPool::addUnchecked, for a transaction that passed the tests of AcceptToMemoryPool. */
    method AddUnchecked(tx: Tx)
      requires Valid() && Distinct(Prevouts(tx.vin)) && Made(tx, rank)
      requires tx.id !in mapTx && forall i | 0 <= i < |tx.vin| :: tx.vin[i].prevout !in mapNext
      modifies this
      ensures Valid()
      ensures mapTx == old(mapTx)[tx.id := tx]
    {
      mapTx := mapTx[tx.id := tx];
      for i := 0 to |tx.vin|
        invariant mapTx == old(mapTx)[tx.id := tx]
        invariant Extends(old(mapNext), mapNext, tx, i)
      {
        assert Prevouts(tx.vin)[i] == tx.vin[i].prevout;
        ghost var was := mapNext;
        mapNext := mapNext[tx.vin[i].prevout := InPoint(tx.id, i)];
        ExtendsStep(old(mapNext), was, tx, i);
      }
      AddInverse(old(mapTx), old(mapNext), tx, mapNext);
    }

    /** AcceptToMemoryPool with replacement disabled. standard and inputsStandard are what
        IsStandardTx (with the lock-time limit) and AreInputsStandard answer, or true on the test
        network; sigOk is what VerifySignature answers for each input. */
    method AcceptToMemoryPool(tx: Tx, db: TxMap, file: TxFile, recent: seq<BlockPos>, sigOk: seq<bool>,
                              standard: bool, inputsStandard: bool)
      returns (ok: bool, missingInputs: bool)
      requires Valid() && Made(tx, rank) && |sigOk| == |tx.vin|
      modifies this
      ensures Valid()
      ensures ok <==> && standard && inputsStandard && Loose(tx)
                      && NewTo(old(mapTx), db, tx)
                      && Fetchable(tx, db, file, old(mapTx), true)
                      && PaysRelayFee(tx, FetchedMap(tx, db, file, old(mapTx), true))
                      && Acceptable(tx, FetchedMap(tx, db, file, old(mapTx), true), recent, sigOk)
      ensures mapTx == if ok then old(mapTx)[tx.id := tx] else old(mapTx)
      ensures !ok ==> mapNext == old(mapNext)
      ensures missingInputs <==> standard && Loose(tx) && NewTo(old(mapTx), db, tx)
                                 && exists i | 0 <= i < |tx.vin| :: !LooselyThere(tx.vin[i].prevout.hash, db, file, old(mapTx))
      ensures SpendsOnly(tx, old(mapTx), db) ==>
                && !missingInputs
                && (ok <==> && standard && inputsStandard && Loose(tx) && NewTo(old(mapTx), db, tx)
                            && ChildOk(tx, old(mapTx), sigOk))
    {
      hide Fetchable, Acceptable, FetchedMap, Ranked, Fetched, AllFound, LooselyThere, ChildOk, SpendsOnly, Inverse;
      ChildOfPooled(tx, mapTx, db, file, recent, sigOk);
      missingInputs := false;
      if !CheckTransaction(tx) || tx.IsCoinBase() || tx.IsCoinStake() || !standard {
        return false, false;
      }
      if tx.id in mapTx {
        return false, false;
      }
      for i := 0 to |tx.vin|
        invariant forall j | 0 <= j < i :: tx.vin[j].prevout !in mapNext
      {
        if tx.vin[i].prevout in mapNext {
          ConflictSeen(mapTx, mapNext, tx, i);
          return false, false;
        }
      }
      NoConflictSeen(mapTx, mapNext, tx);
      if tx.id in db {
        return false, false;
      }
      var fetched, inputs, invalid := FetchInputs(tx, db, map[], file, mapTx, false, false);
      if !fetched {
        return false, !invalid;
      }
      FetchableIsFound(tx, db, file, mapTx, true);
      FetchedMapIs(tx, db, file, mapTx, true, inputs);
      if !inputsStandard {
        return false, false;
      }
      if ValueIn(inputs, Prevouts(tx.vin)) - ValueOut(tx.vout) < GetMinFee(1000, tx.size) {
        return false, false;
      }
      var connected, unused := ConnectInputs(tx, inputs, map[], POOL_POS, recent, sigOk, false, false);
      if !connected {
        return false, false;
      }
      AddUnchecked(tx);
      ok := true;
    }
  }

  /** The pooled transactions other than tx that spend one of its first n inputs' outpoints. */
  ghost function ConflictsUpTo(m: TxPool, tx: Tx, n: nat): set<Hash>
    requires n <= |tx.vin|
  {
    set c | c in m && m[c] != tx && exists i | 0 <= i < n :: tx.vin[i].prevout in OutPointsOf(m[c])
  }

  lemma StartConflicts(m: TxPool, tx: Tx)
    ensures Without(m, ConflictsUpTo(m, tx, 0)) == m
  {
    assert ConflictsUpTo(m, tx, 0) == {};
    WithoutNone(m);
  }

  lemma NextConflict(m: TxPool, next: NextMap, tx: Tx, n: nat)
    requires Inverse(m, next) && n < |tx.vin|
    ensures var o := tx.vin[n].prevout;
            && (o in next ==> next[o].tx in m)
            && ConflictsUpTo(m, tx, n + 1) == ConflictsUpTo(m, tx, n) +
                 if o in next && m[next[o].tx] != tx then {next[o].tx} else {}
  {
    var o := tx.vin[n].prevout;
    if o in next {
      assert SpendsAt(m, next[o].tx, next[o].n, o);
    }
    forall c | c in m && o in OutPointsOf(m[c])
      ensures o in next && c == next[o].tx
    {
      var i :| 0 <= i < |m[c].vin| && m[c].vin[i].prevout == o;
      assert m[c].vin[i].prevout in next;
    }
  }

  lemma ConflictStep(m: TxPool, next: NextMap, tx: Tx, n: nat, nextS: NextMap)
    requires Inverse(m, next) && n < |tx.vin|
    requires Inverse(Without(m, ConflictsUpTo(m, tx, n)), nextS)
    ensures var s := Without(m, ConflictsUpTo(m, tx, n));
            var o := tx.vin[n].prevout;
            && (o in nextS ==> nextS[o].tx in s)
            && Without(m, ConflictsUpTo(m, tx, n + 1)) ==
                 if o in nextS && s[nextS[o].tx] != tx then Without(s, {nextS[o].tx}) else s
  {
    hide Inverse, ConflictsUpTo;
    var roots := ConflictsUpTo(m, tx, n);
    var s := Without(m, roots);
    var o := tx.vin[n].prevout;
    NextConflict(m, next, tx, n);
    NextOfSub(s, nextS, m, next, o);
    assert roots + {} == roots;
    if o in next {
      WithoutStep(m, roots, next[o].tx);
      if o !in nextS {
        WithoutAbsent(s, next[o].tx);
      }
    }
  }

  lemma NoConflictLeft(m: TxPool, tx: Tx, h: Hash)
    requires h in Without(m, ConflictsUpTo(m, tx, |tx.vin|)) && m[h] != tx
    ensures OutPointsOf(m[h]) !! OutPointsOf(tx)
  {
    forall o | o in OutPointsOf(m[h]) && o in OutPointsOf(tx)
      ensures false
    {
      var i :| 0 <= i < |tx.vin| && tx.vin[i].prevout == o;
      assert h in ConflictsUpTo(m, tx, |tx.vin|);
      DescendsSelf(m, h);
    }
  }

  // ----- admission

  /** The id of a transaction is a hash over the ids it spends. */
  ghost predicate Made(tx: Tx, rank: Hash -> nat) {
    forall i | 0 <= i < |tx.vin| :: rank(tx.vin[i].prevout.hash) < rank(tx.id)
  }

  predicate Extends(next0: NextMap, next: NextMap, tx: Tx, n: nat)
    requires n <= |tx.vin|
  {
    && (forall o | o in next0 :: o in next && next[o] == next0[o])
    && (forall i | 0 <= i < n :: tx.vin[i].prevout in next && next[tx.vin[i].prevout] == InPoint(tx.id, i))
    && (forall o | o in next :: o in next0 || SpendsBelow(tx, n, next[o], o))
  }

  predicate SpendsBelow(tx: Tx, n: nat, p: InPoint, o: OutPoint)
    requires n <= |tx.vin|
  {
    p.tx == tx.id && p.n < n && tx.vin[p.n].prevout == o
  }

  lemma ExtendsStep(next0: NextMap, next: NextMap, tx: Tx, n: nat)
    requires n < |tx.vin| && Extends(next0, next, tx, n)
    requires Distinct(Prevouts(tx.vin)) && tx.vin[n].prevout !in next0
    ensures Extends(next0, next[tx.vin[n].prevout := InPoint(tx.id, n)], tx, n + 1)
  {
    var next' := next[tx.vin[n].prevout := InPoint(tx.id, n)];
    forall i | 0 <= i < n + 1
      ensures tx.vin[i].prevout in next' && next'[tx.vin[i].prevout] == InPoint(tx.id, i)
    {
      if i < n {
        assert Prevouts(tx.vin)[i] != Prevouts(tx.vin)[n];
      }
    }
  }

  lemma AddInverse(m: TxPool, next: NextMap, tx: Tx, next': NextMap)
    requires Inverse(m, next) && tx.id !in m && Extends(next, next', tx, |tx.vin|)
    ensures Inverse(m[tx.id := tx], next')
  {
    var m' := m[tx.id := tx];
    forall h, i | h in m' && 0 <= i < |m'[h].vin|
      ensures m'[h].vin[i].prevout in next' && next'[m'[h].vin[i].prevout] == InPoint(h, i)
    {
      if h != tx.id {
        assert m[h].vin[i].prevout in next;
      }
    }
    forall o | o in next'
      ensures SpendsAt(m', next'[o].tx, next'[o].n, o)
    {
      if o in next {
        assert SpendsAt(m, next[o].tx, next[o].n, o);
      } else {
        assert SpendsBelow(tx, |tx.vin|, next'[o], o);
      }
    }
  }

  /** Well-formed on its own and not reserved to blocks. */
  predicate Loose(tx: Tx) {
    CheckTransaction(tx) && !tx.IsCoinBase() && !tx.IsCoinStake()
  }

  /** In neither the pool nor the chain, and no pooled transaction spends what it spends. */
  predicate NewTo(m: TxPool, db: TxMap, tx: Tx) {
    && tx.id !in m && tx.id !in db
    && forall h | h in m :: OutPointsOf(m[h]) !! OutPointsOf(tx)
  }

  lemma ConflictSeen(m: TxPool, next: NextMap, tx: Tx, i: nat)
    requires Inverse(m, next) && i < |tx.vin| && tx.vin[i].prevout in next
    ensures exists h | h in m :: !(OutPointsOf(m[h]) !! OutPointsOf(tx))
  {
    var o := tx.vin[i].prevout;
    assert SpendsAt(m, next[o].tx, next[o].n, o);
    assert o in OutPointsOf(m[next[o].tx]) && o in OutPointsOf(tx);
  }

  lemma NoConflictSeen(m: TxPool, next: NextMap, tx: Tx)
    requires Inverse(m, next) && forall i | 0 <= i < |tx.vin| :: tx.vin[i].prevout !in next
    ensures forall h | h in m :: OutPointsOf(m[h]) !! OutPointsOf(tx)
  {
    forall h, o | h in m && o in OutPointsOf(m[h])
      ensures o in next
    {
      var i :| 0 <= i < |m[h].vin| && m[h].vin[i].prevout == o;
      assert m[h].vin[i].prevout in next;
    }
  }

  const MAX_BLOCK_SIZE_GEN := 500_000

  /** CTransaction::GetMinFee; the base fee is the same for blocks and for relaying. */
  function GetMinFee(blockSize: nat, bytes: nat): int {
    var newSize := blockSize + bytes;
    var minFee := (1 + bytes / 1000) * MIN_TX_FEE;
    if blockSize != 1 && newSize >= MAX_BLOCK_SIZE_GEN / 2 && newSize >= MAX_BLOCK_SIZE_GEN then MAX_MONEY
    else
      var raised := if blockSize != 1 && newSize >= MAX_BLOCK_SIZE_GEN / 2
                    then Scale(minFee, MAX_BLOCK_SIZE_GEN / (MAX_BLOCK_SIZE_GEN - newSize)) else minFee;
      if !MoneyRange(raised) then MAX_MONEY else raised
  }

  function Scale(fee: nat, k: nat): nat {
    fee * k
  }

  lemma ScaleGrows(fee: nat, k: nat)
    requires k >= 1
    ensures Scale(fee, k) >= fee
  {
    MulMonotone(1, k, fee);
  }

  /** An admitted transaction always pays the relay fee, so the limiter for free transactions that
      AcceptToMemoryPool applies below MIN_RELAY_TX_FEE never decides. */
  lemma MinFeeCoversRelay(blockSize: nat, bytes: nat)
    ensures MIN_TX_FEE <= GetMinFee(blockSize, bytes) <= MAX_MONEY
  {
    hide Scale;
    var newSize := blockSize + bytes;
    if newSize < MAX_BLOCK_SIZE_GEN {
      DivAtLeast(1, MAX_BLOCK_SIZE_GEN, MAX_BLOCK_SIZE_GEN - newSize);
      ScaleGrows((1 + bytes / 1000) * MIN_TX_FEE, MAX_BLOCK_SIZE_GEN / (MAX_BLOCK_SIZE_GEN - newSize));
    }
  }

  /** How many times the price is raised: 500,000 over the room left, rounded down, from the half-full
      block on; a block size of one means no block. */
  ghost predicate Raised(blockSize: nat, bytes: nat, times: nat) {
    if blockSize == 1 || blockSize + bytes < 250_000 then times == 1
    else
      var room := 500_000 - (blockSize + bytes);
      times * room <= 500_000 < (times + 1) * room
  }

  /** Ten thousand for every thousand bytes begun, raised as the block fills, and never more than all
      the money: a full block takes nothing. */
  lemma MinFeeIs(blockSize: nat, bytes: nat, k: nat, times: nat)
    requires 1000 * k <= bytes < 1000 * k + 1000 && (blockSize + bytes < 500_000 ==> Raised(blockSize, bytes, times))
    ensures blockSize != 1 && blockSize + bytes >= 500_000 ==> GetMinFee(blockSize, bytes) == MAX_MONEY
    ensures blockSize == 1 ==> GetMinFee(blockSize, bytes) == AtMost((k + 1) * 10_000, MAX_MONEY)
    ensures blockSize + bytes < 500_000 ==> GetMinFee(blockSize, bytes) == AtMost((k + 1) * 10_000 * times, MAX_MONEY)
  {
    if blockSize != 1 && 250_000 <= blockSize + bytes < 500_000 {
      DivUnique(500_000, 500_000 - (blockSize + bytes), times);
    }
    assert bytes / 1000 == k;
  }

  function AtMost(a: int, b: int): int {
    if a <= b then a else b
  }

  /** The price goes up as the block fills and as the transaction grows. */
  lemma MinFeeGrows(b: nat, n: nat, b': nat, n': nat)
    requires b <= b' && n <= n' && b' != 1
    ensures GetMinFee(b, n) <= GetMinFee(b', n')
  {
    MinFeeCoversRelay(b, n);
    if b' + n' < MAX_BLOCK_SIZE_GEN {
      var fee, fee' := (1 + n / 1000) * MIN_TX_FEE, (1 + n' / 1000) * MIN_TX_FEE;
      var k, k' := Times(b, n), Times(b', n');
      TimesGrow(b + n, b' + n');
      hide Times;
      MulMonotoneBoth(fee, fee', k, k');
    }
  }

  function Times(blockSize: nat, bytes: nat): nat {
    if blockSize == 1 || blockSize + bytes < MAX_BLOCK_SIZE_GEN / 2 || blockSize + bytes >= MAX_BLOCK_SIZE_GEN then 1
    else MAX_BLOCK_SIZE_GEN / (MAX_BLOCK_SIZE_GEN - (blockSize + bytes))
  }

  lemma TimesGrow(x: nat, y: nat)
    requires x <= y < MAX_BLOCK_SIZE_GEN
    ensures 1 <= MAX_BLOCK_SIZE_GEN / (MAX_BLOCK_SIZE_GEN - x) <= MAX_BLOCK_SIZE_GEN / (MAX_BLOCK_SIZE_GEN - y)
  {
    DivAtLeast(1, MAX_BLOCK_SIZE_GEN, MAX_BLOCK_SIZE_GEN - x);
    DivByMore(MAX_BLOCK_SIZE_GEN, MAX_BLOCK_SIZE_GEN - y, MAX_BLOCK_SIZE_GEN - x);
  }

  // ----- a child of pooled transactions

  /** Every input spends a pooled transaction that is not in the chain. */
  predicate SpendsOnly(tx: Tx, m: TxPool, db: TxMap) {
    forall i | 0 <= i < |tx.vin| :: tx.vin[i].prevout.hash !in db && tx.vin[i].prevout.hash in m
  }

  /** The value of the pooled outputs that the first n inputs name. */
  function PooledValue(tx: Tx, m: TxPool, n: nat): int
    requires n <= |tx.vin|
  {
    if n == 0 then 0
    else
      var o := tx.vin[n - 1].prevout;
      PooledValue(tx, m, n - 1) + if o.hash in m && o.n < |m[o.hash].vout| then m[o.hash].vout[o.n].value else 0
  }

  /** Input i names an output of its parent, which is no later; the amounts are in range and the
      signature is good. */
  predicate ChildInput(tx: Tx, m: TxPool, sigOk: seq<bool>, i: nat) {
    && i < |tx.vin| && i < |sigOk| && sigOk[i]
    && var o := tx.vin[i].prevout;
    && o.hash in m && o.n < |m[o.hash].vout| && m[o.hash].time <= tx.time
    && MoneyRange(m[o.hash].vout[o.n].value) && MoneyRange(PooledValue(tx, m, i + 1))
  }

  /** What a transaction must satisfy that spends only pooled transactions, in terms of the pool. */
  predicate ChildOk(tx: Tx, m: TxPool, sigOk: seq<bool>) {
    && (forall i | 0 <= i < |tx.vin| :: ChildInput(tx, m, sigOk, i))
    && GetMinFee(1000, tx.size) <= PooledValue(tx, m, |tx.vin|) - ValueOut(tx.vout) <= MAX_MONEY
  }

  /** The parents are found in the pool, with all their outputs unspent. */
  predicate HasParent(tx: Tx, m: TxPool, inputs: PrevMap, i: nat) {
    && i < |tx.vin|
    && var h := tx.vin[i].prevout.hash;
    && h in inputs && h in m && FromPool(inputs[h], m[h])
  }

  lemma ParentFetched(tx: Tx, m: TxPool, db: TxMap, file: TxFile, i: nat)
    requires i < |tx.vin| && tx.vin[i].prevout.hash !in db && tx.vin[i].prevout.hash in m
    ensures HasParent(tx, m, FetchedMap(tx, db, file, m, true), i)
    ensures LooselyThere(tx.vin[i].prevout.hash, db, file, m)
    ensures FetchableAt(tx, db, file, m, true, i) <==> tx.vin[i].prevout.n < |m[tx.vin[i].prevout.hash].vout|
  {
    assert tx.vin[i].prevout.hash in HashesUpTo(tx, |tx.vin|);
    LooseFound(db, file, m, tx.vin[i].prevout.hash);
  }

  lemma ChildInputIs(tx: Tx, m: TxPool, inputs: PrevMap, recent: seq<BlockPos>, sigOk: seq<bool>, i: nat)
    requires |sigOk| == |tx.vin| && i < |tx.vin| && forall j | 0 <= j < |tx.vin| :: HasParent(tx, m, inputs, j)
    ensures Plausible(tx, inputs, recent, i) && Unused(IndexOf(inputs), Prevouts(tx.vin), sigOk, i)
       <==> ChildInput(tx, m, sigOk, i)
    ensures ChildInput(tx, m, sigOk, i) ==> tx.vin[i].prevout.n < |m[tx.vin[i].prevout.hash].vout|
  {
    assert HasParent(tx, m, inputs, i);
    PooledValueIs(tx, m, inputs, i + 1);
    assert Prevouts(tx.vin)[i] == tx.vin[i].prevout;
  }

  /** A pooled parent is found with all its outputs unspent and nothing to mature: the pool alone
      decides. */
  lemma ChildOfPooled(tx: Tx, m: TxPool, db: TxMap, file: TxFile, recent: seq<BlockPos>, sigOk: seq<bool>)
    requires |sigOk| == |tx.vin|
    ensures SpendsOnly(tx, m, db) && Loose(tx) ==>
              && (forall i | 0 <= i < |tx.vin| :: LooselyThere(tx.vin[i].prevout.hash, db, file, m))
              && var inputs := FetchedMap(tx, db, file, m, true);
                 Fetchable(tx, db, file, m, true) && PaysRelayFee(tx, inputs) && Acceptable(tx, inputs, recent, sigOk)
                 <==> ChildOk(tx, m, sigOk)
  {
    hide FetchedMap, FetchableAt, LooselyThere, GetMinFee, Plausible, Unused, ChildInput, HasParent, Distinct, ValueOutUpTo;
    if SpendsOnly(tx, m, db) && Loose(tx) {
      var inputs := FetchedMap(tx, db, file, m, true);
      MinFeeCoversRelay(1000, tx.size);
      forall i | 0 <= i < |tx.vin|
        ensures HasParent(tx, m, inputs, i) && LooselyThere(tx.vin[i].prevout.hash, db, file, m)
        ensures FetchableAt(tx, db, file, m, true, i) <==> tx.vin[i].prevout.n < |m[tx.vin[i].prevout.hash].vout|
      {
        ParentFetched(tx, m, db, file, i);
      }
      PooledValueIs(tx, m, inputs, |tx.vin|);
      forall i | 0 <= i < |tx.vin|
        ensures Plausible(tx, inputs, recent, i) && Unused(IndexOf(inputs), Prevouts(tx.vin), sigOk, i)
           <==> ChildInput(tx, m, sigOk, i)
        ensures ChildInput(tx, m, sigOk, i) ==> FetchableAt(tx, db, file, m, true, i)
      {
        ChildInputIs(tx, m, inputs, recent, sigOk, i);
      }
    }
  }

  lemma {:induction false} PooledValueIs(tx: Tx, m: TxPool, inputs: PrevMap, n: nat)
    requires n <= |tx.vin|
    requires forall j | 0 <= j < |tx.vin| :: HasParent(tx, m, inputs, j)
    ensures ValueInUpTo(inputs, Prevouts(tx.vin), n) == PooledValue(tx, m, n)
  {
    if n > 0 {
      assert HasParent(tx, m, inputs, n - 1);
      PooledValueIs(tx, m, inputs, n - 1);
    }
  }

  predicate PaysRelayFee(tx: Tx, inputs: PrevMap) {
    ValueIn(inputs, Prevouts(tx.vin)) - ValueOut(tx.vout) >= GetMinFee(1000, tx.size)
  }

  lemma NamedAt(m: TxPool, h: Hash)
    requires Named(m) && h in m
    ensures m[h].id == h
  {
  }

  lemma WithoutSub(m: TxPool, roots: set<Hash>)
    ensures SubPool(Without(m, roots), m) && Without(m, roots).Keys <= m.Keys
  {
  }

  lemma StartFamily(m: TxPool, p: Hash)
    ensures Without(m, ChildrenUpTo(m, p, 0)) == m
  {
    assert ChildrenUpTo(m, p, 0) == {};
    WithoutNone(m);
  }
}
