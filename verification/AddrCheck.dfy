/** CAddrMan::Check_ (src/addrman.cpp), the debugging check, decides what it should: it answers zero
    exactly on tables that pass, and every consistent set of tables passes. */
module AddrCheck {
  import opened Basics
  import opened AddrTables
  import AddrMan

  /** The per-entry fields kept as tables of their own cover the entries. */
  predicate Shaped(t: Tables) {
    t.refs.Keys == t.info.Keys && t.pos.Keys == t.info.Keys && t.inTried <= t.info.Keys
  }

  /** mapAddr[info]; a missing key reads as zero. */
  function Lookup(t: Tables, n: nat): nat
    requires n in t.info
  {
    if t.info[n].addr.ip in t.addrs then t.addrs[t.info[n].addr.ip] else 0
  }

  predicate EntryPasses(t: Tables, n: nat)
    requires Shaped(t) && n in t.info
  {
    && (if n in t.inTried then t.info[n].lastSuccess != 0 && t.refs[n] == 0 else 1 <= t.refs[n] <= MAX_REFS)
    && Lookup(t, n) == n
    && t.pos[n] < |t.random| && t.random[t.pos[n]] == n
    && t.info[n].lastTry >= 0 && t.info[n].lastSuccess >= 0
  }

  /** All tried buckets in a row. */
  function Flat(tried: seq<seq<nat>>): seq<nat> {
    if tried == [] then [] else Flat(tried[..|tried| - 1]) + tried[|tried| - 1]
  }

  /** The tried buckets hold every tried id once, and nothing else. */
  ghost predicate TriedPasses(t: Tables) {
    Distinct(Flat(t.tried)) && forall x :: x in Flat(t.tried) <==> x in t.inTried
  }

  function Fresh(t: Tables): set<nat> {
    t.info.Keys - t.inTried
  }

  /** Every other id is in as many new buckets as nRefCount says, and nothing else is in one. */
  predicate NewPasses(t: Tables)
    requires Shaped(t)
  {
    && (forall n | n in Fresh(t) :: Refs(t.newB, n) == t.refs[n])
    && (forall b | 0 <= b < |t.newB| :: t.newB[b] <= Fresh(t))
  }

  ghost predicate Passes(t: Tables)
    requires Shaped(t)
  {
    && |t.random| == t.nTried + t.nNew
    && (forall n | n in t.info :: EntryPasses(t, n))
    && |t.inTried| == t.nTried && |Fresh(t)| == t.nNew
    && TriedPasses(t) && NewPasses(t)
  }

  // ----- consistent tables pass

  lemma {:induction false} InFlat(tried: seq<seq<nat>>, b: nat, i: nat)
    requires b < |tried| && i < |tried[b]|
    ensures tried[b][i] in Flat(tried)
  {
    if b < |tried| - 1 {
      InFlat(tried[..|tried| - 1], b, i);
    }
  }

  lemma {:induction false} FlatFrom(tried: seq<seq<nat>>, x: nat) returns (b: nat, i: nat)
    requires x in Flat(tried)
    ensures b < |tried| && i < |tried[b]| && tried[b][i] == x
  {
    var last := |tried| - 1;
    if x in tried[last] {
      b := last;
      i :| 0 <= i < |tried[b]| && tried[b][i] == x;
    } else {
      b, i := FlatFrom(tried[..last], x);
    }
  }

  lemma {:induction false} FlatDistinct(tried: seq<seq<nat>>)
    requires forall b | 0 <= b < |tried| :: Distinct(tried[b])
    requires forall b, c, i, j | 0 <= b < c < |tried| && 0 <= i < |tried[b]| && 0 <= j < |tried[c]| :: tried[b][i] != tried[c][j]
    ensures Distinct(Flat(tried))
  {
    if tried != [] {
      var last := |tried| - 1;
      var front := tried[..last];
      FlatDistinct(front);
      forall x | x in Flat(front)
        ensures x !in tried[last]
      {
        var b, i := FlatFrom(front, x);
        assert tried[b][i] == x;
      }
      DistinctAppend(Flat(front), tried[last]);
    }
  }

  lemma TriedOkPasses(t: Tables, hash: Service -> nat)
    requires TriedOk(t.info, t.inTried, t.tried, hash)
    ensures TriedPasses(t)
  {
    hide Flat, TriedBucket;
    forall b, c, i, j | 0 <= b < c < |t.tried| && 0 <= i < |t.tried[b]| && 0 <= j < |t.tried[c]|
      ensures t.tried[b][i] != t.tried[c][j]
    {
      assert TriedEntryOk(t.info, t.inTried, hash, b, t.tried[b][i]);
      assert TriedEntryOk(t.info, t.inTried, hash, c, t.tried[c][j]);
    }
    FlatDistinct(t.tried);
    forall x
      ensures x in Flat(t.tried) <==> x in t.inTried
    {
      if x in Flat(t.tried) {
        var b, i := FlatFrom(t.tried, x);
        assert TriedEntryOk(t.info, t.inTried, hash, b, t.tried[b][i]);
      }
      if x in t.inTried {
        assert TriedHome(t.info, t.tried, hash, x);
        var b := TriedBucket(hash, t.info[x]);
        var i :| 0 <= i < |t.tried[b]| && t.tried[b][i] == x;
        InFlat(t.tried, b, i);
      }
    }
  }

  /** Tried ids have no references, so no new bucket holds one. */
  lemma NewOkPasses(t: Tables, hash: Service -> nat)
    requires Consistent(t, hash, None)
    ensures Shaped(t) && NewPasses(t)
  {
    assert t.pos.Keys == t.info.Keys;
    hide Refs, TriedOk, AddrOk, TimesOk, RandomOk;
    forall b | 0 <= b < |t.newB|
      ensures t.newB[b] <= Fresh(t)
    {
      forall x | x in t.newB[b]
        ensures x !in t.inTried
      {
        assert x in t.info.Keys;
        RefsZero(t.newB, x);
      }
    }
  }

  /** Every reachable state satisfies Check_. */
  lemma ConsistentPasses(t: Tables, hash: Service -> nat)
    requires Consistent(t, hash, None)
    ensures Shaped(t) && Passes(t)
  {
    hide TriedPasses, NewPasses, TriedOk, NewOk, RefsOk, EntryPasses, AddrOk, TimesOk, RefsBounded, RandomOk;
    NewOkPasses(t, hash);
    TriedOkPasses(t, hash);
    RandomSize(t.info.Keys, t.random, t.pos);
    assert t.info.Keys == Fresh(t) + t.inTried;
    forall n | n in t.info
      ensures EntryPasses(t, n)
    {
      ConsistentEntry(t, n);
    }
  }

  lemma ConsistentEntry(t: Tables, n: nat)
    requires Shaped(t) && n in t.info && RandomOk(t.info.Keys, t.random, t.pos) && AddrOk(t.info, t.addrs)
    requires RefsBounded(t.refs, t.inTried) && TimesOk(t.info, t.inTried)
    ensures EntryPasses(t, n)
  {
    assert t.info[n].addr.ip in t.addrs;
    assert n in t.refs;
    PosOf(t.info.Keys, t.random, t.pos, n);
  }

  // ----- the loops of Check_

  method CheckEntry(t: Tables, n: nat) returns (ok: bool)
    requires Shaped(t) && n in t.info
    ensures ok <==> EntryPasses(t, n)
  {
    var info := t.info[n];
    if n in t.inTried {
      if info.lastSuccess == 0 || t.refs[n] != 0 {
        return false;
      }
    } else {
      if t.refs[n] < 0 || t.refs[n] > MAX_REFS || t.refs[n] == 0 {
        return false;
      }
    }
    if Lookup(t, n) != n {
      return false;
    }
    if t.pos[n] >= |t.random| || t.random[t.pos[n]] != n {
      return false;
    }
    ok := info.lastTry >= 0 && info.lastSuccess >= 0;
  }

  /** The loop over mapInfo. */
  method CheckEntries(t: Tables) returns (ok: bool)
    requires Shaped(t)
    ensures ok <==> forall n | n in t.info :: EntryPasses(t, n)
  {
    hide EntryPasses;
    var ids := AddrMan.SortedIds(t.info.Keys);
    for i := 0 to |ids|
      invariant forall j | 0 <= j < i :: ids[j] in t.info && EntryPasses(t, ids[j])
    {
      assert ids[i] in ids;
      ok := CheckEntry(t, ids[i]);
      if !ok {
        return;
      }
    }
    forall n | n in t.info
      ensures EntryPasses(t, n)
    {
      assert n in ids;
    }
    ok := true;
  }

  /** One tried bucket: each id must still be expected, and is expected no more. */
  method CheckTriedBucket(bucket: seq<nat>, left0: set<nat>) returns (ok: bool, left: set<nat>)
    ensures ok <==> Distinct(bucket) && forall x | x in bucket :: x in left0
    ensures ok ==> forall x :: x in left <==> x in left0 && x !in bucket
  {
    left := left0;
    for i := 0 to |bucket|
      invariant Distinct(bucket[..i]) && forall x | x in bucket[..i] :: x in left0
      invariant forall x :: x in left <==> x in left0 && x !in bucket[..i]
    {
      var n := bucket[i];
      if n !in left {
        assert n in bucket;
        if n in left0 {
          var j :| 0 <= j < i && bucket[j] == n;
        }
        return false, left;
      }
      left := left - {n};
      assert bucket[..i + 1] == bucket[..i] + [n];
      DistinctAppend(bucket[..i], [n]);
    }
    assert bucket[..|bucket|] == bucket;
    ok := true;
  }

  /** What is left to find after some of the buckets. */
  ghost predicate LeftTried(t: Tables, b: nat, left: set<nat>)
    requires b <= |t.tried|
  {
    && Distinct(Flat(t.tried[..b])) && (forall x | x in Flat(t.tried[..b]) :: x in t.inTried)
    && forall x :: x in left <==> x in t.inTried && x !in Flat(t.tried[..b])
  }

  lemma {:induction false} FlatSplit(tried: seq<seq<nat>>, b: nat) returns (rest: seq<nat>)
    requires b <= |tried|
    ensures Flat(tried) == Flat(tried[..b]) + rest
  {
    if b == |tried| {
      assert tried[..b] == tried;
      rest := [];
    } else {
      var last := |tried| - 1;
      rest := FlatSplit(tried[..last], b);
      assert tried[..last][..b] == tried[..b];
      rest := rest + tried[last];
    }
  }

  lemma FlatStep(tried: seq<seq<nat>>, b: nat)
    requires b < |tried|
    ensures Flat(tried[..b + 1]) == Flat(tried[..b]) + tried[b]
  {
    assert tried[..b + 1][..b] == tried[..b];
  }

  /** A bucket that fails spoils the whole. */
  lemma BadTriedBucket(t: Tables, b: nat, left: set<nat>)
    requires b < |t.tried| && LeftTried(t, b, left)
    requires !(Distinct(t.tried[b]) && forall x | x in t.tried[b] :: x in left)
    ensures !TriedPasses(t)
  {
    hide Flat;
    FlatStep(t.tried, b);
    var rest := FlatSplit(t.tried, b + 1);
    var a, c, all := Flat(t.tried[..b]), t.tried[b], Flat(t.tried);
    assert all == a + c + rest;
    if TriedPasses(t) {
      DistinctParts(a, c, rest);
    }
  }

  lemma DistinctParts(a: seq<nat>, c: seq<nat>, rest: seq<nat>)
    requires Distinct(a + c + rest)
    ensures Distinct(c) && forall x | x in c :: x !in a
  {
    var all := a + c + rest;
    forall i, j | 0 <= i < j < |c|
      ensures c[i] != c[j]
    {
      assert all[|a| + i] == c[i] && all[|a| + j] == c[j];
    }
    forall i, j | 0 <= i < |a| && 0 <= j < |c|
      ensures a[i] != c[j]
    {
      assert all[i] == a[i] && all[|a| + j] == c[j];
    }
  }

  method CheckTried(t: Tables) returns (ok: bool)
    ensures ok <==> TriedPasses(t)
  {
    var left := t.inTried;
    assert Flat(t.tried[..0]) == [];
    hide Flat;
    for b := 0 to |t.tried|
      invariant LeftTried(t, b, left)
    {
      var found, left' := CheckTriedBucket(t.tried[b], left);
      if !found {
        BadTriedBucket(t, b, left);
        return false;
      }
      FlatStep(t.tried, b);
      DistinctAppend(Flat(t.tried[..b]), t.tried[b]);
      left := left';
    }
    assert t.tried[..|t.tried|] == t.tried;
    ok := left == {};
  }

  // ----- new buckets

  /** mapNew after some buckets: the ids that are still owed references, and how many. */
  predicate Owed(t: Tables, b: nat, left: map<nat, int>)
    requires Shaped(t) && b <= |t.newB|
  {
    && (forall n | n in Fresh(t) :: Refs(t.newB[..b], n) <= t.refs[n])
    && (forall c | 0 <= c < b :: t.newB[c] <= Fresh(t))
    && (forall n | n in Fresh(t) :: n in left <==> Refs(t.newB[..b], n) < t.refs[n])
    && (forall n | n in left :: n in Fresh(t) && left[n] == t.refs[n] - Refs(t.newB[..b], n))
  }

  function Less(left: map<nat, int>, n: nat): map<nat, int>
    requires n in left
  {
    if left[n] == 1 then left - {n} else left[n := left[n] - 1]
  }

  /** One new bucket. */
  method CheckNewBucket(bucket: set<nat>, left0: map<nat, int>) returns (ok: bool, left: map<nat, int>)
    ensures ok <==> bucket <= left0.Keys
    ensures ok ==> forall n :: n in left <==> n in left0 && !(n in bucket && left0[n] == 1)
    ensures ok ==> forall n | n in left :: left[n] == left0[n] - if n in bucket then 1 else 0
  {
    var ids := AddrMan.SortedIds(bucket);
    left := left0;
    for i := 0 to |ids|
      invariant forall x | x in ids[..i] :: x in left0
      invariant forall n :: n in left <==> n in left0 && !(n in ids[..i] && left0[n] == 1)
      invariant forall n | n in left :: left[n] == left0[n] - if n in ids[..i] then 1 else 0
    {
      var n := ids[i];
      assert n in ids && n in bucket;
      assert n !in ids[..i];
      assert ids[..i + 1] == ids[..i] + [n];
      if n !in left {
        return false, left;
      }
      left := Less(left, n);
    }
    assert ids[..|ids|] == ids;
    ok := true;
  }

  lemma {:induction false} RefsStep(buckets: seq<set<nat>>, b: nat, n: nat)
    requires b < |buckets|
    ensures Refs(buckets[..b + 1], n) == Refs(buckets[..b], n) + if n in buckets[b] then 1 else 0
  {
    assert buckets[..b + 1][..b] == buckets[..b];
  }

  lemma {:induction false} RefsGrow(buckets: seq<set<nat>>, b: nat, n: nat)
    requires b <= |buckets|
    ensures Refs(buckets[..b], n) <= Refs(buckets, n)
    decreases |buckets| - b
  {
    if b < |buckets| {
      RefsStep(buckets, b, n);
      RefsGrow(buckets, b + 1, n);
    } else {
      assert buckets[..b] == buckets;
    }
  }

  lemma BadNewBucket(t: Tables, b: nat, left: map<nat, int>)
    requires Shaped(t) && b < |t.newB| && Owed(t, b, left) && !(t.newB[b] <= left.Keys)
    ensures !NewPasses(t)
  {
    hide Refs;
    var n :| n in t.newB[b] && n !in left;
    RefsStep(t.newB, b, n);
    RefsGrow(t.newB, b + 1, n);
  }

  lemma OwedStep(t: Tables, b: nat, left: map<nat, int>, left': map<nat, int>)
    requires Shaped(t) && b < |t.newB| && Owed(t, b, left) && t.newB[b] <= left.Keys
    requires forall n :: n in left' <==> n in left && !(n in t.newB[b] && left[n] == 1)
    requires forall n | n in left' :: left'[n] == left[n] - if n in t.newB[b] then 1 else 0
    ensures Owed(t, b + 1, left')
  {
    hide Refs;
    forall n | n in Fresh(t)
      ensures Refs(t.newB[..b + 1], n) == Refs(t.newB[..b], n) + if n in t.newB[b] then 1 else 0
    {
      RefsStep(t.newB, b, n);
    }
  }

  method CheckNew(t: Tables) returns (ok: bool)
    requires Shaped(t) && forall n | n in Fresh(t) :: t.refs[n] >= 1
    ensures ok <==> NewPasses(t)
  {
    var left := map n | n in t.info && n !in t.inTried :: t.refs[n];
    assert forall n :: Refs(t.newB[..0], n) == 0;
    hide Refs;
    for b := 0 to |t.newB|
      invariant Owed(t, b, left)
    {
      var found, left' := CheckNewBucket(t.newB[b], left);
      if !found {
        BadNewBucket(t, b, left);
        return false;
      }
      OwedStep(t, b, left, left');
      left := left';
    }
    assert t.newB[..|t.newB|] == t.newB;
    ok := left == map[];
    if !ok {
      var n :| n in left;
      assert n in Fresh(t);
    }
  }

  /** Check_; only whether it answers zero is modelled. */
  method Check(t: Tables) returns (ok: bool)
    requires Shaped(t)
    ensures ok <==> Passes(t)
  {
    hide TriedPasses, NewPasses;
    if |t.random| != t.nTried + t.nNew {
      return false;
    }
    ok := CheckEntries(t);
    if !ok {
      return;
    }
    if |t.inTried| != t.nTried || |Fresh(t)| != t.nNew {
      return false;
    }
    assert forall n | n in Fresh(t) :: EntryPasses(t, n);
    ok := CheckTried(t);
    if ok {
      ok := CheckNew(t);
    }
  }
}
