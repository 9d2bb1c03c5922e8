/** Writing CAddrMan to disk and reading it back (the serialise block of src/addrman.h), with an
    unchanged number of new buckets. */
module AddrDisk {
  import opened Basics
  import opened AddrTables
  import AddrMan

  /** nLastTry is memory only. */
  function OnDisk(i: Info): Info {
    i.(lastTry := 0)
  }

  datatype Image = Image(nNew: int, nTried: int, newInfos: seq<Info>, triedInfos: seq<Info>, buckets: seq<seq<nat>>)

  // ----- what an image says

  /** ids lists exactly s, once each. */
  ghost predicate Lists(ids: seq<nat>, s: set<nat>) {
    Distinct(ids) && forall x :: x in ids <==> x in s
  }

  predicate InfosOf(infos: seq<Info>, t: Tables, ids: seq<nat>) {
    |infos| == |ids| && forall i | 0 <= i < |ids| :: ids[i] in t.info && infos[i] == OnDisk(t.info[ids[i]])
  }

  /** The listed indexes stand for exactly the members of one bucket. */
  ghost predicate BucketOf(indexes: seq<nat>, bucket: set<nat>, newIds: seq<nat>) {
    && Distinct(indexes) && |indexes| == |bucket|
    && (forall i | 0 <= i < |indexes| :: indexes[i] < |newIds| && newIds[indexes[i]] in bucket)
    && (forall k | 0 <= k < |newIds| :: newIds[k] in bucket ==> k in indexes)
  }

  /** img is the image of t, with new entries in the order newIds and tried entries in the order
      triedIds. */
  ghost predicate ImageOf(img: Image, t: Tables, newIds: seq<nat>, triedIds: seq<nat>) {
    && img.nNew == t.nNew && img.nTried == t.nTried
    && Lists(newIds, t.info.Keys - t.inTried) && Lists(triedIds, t.inTried)
    && InfosOf(img.newInfos, t, newIds) && InfosOf(img.triedInfos, t, triedIds)
    && |img.buckets| == |t.newB|
    && forall b | 0 <= b < |t.newB| :: BucketOf(img.buckets[b], t.newB[b], newIds)
  }

  lemma ListsSize(ids: seq<nat>, s: set<nat>)
    requires Lists(ids, s)
    ensures |ids| == |s|
  {
    DistinctSize(ids);
    assert Elems(ids) == s;
  }

  function Elems(ids: seq<nat>): set<nat> {
    set x | x in ids
  }

  lemma {:induction false} DistinctSize(ids: seq<nat>)
    requires Distinct(ids)
    ensures |Elems(ids)| == |ids|
  {
    if ids != [] {
      var last := |ids| - 1;
      DistinctSize(ids[..last]);
      assert ids[last] !in Elems(ids[..last]);
      assert Elems(ids) == Elems(ids[..last]) + {ids[last]};
    }
  }

  lemma {:induction false} ElemsSize(ids: seq<nat>)
    ensures |Elems(ids)| <= |ids|
  {
    if ids != [] {
      var last := |ids| - 1;
      ElemsSize(ids[..last]);
      assert Elems(ids) == Elems(ids[..last]) + {ids[last]};
    }
  }

  /** Different members of a list are no more than the list. */
  lemma DistinctSubset(a: seq<nat>, b: seq<nat>)
    requires Distinct(a) && forall i | 0 <= i < |a| :: a[i] in b
    ensures |a| <= |b|
  {
    DistinctSize(a);
    ElemsSize(b);
    SubsetSize(Elems(a), Elems(b));
  }

  // ----- writing

  /** One of the two loops over mapInfo: the entries whose flag is set, in id order. index records,
      for every id passed, how many were written before it. */
  method WriteEntries(t: Tables, order: seq<nat>, wanted: set<nat>, count: int)
    returns (infos: seq<Info>, index: map<nat, nat>, ghost ids: seq<nat>)
    requires Distinct(order) && (forall x :: x in order <==> x in t.info) && wanted <= t.info.Keys && count == |wanted|
    ensures Lists(ids, wanted) && InfosOf(infos, t, ids)
    ensures forall k | 0 <= k < |ids| :: ids[k] in index && index[ids[k]] == k
  {
    infos, index, ids := [], map[], [];
    var i := 0;
    while i < |order|
      invariant 0 <= i <= |order| && |infos| == |ids| && Distinct(ids)
      invariant forall x :: x in ids <==> x in wanted && x in order[..i]
      invariant InfosOf(infos, t, ids)
      invariant forall k | 0 <= k < |ids| :: ids[k] in index && index[ids[k]] == k
    {
      if |infos| == count {
        break;
      }
      var n := order[i];
      assert n !in order[..i] && n !in ids && order[..i + 1] == order[..i] + [n];
      index := index[n := |infos|];
      if n in wanted {
        infos := infos + [OnDisk(t.info[n])];
        ids := ids + [n];
      }
      i := i + 1;
    }
    DistinctSize(ids);
    if i < |order| {
      SubsetSameSize(Elems(ids), wanted);
    } else {
      assert order[..i] == order;
    }
  }

  lemma SubsetSameSize(a: set<nat>, b: set<nat>)
    requires a <= b && |a| == |b|
    ensures a == b
  {
    assert b == a + (b - a);
  }

  method WriteBucket(bucket: set<nat>, index: map<nat, nat>, ghost newIds: seq<nat>) returns (v: seq<nat>)
    requires Distinct(newIds) && forall x | x in bucket :: x in newIds
    requires forall k | 0 <= k < |newIds| :: newIds[k] in index && index[newIds[k]] == k
    ensures BucketOf(v, bucket, newIds)
  {
    var ids := AddrMan.SortedIds(bucket);
    v := [];
    for i := 0 to |ids|
      invariant |v| == i
      invariant forall j | 0 <= j < i :: v[j] < |newIds| && newIds[v[j]] == ids[j]
    {
      assert ids[i] in bucket && ids[i] in newIds;
      var k: nat := if ids[i] in index then index[ids[i]] else 0;
      v := v + [k];
    }
    forall k | 0 <= k < |newIds| && newIds[k] in bucket
      ensures k in v
    {
      assert newIds[k] in ids;
      var j :| 0 <= j < |ids| && ids[j] == newIds[k];
      assert v[j] == k;
    }
    forall i, j | 0 <= i < j < |v|
      ensures v[i] != v[j]
    {
      assert ids[i] != ids[j];
    }
  }

  method Write(t: Tables, ghost hash: Service -> nat) returns (img: Image, ghost newIds: seq<nat>, ghost triedIds: seq<nat>)
    requires Consistent(t, hash, None)
    ensures ImageOf(img, t, newIds, triedIds)
  {
    hide Refs, RandomOk, AddrOk, RefsBounded, TriedOk, TimesOk, BucketOf;
    var order := AddrMan.SortedIds(t.info.Keys);
    var fresh' := set n | n in t.refs && t.refs[n] != 0;
    NewAreCounted(t, hash, fresh');
    var newInfos, index, triedInfos, unused;
    newInfos, index, newIds := WriteEntries(t, order, fresh', t.nNew);
    triedInfos, unused, triedIds := WriteEntries(t, order, t.inTried, t.nTried);
    forall b, x | 0 <= b < |t.newB| && x in t.newB[b]
      ensures x in newIds
    {
      InBucketIsNew(t, hash, None, b, x);
    }
    var buckets := WriteBuckets(t.newB, index, newIds);
    img := Image(t.nNew, t.nTried, newInfos, triedInfos, buckets);
  }

  /** The loop over the new buckets. */
  method WriteBuckets(newB: seq<set<nat>>, index: map<nat, nat>, ghost newIds: seq<nat>) returns (buckets: seq<seq<nat>>)
    requires Distinct(newIds) && forall b, x | 0 <= b < |newB| && x in newB[b] :: x in newIds
    requires forall k | 0 <= k < |newIds| :: newIds[k] in index && index[newIds[k]] == k
    ensures |buckets| == |newB| && forall b | 0 <= b < |newB| :: BucketOf(buckets[b], newB[b], newIds)
  {
    hide BucketOf;
    buckets := [];
    for b := 0 to |newB|
      invariant |buckets| == b
      invariant forall c | 0 <= c < b :: BucketOf(buckets[c], newB[c], newIds)
    {
      var v := WriteBucket(newB[b], index, newIds);
      buckets := buckets + [v];
    }
  }

  /** nRefCount is non-zero exactly for the entries outside the tried table, and nNew counts them. */
  lemma NewAreCounted(t: Tables, hash: Service -> nat, s: set<nat>)
    requires Consistent(t, hash, None) && s == set n | n in t.refs && t.refs[n] != 0
    ensures s == t.info.Keys - t.inTried && |s| == t.nNew
  {
    hide Refs, RandomOk, AddrOk, RefsOk, NewOk, TriedOk, TimesOk;
    assert s == t.info.Keys - t.inTried;
    assert t.info.Keys == s + t.inTried;
  }

  // ----- reading

  function Below(n: nat): (s: set<nat>)
    ensures forall k: nat :: k in s <==> k < n
  {
    if n == 0 then {} else Below(n - 1) + {n - 1}
  }

  /** The renumbering: id k of the tables read back is id order[k] of the tables written. */
  ghost predicate Renumbers(t: Tables, t': Tables, order: seq<nat>) {
    && Lists(order, t.info.Keys)
    && t'.info.Keys == Below(|order|)
    && (forall k | 0 <= k < |order| :: t'.info[k] == OnDisk(t.info[order[k]]))
    && (forall k | 0 <= k < |order| :: k in t'.inTried <==> order[k] in t.inTried)
    && |t'.newB| == |t.newB| && |t'.tried| == |t.tried|
    && (forall b, k | 0 <= b < |t.newB| && 0 <= k < |order| :: SameNew(t, t'.newB, order, b, k))
    && (forall b, k | 0 <= b < |t.tried| && 0 <= k < |order| :: SameTried(t, t'.tried, order, b, k))
  }

  predicate SameNew(t: Tables, newB: seq<set<nat>>, order: seq<nat>, b: nat, k: nat) {
    b < |t.newB| && b < |newB| && k < |order| && (k in newB[b] <==> order[k] in t.newB[b])
  }

  predicate SameTried(t: Tables, tried: seq<seq<nat>>, order: seq<nat>, b: nat, k: nat) {
    b < |t.tried| && b < |tried| && k < |order| && (k in tried[b] <==> order[k] in t.tried[b])
  }

  function Iota(n: nat): (s: seq<nat>)
    ensures |s| == n && forall i | 0 <= i < n :: s[i] == i
  {
    seq(n, i => i)
  }

  /** The first n entries of the listing `infos`, read into empty tables: ids and random positions
      are the reading order. */
  predicate ReadSoFar(s: Tables, infos: seq<Info>, n: nat) {
    && n <= |infos| && s.idCount == n
    && s.info.Keys == Below(n) && (forall k | 0 <= k < n :: s.info[k] == infos[k])
    && s.random == Iota(n)
    && s.pos.Keys == s.info.Keys && (forall k | 0 <= k < n :: s.pos[k] == k)
    && AddrOk(s.info, s.addrs)
    && s.refs.Keys == s.info.Keys
  }

  predicate DistinctAddrs(infos: seq<Info>) {
    forall i, j | 0 <= i < j < |infos| :: infos[i].addr.ip != infos[j].addr.ip
  }

  /** The shared part of both reading loops for entry n. */
  function ReadEntry(s: Tables, e: Info): Tables {
    var n := s.idCount;
    s.(idCount := n + 1, info := s.info[n := e], addrs := s.addrs[e.addr.ip := n],
       pos := s.pos[n := |s.random|], random := s.random + [n], refs := s.refs[n := 0])
  }

  lemma AddrAbsent(s: Tables, infos: seq<Info>, n: nat)
    requires ReadSoFar(s, infos, n) && n < |infos| && DistinctAddrs(infos)
    ensures infos[n].addr.ip !in s.addrs
  {
    hide Below, Iota;
    assert forall k | k in s.info :: k < n && s.info[k].addr.ip != infos[n].addr.ip;
  }

  lemma ReadEntryOk(s: Tables, infos: seq<Info>, n: nat)
    requires ReadSoFar(s, infos, n) && n < |infos| && DistinctAddrs(infos)
    ensures ReadSoFar(ReadEntry(s, infos[n]), infos, n + 1)
  {
    hide AddrOk, Below, Iota;
    AddrAbsent(s, infos, n);
    AddrCreate(s.info, s.addrs, n, infos[n]);
    assert s.random + [n] == Iota(n + 1);
    assert Below(n + 1) == Below(n) + {n};
  }

  // ----- facts about an image

  lemma ImageDistinct(img: Image, t: Tables, hash: Service -> nat, newIds: seq<nat>, triedIds: seq<nat>)
    requires Consistent(t, hash, None) && ImageOf(img, t, newIds, triedIds)
    ensures InfosOf(img.newInfos + img.triedInfos, t, newIds + triedIds)
    ensures Lists(newIds + triedIds, t.info.Keys)
    ensures DistinctAddrs(img.newInfos + img.triedInfos)
    ensures |newIds| == t.nNew && |triedIds| == t.nTried
  {
    hide Refs, RandomOk, AddrOk, RefsBounded, TriedOk, TimesOk, RefsOk, NewOk, BucketOf, Lists, InfosOf;
    ListsSize(newIds, t.info.Keys - t.inTried);
    ListsSize(triedIds, t.inTried);
    ListsJoin(newIds, t.info.Keys - t.inTried, triedIds, t.inTried);
    assert t.info.Keys == (t.info.Keys - t.inTried) + t.inTried;
    InfosJoin(img.newInfos, img.triedInfos, t, newIds, triedIds);
    AddrsDiffer(img.newInfos + img.triedInfos, t, newIds + triedIds);
    assert |t.info.Keys - t.inTried| == |t.info.Keys| - |t.inTried|;
  }

  lemma ListsJoin(a: seq<nat>, s: set<nat>, b: seq<nat>, r: set<nat>)
    requires Lists(a, s) && Lists(b, r) && s !! r
    ensures Lists(a + b, s + r)
  {
    var order := a + b;
    forall i, j | 0 <= i < j < |order|
      ensures order[i] != order[j]
    {
      if i < |a| <= j {
        assert order[i] in a && order[j] in b;
      }
    }
  }

  lemma InfosJoin(x: seq<Info>, y: seq<Info>, t: Tables, a: seq<nat>, b: seq<nat>)
    requires InfosOf(x, t, a) && InfosOf(y, t, b)
    ensures InfosOf(x + y, t, a + b)
  {
  }

  lemma AddrsDiffer(all: seq<Info>, t: Tables, order: seq<nat>)
    requires InfosOf(all, t, order) && Distinct(order) && AddrOk(t.info, t.addrs)
    ensures DistinctAddrs(all)
  {
    forall i, j | 0 <= i < j < |all|
      ensures all[i].addr.ip != all[j].addr.ip
    {
      assert order[i] != order[j];
    }
  }

  lemma {:induction false} RefsCompare(v: seq<set<nat>>, n: nat, w: seq<set<nat>>, m: nat)
    requires |v| == |w| && forall c | 0 <= c < |v| :: n in v[c] ==> m in w[c]
    ensures Refs(v, n) <= Refs(w, m)
    ensures (exists c | 0 <= c < |v| :: n !in v[c] && m in w[c]) ==> Refs(v, n) < Refs(w, m)
  {
    if v != [] {
      var last := |v| - 1;
      RefsCompare(v[..last], n, w[..last], m);
      if c :| 0 <= c < |v| && n !in v[c] && m in w[c] {
        if c < last {
          assert v[..last][c] == v[c] && w[..last][c] == w[c];
        }
      }
    }
  }

  // ----- the three reading loops

  method ReadNew(all: seq<Info>, nNew: nat) returns (s: Tables)
    requires nNew <= |all| && DistinctAddrs(all)
    ensures ReadSoFar(s, all, nNew)
    ensures s.inTried == {} && s.tried == EMPTY.tried && s.newB == EMPTY.newB && s.refs == map k | k in s.info :: 0
  {
    hide ReadSoFar, DistinctAddrs;
    s := EMPTY;
    EmptyRead(all);
    for n := 0 to nNew
      invariant ReadSoFar(s, all, n)
      invariant s.inTried == {} && s.tried == EMPTY.tried && s.newB == EMPTY.newB && s.refs == map k | k in s.info :: 0
    {
      ReadEntryOk(s, all, n);
      CountIs(s, all, n);
      s := ReadEntry(s, all[n]);
    }
  }

  lemma EmptyRead(all: seq<Info>)
    ensures ReadSoFar(EMPTY, all, 0)
  {
  }

  lemma CountIs(s: Tables, all: seq<Info>, n: nat)
    requires ReadSoFar(s, all, n)
    ensures s.idCount == n && n !in s.info && |s.random| == n
  {
  }

  lemma ReadAt(s: Tables, all: seq<Info>, n: nat, k: nat)
    requires ReadSoFar(s, all, n) && k < n
    ensures k in s.info && s.info[k] == all[k]
  {
  }

  /** A tried bucket never overflows on reading: its members come from one bucket of the written
      tables, where the next one is too. */
  lemma RoomForTried(t: Tables, hash: Service -> nat, order: seq<nat>, all: seq<Info>, s: Tables, n: nat)
    requires TriedOk(t.info, t.inTried, t.tried, hash) && Lists(order, t.info.Keys) && InfosOf(all, t, order)
    requires n < |all| && order[n] in t.inTried && ReadSoFar(s, all, n)
    requires TriedOk(s.info, s.inTried, s.tried, hash) && forall k | k in s.inTried :: k < n && order[k] in t.inTried
    ensures |s.tried[TriedBucket(hash, all[n])]| < TRIED_BUCKET_SIZE
  {
    hide AddrOk, Below, ReadSoFar;
    var k := TriedBucket(hash, all[n]);
    var v: seq<nat> := s.tried[k];
    forall i | 0 <= i < |v|
      ensures v[i] < n && order[v[i]] in t.tried[k]
    {
      assert TriedEntryOk(s.info, s.inTried, hash, k, s.tried[k][i]);
      ReadAt(s, all, n, v[i]);
      assert TriedHome(t.info, t.tried, hash, order[v[i]]);
    }
    assert TriedHome(t.info, t.tried, hash, order[n]);
    hide TriedOk, InfosOf;
    var a: seq<nat> := seq(|v| + 1, i requires 0 <= i < |v| + 1 => if i < |v| then order[v[i]] else order[n]);
    forall i, j | 0 <= i < j < |a|
      ensures a[i] != a[j]
    {
      if j < |v| {
        assert v[i] != v[j];
      }
    }
    DistinctSubset(a, t.tried[k]);
  }

  method ReadTried(ghost t: Tables, hash: Service -> nat, ghost order: seq<nat>, all: seq<Info>, s0: Tables, nNew: nat)
    returns (s: Tables, lost: nat)
    requires TriedOk(t.info, t.inTried, t.tried, hash) && Lists(order, t.info.Keys) && InfosOf(all, t, order)
    requires nNew <= |all| && ReadSoFar(s0, all, nNew) && DistinctAddrs(all)
    requires s0.inTried == {} && s0.tried == EMPTY.tried && s0.refs == map k | k in s0.info :: 0
    requires forall k | 0 <= k < |order| :: order[k] in t.inTried <==> k >= nNew
    ensures lost == 0 && ReadSoFar(s, all, |all|) && TriedOk(s.info, s.inTried, s.tried, hash)
    ensures forall k :: k in s.inTried <==> nNew <= k < |all|
    ensures s.newB == s0.newB && s.refs == map k | k in s.info :: 0
  {
    hide ReadSoFar, DistinctAddrs, TriedOk, InfosOf, Lists;
    s, lost := s0, 0;
    EmptyTried(s.info, hash);
    for n := nNew to |all|
      invariant lost == 0 && ReadSoFar(s, all, n) && TriedOk(s.info, s.inTried, s.tried, hash)
      invariant forall k :: k in s.inTried <==> nNew <= k < n
      invariant s.newB == s0.newB && s.refs == map k | k in s.info :: 0
    {
      InfosLength(all, t, order);
      TriedSize(s.info, s.inTried, s.tried, hash);
      var e := all[n];
      var k := TriedBucket(hash, e);
      if |s.tried[k]| < TRIED_BUCKET_SIZE {
        ReadEntryOk(s, all, n);
        CountIs(s, all, n);
        TriedKeeps(s.info, s.inTried, s.tried, hash, n, e);
        TriedPush(s.info[n := e], s.inTried, s.tried, hash, n);
        s := ReadEntry(s, e);
        TriedUnread(s, s.(inTried := s.inTried + {n}, tried := s.tried[k := s.tried[k] + [n]]), all, n + 1);
        s := s.(inTried := s.inTried + {n}, tried := s.tried[k := s.tried[k] + [n]]);
      } else {
        lost := lost + 1;
        RoomForTried(t, hash, order, all, s, n);
        assert false;
      }
    }
  }

  lemma InfosLength(all: seq<Info>, t: Tables, order: seq<nat>)
    requires InfosOf(all, t, order)
    ensures |all| == |order|
  {
  }

  lemma EmptyTried(info: InfoMap, hash: Service -> nat)
    ensures TriedOk(info, {}, EMPTY.tried, hash)
  {
  }

  lemma TriedUnread(s: Tables, r: Tables, all: seq<Info>, n: nat)
    requires r == s.(inTried := r.inTried, tried := r.tried)
    ensures ReadSoFar(s, all, n) <==> ReadSoFar(r, all, n)
  {
  }

  /** Bucket c of the tables being read holds the indexes listed for it. */
  predicate BucketsRead(newB: seq<set<nat>>, buckets: seq<seq<nat>>, b: nat) {
    && |newB| == |buckets| && b <= |buckets|
    && (forall c | 0 <= c < b :: newB[c] == Elems(buckets[c]))
    && (forall c | b <= c < |newB| :: newB[c] == {})
  }

  /** The count of an entry about to enter bucket b is still below the limit. */
  lemma {:induction false} RefsBelowLimit(newB: seq<set<nat>>, img: Image, t: Tables, newIds: seq<nat>,
                                          triedIds: seq<nat>, b: nat, part: set<nat>, k: nat)
    requires ImageOf(img, t, newIds, triedIds) && b < |img.buckets|
    requires |newB| == |img.buckets| && BucketsRead(newB[b := {}], img.buckets, b) && newB[b] == part && k !in part
    requires k in img.buckets[b]
    ensures k < |newIds| && Refs(newB, k) < Refs(t.newB, newIds[k])
  {
    assert BucketOf(img.buckets[b], t.newB[b], newIds);
    var i :| 0 <= i < |img.buckets[b]| && img.buckets[b][i] == k;
    forall c | 0 <= c < |newB|
      ensures k in newB[c] ==> newIds[k] in t.newB[c]
    {
      assert BucketOf(img.buckets[c], t.newB[c], newIds);
      if k in newB[c] && c != b {
        assert newB[c] == newB[b := {}][c];
        var j :| 0 <= j < |img.buckets[c]| && img.buckets[c][j] == k;
      }
    }
    assert k !in newB[b] && newIds[k] in t.newB[b];
    RefsCompare(newB, k, t.newB, newIds[k]);
  }

  /** One bucket of the last reading loop. */
  method ReadBucket(img: Image, b: nat, refs0: map<nat, int>, newB0: seq<set<nat>>,
                    ghost t: Tables, ghost newIds: seq<nat>, ghost triedIds: seq<nat>)
    returns (refs: map<nat, int>, newB: seq<set<nat>>)
    requires ImageOf(img, t, newIds, triedIds) && RefsBounded(t.refs, t.inTried) && RefsOk(t.refs, t.newB, None)
    requires t.refs.Keys == t.info.Keys
    requires b < |img.buckets| && BucketsRead(newB0, img.buckets, b) && RefsOk(refs0, newB0, None)
    requires forall k | 0 <= k < |newIds| :: k in refs0
    ensures refs.Keys == refs0.Keys && BucketsRead(newB, img.buckets, b + 1) && RefsOk(refs, newB, None)
  {
    hide RefsOk, Refs, RefsBounded, ImageOf;
    refs, newB := refs0, newB0;
    var v := img.buckets[b];
    BucketFacts(img, t, newIds, triedIds, b);
    assert newB0[b := {}] == newB0 && Elems(v[..0]) == {};
    for i := 0 to |v|
      invariant refs.Keys == refs0.Keys && RefsOk(refs, newB, None)
      invariant |newB| == |newB0| && newB == newB0[b := Elems(v[..i])]
    {
      var k := v[i];
      assert k !in Elems(v[..i]) && Elems(v[..i + 1]) == Elems(v[..i]) + {k};
      assert newB[b := {}] == newB0;
      RefsBelowLimit(newB, img, t, newIds, triedIds, b, Elems(v[..i]), k);
      CountBelowLimit(refs, newB, t, newIds, k, img, triedIds);
      if refs[k] < MAX_REFS {
        RefsAdd(refs, newB, b, k);
        refs := refs[k := refs[k] + 1];
        newB := newB[b := newB[b] + {k}];
      }
    }
    assert v[..|v|] == v;
  }

  lemma BucketFacts(img: Image, t: Tables, newIds: seq<nat>, triedIds: seq<nat>, b: nat)
    requires ImageOf(img, t, newIds, triedIds) && b < |img.buckets|
    ensures Distinct(img.buckets[b]) && forall i | 0 <= i < |img.buckets[b]| :: img.buckets[b][i] < |newIds|
  {
    assert BucketOf(img.buckets[b], t.newB[b], newIds);
  }

  lemma {:induction false} CountBelowLimit(refs: map<nat, int>, newB: seq<set<nat>>, t: Tables, newIds: seq<nat>,
                                           k: nat, img: Image, triedIds: seq<nat>)
    requires ImageOf(img, t, newIds, triedIds) && RefsBounded(t.refs, t.inTried) && RefsOk(t.refs, t.newB, None)
    requires t.refs.Keys == t.info.Keys && RefsOk(refs, newB, None) && k in refs && k < |newIds|
    requires Refs(newB, k) < Refs(t.newB, newIds[k])
    ensures refs[k] < MAX_REFS
  {
    assert newIds[k] in newIds;
  }

  lemma RefsAdd(refs: map<nat, int>, buckets: seq<set<nat>>, b: nat, k: nat)
    requires RefsOk(refs, buckets, None) && b < |buckets| && k in refs && k !in buckets[b]
    ensures RefsOk(refs[k := refs[k] + 1], buckets[b := buckets[b] + {k}], None)
  {
    var r, v := refs[k := refs[k] + 1], buckets[b := buckets[b] + {k}];
    forall m | m in r
      ensures r[m] == Refs(v, m) + 0
    {
      RefsUpdate(buckets, b, buckets[b] + {k}, m);
    }
  }

  method ReadBuckets(img: Image, refs0: map<nat, int>, ghost t: Tables, ghost newIds: seq<nat>, ghost triedIds: seq<nat>)
    returns (refs: map<nat, int>, newB: seq<set<nat>>)
    requires ImageOf(img, t, newIds, triedIds) && RefsBounded(t.refs, t.inTried) && RefsOk(t.refs, t.newB, None)
    requires t.refs.Keys == t.info.Keys && |img.buckets| == NEW_BUCKETS
    requires (forall k | 0 <= k < |newIds| :: k in refs0) && forall k | k in refs0 :: refs0[k] == 0
    ensures refs.Keys == refs0.Keys && BucketsRead(newB, img.buckets, |img.buckets|) && RefsOk(refs, newB, None)
  {
    hide Refs, RefsBounded, ImageOf, BucketsRead;
    refs, newB := refs0, EMPTY.newB;
    NothingRead(img.buckets, refs0);
    for b := 0 to |img.buckets|
      invariant refs.Keys == refs0.Keys && BucketsRead(newB, img.buckets, b) && RefsOk(refs, newB, None)
    {
      refs, newB := ReadBucket(img, b, refs, newB, t, newIds, triedIds);
    }
  }

  lemma NothingRead(buckets: seq<seq<nat>>, refs: map<nat, int>)
    requires |buckets| == NEW_BUCKETS && forall k | k in refs :: refs[k] == 0
    ensures BucketsRead(EMPTY.newB, buckets, 0) && RefsOk(refs, EMPTY.newB, None)
  {
    forall k | k in refs
      ensures Refs(EMPTY.newB, k) == 0
    {
      RefsZero(EMPTY.newB, k);
    }
  }

  // ----- the tables read back

  /** Bucket membership survives under the renumbering. */
  lemma NewRenumbered(newB: seq<set<nat>>, img: Image, t: Tables, newIds: seq<nat>, triedIds: seq<nat>, b: nat, k: nat)
    requires ImageOf(img, t, newIds, triedIds) && BucketsRead(newB, img.buckets, |img.buckets|) && b < |t.newB|
    requires k < |newIds| + |triedIds|
    requires forall x | x in t.newB[b] :: x in t.info && x !in t.inTried
    ensures k in newB[b] <==> (newIds + triedIds)[k] in t.newB[b]
  {
    assert BucketOf(img.buckets[b], t.newB[b], newIds);
    if k in newB[b] {
      var i :| 0 <= i < |img.buckets[b]| && img.buckets[b][i] == k;
    } else if k >= |newIds| {
      assert (newIds + triedIds)[k] in triedIds;
    }
  }

  lemma BucketMembers(t: Tables, hash: Service -> nat, b: nat)
    requires Consistent(t, hash, None) && b < |t.newB|
    ensures |t.newB| == NEW_BUCKETS && |t.newB[b]| <= NEW_BUCKET_SIZE
    ensures forall x | x in t.newB[b] :: x in t.info && x !in t.inTried
  {
    forall x | x in t.newB[b]
      ensures x in t.info && x !in t.inTried
    {
      InBucketIsNew(t, hash, None, b, x);
    }
  }

  lemma {:induction false} NewOkRead(newB: seq<set<nat>>, img: Image, t: Tables, hash: Service -> nat,
                                     newIds: seq<nat>, triedIds: seq<nat>, n: nat)
    requires Consistent(t, hash, None) && ImageOf(img, t, newIds, triedIds) && BucketsRead(newB, img.buckets, |img.buckets|)
    requires |newIds| <= n
    ensures NewOk(Below(n), newB)
  {
    hide Consistent, ImageOf;
    NewShape(img, t, hash, newIds, triedIds);
    forall b | 0 <= b < |newB|
      ensures newB[b] <= Below(n) && |newB[b]| <= NEW_BUCKET_SIZE
    {
      BucketFacts(img, t, newIds, triedIds, b);
      BucketLength(img, t, newIds, triedIds, b);
      BucketMembers(t, hash, b);
      ElemsSize(img.buckets[b]);
    }
  }

  lemma NewShape(img: Image, t: Tables, hash: Service -> nat, newIds: seq<nat>, triedIds: seq<nat>)
    requires Consistent(t, hash, None) && ImageOf(img, t, newIds, triedIds)
    ensures |img.buckets| == |t.newB| == NEW_BUCKETS
  {
  }

  lemma BucketLength(img: Image, t: Tables, newIds: seq<nat>, triedIds: seq<nat>, b: nat)
    requires ImageOf(img, t, newIds, triedIds) && b < |img.buckets|
    ensures b < |t.newB| && |img.buckets[b]| == |t.newB[b]|
  {
    assert BucketOf(img.buckets[b], t.newB[b], newIds);
  }

  /** Reference counts come back as they were, so within their bounds. */
  lemma {:induction false} RefsRead(refs: map<nat, int>, newB: seq<set<nat>>, img: Image, t: Tables, hash: Service -> nat,
                 newIds: seq<nat>, triedIds: seq<nat>, inTried: set<nat>)
    requires Consistent(t, hash, None) && ImageOf(img, t, newIds, triedIds)
    requires BucketsRead(newB, img.buckets, |img.buckets|) && RefsOk(refs, newB, None)
    requires refs.Keys == Below(|newIds| + |triedIds|)
    requires forall k :: k in inTried <==> |newIds| <= k < |newIds| + |triedIds|
    ensures RefsBounded(refs, inTried)
  {
    hide RandomOk, AddrOk, TriedOk, TimesOk;
    NewShape(img, t, hash, newIds, triedIds);
    forall k | k in refs
      ensures if k in inTried then refs[k] == 0 else 1 <= refs[k] <= MAX_REFS
    {
      var n := (newIds + triedIds)[k];
      forall b | 0 <= b < |newB|
        ensures k in newB[b] <==> n in t.newB[b]
      {
        BucketMembers(t, hash, b);
        NewRenumbered(newB, img, t, newIds, triedIds, b, k);
      }
      RefsCompare(newB, k, t.newB, n);
      RefsCompare(t.newB, n, newB, k);
      if k < |newIds| {
        assert n in newIds;
      } else {
        assert n in triedIds;
      }
    }
  }

  lemma TimesRead(info: InfoMap, inTried: set<nat>, t: Tables, order: seq<nat>, all: seq<Info>)
    requires TimesOk(t.info, t.inTried) && InfosOf(all, t, order)
    requires forall k | k in info :: k < |all| && info[k] == all[k]
    requires forall k | k in inTried :: k < |order| && order[k] in t.inTried
    ensures TimesOk(info, inTried)
  {
  }

  /** Tried membership survives under the renumbering. */
  lemma TriedRenumbered(s: Tables, t: Tables, hash: Service -> nat, order: seq<nat>, all: seq<Info>, b: nat, k: nat)
    requires TriedOk(t.info, t.inTried, t.tried, hash) && TriedOk(s.info, s.inTried, s.tried, hash)
    requires InfosOf(all, t, order) && ReadSoFar(s, all, |all|) && b < TRIED_BUCKETS && k < |order|
    requires k in s.inTried <==> order[k] in t.inTried
    ensures k in s.tried[b] <==> order[k] in t.tried[b]
  {
    assert s.info[k] == all[k];
    if k in s.tried[b] {
      var i :| 0 <= i < |s.tried[b]| && s.tried[b][i] == k;
      assert TriedEntryOk(s.info, s.inTried, hash, b, s.tried[b][i]);
      assert TriedHome(t.info, t.tried, hash, order[k]);
    }
    if order[k] in t.tried[b] {
      var i :| 0 <= i < |t.tried[b]| && t.tried[b][i] == order[k];
      assert TriedEntryOk(t.info, t.inTried, hash, b, t.tried[b][i]);
      assert TriedHome(s.info, s.tried, hash, k);
    }
  }

  lemma ReadCounts(s: Tables, all: seq<Info>, nNew: nat)
    requires ReadSoFar(s, all, |all|) && nNew <= |all| && forall k :: k in s.inTried <==> nNew <= k < |all|
    ensures |s.inTried| == |all| - nNew && |s.info| == |all| && s.inTried <= s.info.Keys
    ensures RandomOk(s.info.Keys, s.random, s.pos) && AddrOk(s.info, s.addrs) && forall n | n in s.info :: n < s.idCount
  {
    hide AddrOk, RandomOk, Below;
    ReadRandom(s, all);
    BelowSize(|all|);
    BelowSize(nNew);
    assert Below(|all|) == Below(nNew) + s.inTried;
    assert |s.info| == |s.info.Keys|;
  }

  lemma ReadRandom(s: Tables, all: seq<Info>)
    requires ReadSoFar(s, all, |all|)
    ensures RandomOk(s.info.Keys, s.random, s.pos)
  {
    hide AddrOk, Below;
  }

  lemma {:induction false} BelowSize(n: nat)
    ensures |Below(n)| == n
  {
    if n > 0 {
      BelowSize(n - 1);
    }
  }

  /** Reading an image of consistent tables loses nothing and gives consistent tables that differ
      only by the renumbering. */
  method Read(img: Image, hash: Service -> nat, ghost t: Tables, ghost newIds: seq<nat>, ghost triedIds: seq<nat>)
    returns (s: Tables, lost: nat)
    requires Consistent(t, hash, None) && ImageOf(img, t, newIds, triedIds)
    ensures lost == 0 && Consistent(s, hash, None)
    ensures Renumbers(t, s, newIds + triedIds) && s.nNew == t.nNew && s.nTried == t.nTried
  {
    hide Refs, RandomOk, AddrOk, RefsBounded, TriedOk, TimesOk, RefsOk, NewOk, ImageOf, ReadSoFar, DistinctAddrs, InfosOf, BucketsRead;
    hide Renumbers, Lists, Below;
    ImageDistinct(img, t, hash, newIds, triedIds);
    NewShape(img, t, hash, newIds, triedIds);
    var all := img.newInfos + img.triedInfos;
    ghost var order := newIds + triedIds;
    ImageParts(img, t, newIds, triedIds);
    s := ReadNew(all, |img.newInfos|);
    s, lost := ReadTried(t, hash, order, all, s, |img.newInfos|);
    ReadCounts(s, all, |img.newInfos|);
    ReadKeys(s, all);
    var refs, newB := ReadBuckets(img, s.refs, t, newIds, triedIds);
    NewOkRead(newB, img, t, hash, newIds, triedIds, |all|);
    RefsRead(refs, newB, img, t, hash, newIds, triedIds, s.inTried);
    TimesRead(s.info, s.inTried, t, order, all);
    var r := s.(refs := refs, newB := newB, nNew := img.nNew, nTried := img.nTried - lost);
    RenumberedTables(s, r, newB, img, t, hash, newIds, triedIds);
    s := r;
  }

  lemma ImageParts(img: Image, t: Tables, newIds: seq<nat>, triedIds: seq<nat>)
    requires ImageOf(img, t, newIds, triedIds)
    ensures |img.newInfos| == |newIds| && |img.triedInfos| == |triedIds| && img.nNew == t.nNew && img.nTried == t.nTried
    ensures forall k | 0 <= k < |newIds + triedIds| :: (newIds + triedIds)[k] in t.inTried <==> k >= |newIds|
  {
    forall k | 0 <= k < |newIds + triedIds|
      ensures (newIds + triedIds)[k] in t.inTried <==> k >= |newIds|
    {
      if k < |newIds| {
        assert (newIds + triedIds)[k] in newIds;
      } else {
        assert (newIds + triedIds)[k] in triedIds;
      }
    }
  }

  lemma {:induction false} ReadKeys(s: Tables, all: seq<Info>)
    requires ReadSoFar(s, all, |all|)
    ensures s.info.Keys == Below(|all|) && forall k | k in s.info :: k < |all| && s.info[k] == all[k]
  {
  }

  lemma RenumberedTables(s: Tables, r: Tables, newB: seq<set<nat>>, img: Image, t: Tables, hash: Service -> nat,
                         newIds: seq<nat>, triedIds: seq<nat>)
    requires Consistent(t, hash, None) && ImageOf(img, t, newIds, triedIds)
    requires BucketsRead(newB, img.buckets, |img.buckets|) && |img.buckets| == |t.newB|
    requires ReadSoFar(s, img.newInfos + img.triedInfos, |img.newInfos + img.triedInfos|)
    requires TriedOk(s.info, s.inTried, s.tried, hash)
    requires InfosOf(img.newInfos + img.triedInfos, t, newIds + triedIds) && Lists(newIds + triedIds, t.info.Keys)
    requires forall k | 0 <= k < |newIds + triedIds| :: k in s.inTried <==> (newIds + triedIds)[k] in t.inTried
    requires r.info == s.info && r.inTried == s.inTried && r.tried == s.tried && r.newB == newB
    ensures Renumbers(t, r, newIds + triedIds)
  {
    hide Refs, RandomOk, AddrOk, RefsBounded, TimesOk, RefsOk, NewOk, TriedOk, ImageOf, BucketsRead, ReadSoFar, Lists, InfosOf;
    var order, all := newIds + triedIds, img.newInfos + img.triedInfos;
    ReadKeys(s, all);
    InfosAt(all, t, order);
    TriedSize(t.info, t.inTried, t.tried, hash);
    TriedSize(s.info, s.inTried, s.tried, hash);
    BucketCount(newB, img.buckets);
    forall b, k | 0 <= b < |t.newB| && 0 <= k < |order|
      ensures SameNew(t, newB, order, b, k)
    {
      BucketMembers(t, hash, b);
      NewRenumbered(newB, img, t, newIds, triedIds, b, k);
    }
    forall b, k | 0 <= b < |t.tried| && 0 <= k < |order|
      ensures SameTried(t, s.tried, order, b, k)
    {
      TriedRenumbered(s, t, hash, order, all, b, k);
    }
  }

  lemma InfosAt(all: seq<Info>, t: Tables, order: seq<nat>)
    requires InfosOf(all, t, order)
    ensures |all| == |order| && forall k | 0 <= k < |order| :: order[k] in t.info && all[k] == OnDisk(t.info[order[k]])
  {
  }

  lemma BucketCount(newB: seq<set<nat>>, buckets: seq<seq<nat>>)
    requires BucketsRead(newB, buckets, |buckets|)
    ensures |newB| == |buckets|
  {
  }

  /** Everything about an entry survives but the time of the last try. */
  predicate Survives(t: Tables, s: Tables, order: seq<nat>, k: nat) {
    && k < |order| && k in s.info && order[k] in t.info
    && var e := t.info[order[k]];
       s.info[k] == Info(e.addr, e.services, e.time, e.source, e.lastSuccess, 0, e.attempts)
  }

  lemma EntriesSurvive(t: Tables, s: Tables, order: seq<nat>)
    requires Renumbers(t, s, order)
    ensures forall k | 0 <= k < |order| :: Survives(t, s, order, k)
  {
    hide SameNew, SameTried;
  }

  /** Writing and reading back. */
  method RoundTrip(t: Tables, hash: Service -> nat) returns (s: Tables, lost: nat, ghost order: seq<nat>)
    requires Consistent(t, hash, None)
    ensures lost == 0 && Consistent(s, hash, None) && Renumbers(t, s, order)
    ensures forall k | 0 <= k < |order| :: Survives(t, s, order, k)
  {
    hide Consistent, Renumbers, ImageOf, Survives;
    ghost var newIds, triedIds;
    var img;
    img, newIds, triedIds := Write(t, hash);
    s, lost := Read(img, hash, t, newIds, triedIds);
    order := newIds + triedIds;
    EntriesSurvive(t, s, order);
  }
}
