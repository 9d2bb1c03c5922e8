/** CAddrMan (src/addrman.cpp): every operation keeps the tables consistent in the sense of
    Check_. */
module AddrMan {
  import opened Basics
  import opened AddrTables

  /** The ids of a std::set or std::map in iteration order. */
  method SortedIds(s: set<nat>) returns (v: seq<nat>)
    ensures |v| == |s| && Distinct(v)
    ensures forall i, j | 0 <= i < j < |v| :: v[i] < v[j]
    ensures forall x :: x in v <==> x in s
  {
    v := [];
    var todo := s;
    while todo != {}
      invariant todo <= s && |v| + |todo| == |s|
      invariant forall i, j | 0 <= i < j < |v| :: v[i] < v[j]
      invariant forall x :: x in v <==> x in s && x !in todo
      invariant forall x, y | x in v && y in todo :: x < y
      decreases |todo|
    {
      var least := Least(todo);
      assert forall i | 0 <= i < |v| :: v[i] in v;
      v := v + [least];
      todo := todo - {least};
    }
  }

  method Least(s: set<nat>) returns (m: nat)
    requires s != {}
    ensures m in s && forall x | x in s :: m <= x
  {
    m :| m in s;
    var rest := s - {m};
    while rest != {}
      invariant rest <= s && m in s && forall x | x in s && x !in rest :: m <= x
      decreases |rest|
    {
      var x :| x in rest;
      if x < m {
        m := x;
      }
      rest := rest - {x};
    }
  }

  class AddrMan {
    /** The hashes behind GetTriedBucket and GetNewBucket, under the manager's key. */
    const triedHash: Service -> nat
    const newHash: (Service, NetAddr) -> nat
    var t: Tables

    ghost predicate Valid()
      reads this
    {
      Consistent(t, triedHash, None)
    }

    function NewBucket(a: Service, source: NetAddr): (b: nat)
      ensures b < NEW_BUCKETS
    {
      newHash(a, source) % NEW_BUCKETS
    }

    constructor (triedHash: Service -> nat, newHash: (Service, NetAddr) -> nat)
      ensures Valid() && t == EMPTY
    {
      this.triedHash, this.newHash, t := triedHash, newHash, EMPTY;
      EmptyOk(triedHash);
    }

    method Find(ip: NetAddr) returns (r: Option<nat>)
      requires AddrOk(t.info, t.addrs)
      ensures match r
              case Some(n) => n in t.info && t.info[n].addr.ip == ip
              case None => ip !in t.addrs && forall n | n in t.info :: t.info[n].addr.ip != ip
    {
      if ip in t.addrs && t.addrs[ip] in t.info {
        return Some(t.addrs[ip]);
      }
      return None;
    }

    method SwapRandom(i: nat, j: nat)
      requires i < |t.random| && j < |t.random|
      requires forall p | 0 <= p < |t.random| :: t.random[p] in t.pos && t.pos[t.random[p]] == p
      modifies this
      ensures t == Swap(old(t), i, j)
    {
      if i == j {
        assert t == Swap(t, i, j);
        return;
      }
      var n1, n2 := t.random[i], t.random[j];
      t := t.(pos := t.pos[n1 := j][n2 := i]);
      t := t.(random := t.random[i := n2][j := n1]);
    }

    /** The end of both branches of ShrinkNew. */
    method Drop(b: nat, n: nat, ghost pending: Option<nat>)
      requires Consistent(t, triedHash, pending) && b < |t.newB| && n in t.newB[b] && pending != Some(n)
      modifies this
      ensures n in old(t).refs && n in old(t).info && n in old(t).pos && old(t).pos[n] < |old(t).random|
      ensures t == DropRef(old(t), b, n) && Consistent(t, triedHash, pending)
    {
      hide Consistent, Refs;
      DropRefOk(t, triedHash, pending, b, n);
      InverseOf(t, triedHash, pending);
      t := t.(refs := t.refs[n := t.refs[n] - 1]);
      if t.refs[n] == 0 {
        SwapRandom(t.pos[n], |t.random| - 1);
        t := t.(random := t.random[..|t.random| - 1], pos := t.pos - {n});
        t := t.(addrs := t.addrs - {t.info[n].addr.ip});
        t := t.(info := t.info - {n}, refs := t.refs - {n});
        t := t.(nNew := t.nNew - 1);
      }
      t := t.(newB := t.newB[b := t.newB[b] - {n}]);
    }

    static lemma InverseOf(t: Tables, hash: Service -> nat, pending: Option<nat>)
      requires Consistent(t, hash, pending)
      ensures forall p | 0 <= p < |t.random| :: t.random[p] in t.pos && t.pos[t.random[p]] == p
    {
    }

    /** ShrinkNew on a bucket with something to remove. */
    method ShrinkNew(b: nat, now: int, ghost pending: Option<nat>) returns (r: int)
      requires Consistent(t, triedHash, pending) && b < |t.newB| && t.newB[b] != {}
      requires pending.Some? ==> pending.value !in t.newB[b]
      modifies this
      ensures Consistent(t, triedHash, pending)
      ensures exists n :: Chosen(old(t), b, now, n, r) && Shrunk(old(t), t, b, n)
    {
      hide Refs, RandomOk, AddrOk, TriedOk, RefsOk, RefsBounded, TimesOk, Counted, Chosen;
      var n;
      n, r := Choose(b, now, pending);
      ChosenIn(t, b, now, n, r);
      Drop(b, n, pending);
      assert Shrunk(old(t), t, b, n);
    }

    /** n goes: the first terrible entry in id order (result 0), or else the oldest of a random
        sample (result 1). */
    static ghost predicate Chosen(t: Tables, b: nat, now: int, n: nat, r: int) {
      && b < |t.newB| && n in t.newB[b] && n in t.info
      && if exists m | m in t.newB[b] :: m in t.info && t.info[m].IsTerrible(now)
         then r == 0 && FirstTerrible(t, b, now, n)
         else r == 1 && exists four :: OldestOf(t.newB[b], t.info, four, n)
    }

    static predicate FirstTerrible(t: Tables, b: nat, now: int, n: nat) {
      && b < |t.newB| && n in t.info && t.info[n].IsTerrible(now)
      && forall m | m in t.newB[b] && m in t.info && t.info[m].IsTerrible(now) :: n <= m
    }

    /** The bucket has lost n, which is forgotten if this was its last reference. */
    static predicate Shrunk(s: Tables, t: Tables, b: nat, n: nat) {
      && b < |s.newB| && t.newB == s.newB[b := s.newB[b] - {n}]
      && t.info == (if n in s.refs && s.refs[n] == 1 then s.info - {n} else s.info)
      && t.inTried == s.inTried && t.tried == s.tried && t.idCount == s.idCount
    }

    static lemma ChosenIn(t: Tables, b: nat, now: int, n: nat, r: int)
      requires Chosen(t, b, now, n, r)
      ensures b < |t.newB| && n in t.newB[b] && n in t.info
    {
    }

    /** The two loops of ShrinkNew that pick the entry. */
    method Choose(b: nat, now: int, ghost pending: Option<nat>) returns (n: nat, r: int)
      requires Consistent(t, triedHash, pending) && b < |t.newB| && t.newB[b] != {}
      ensures Chosen(t, b, now, n, r)
    {
      hide Refs, RandomOk, AddrOk, TriedOk, RefsOk, RefsBounded, TimesOk, Counted;
      var ids := SortedIds(t.newB[b]);
      assert forall i | 0 <= i < |ids| :: ids[i] in t.newB[b] && ids[i] in t.info;
      for i := 0 to |ids|
        invariant forall j | 0 <= j < i :: !t.info[ids[j]].IsTerrible(now)
      {
        if t.info[ids[i]].IsTerrible(now) {
          forall m | m in t.newB[b] && m in t.info && t.info[m].IsTerrible(now)
            ensures ids[i] <= m
          {
            assert m in ids;
          }
          return ids[i], 0;
        }
      }
      forall m | m in t.newB[b]
        ensures !t.info[m].IsTerrible(now)
      {
        assert m in ids;
      }
      assert ids != [];
      var s0, s1, s2, s3 :| 0 <= s0 < |ids| && 0 <= s1 < |ids| && 0 <= s2 < |ids| && 0 <= s3 < |ids|;
      n := OldestSampled(t.info, ids, [s0, s1, s2, s3]);
      SampleOldest(t.newB[b], t.info, ids, [s0, s1, s2, s3], n);
      r := 1;
    }

    /** n is the oldest of four members of the bucket, which need not differ. */
    static predicate OldestOf(bucket: set<nat>, info: InfoMap, four: seq<nat>, n: nat) {
      && |four| == 4 && n in four && n in info
      && forall i | 0 <= i < 4 :: four[i] in bucket && four[i] in info && info[n].time <= info[four[i]].time
    }

    static lemma SampleOldest(bucket: set<nat>, info: InfoMap, ids: seq<nat>, picks: seq<nat>, n: nat)
      requires |picks| == 4 && forall j | 0 <= j < 4 :: picks[j] < |ids|
      requires forall i | 0 <= i < |ids| :: ids[i] in bucket && ids[i] in info
      requires exists j | 0 <= j < 4 :: n == ids[picks[j]]
      requires n in info && forall j | 0 <= j < 4 :: info[n].time <= info[ids[picks[j]]].time
      ensures exists four :: OldestOf(bucket, info, four, n)
    {
      var four := seq(4, j requires 0 <= j < 4 => ids[picks[j]]);
      var j :| 0 <= j < 4 && n == ids[picks[j]];
      assert four[j] == n;
      assert OldestOf(bucket, info, four, n);
    }

    /** The loop of ShrinkNew that picks the oldest of the sampled positions. */
    static method OldestSampled(info: InfoMap, ids: seq<nat>, picks: seq<nat>) returns (n: nat)
      requires |picks| == 4 && (forall j | 0 <= j < 4 :: picks[j] < |ids|) && forall i | 0 <= i < |ids| :: ids[i] in info
      ensures exists j | 0 <= j < 4 :: n == ids[picks[j]]
      ensures n in info && forall j | 0 <= j < 4 :: info[n].time <= info[ids[picks[j]]].time
    {
      var oldest: Option<nat> := None;
      for i := 0 to |ids|
        invariant oldest.Some? ==> oldest.value in info && exists j | 0 <= j < 4 :: oldest.value == ids[picks[j]]
        invariant forall j | 0 <= j < 4 && picks[j] < i ::
                    oldest.Some? && info[oldest.value].time <= info[ids[picks[j]]].time
      {
        if i in picks {
          if oldest == None || info[ids[i]].time < info[oldest.value].time {
            oldest := Some(ids[i]);
          }
        }
      }
      assert picks[0] < |ids|;
      n := oldest.value;
    }
  
    /** SelectTried: the front of the bucket is shuffled, and a position of the bucket comes back. */
    method SelectTried(k: nat) returns (p: nat)
      requires k < |t.tried| && t.tried[k] != [] && Distinct(t.tried[k])
      modifies this
      ensures k < |t.tried| && p < |t.tried[k]| && Shuffled(old(t).tried[k], t.tried[k])
      ensures t == old(t).(tried := old(t).tried[k := t.tried[k]])
    {
      ghost var a := t.tried[k];
      var v := t.tried[k];
      var oldest: Option<nat> := None;
      p := 0;
      var i := 0;
      while i < 4 && i < |v|
        invariant 0 <= i <= |v| && Shuffled(a, v) && p < |v| && t == old(t)
        decreases 4 - i
      {
        var q: nat :| i <= q < |v|;
        var n := v[q];
        ShuffledStep(a, v, i, q);
        v := Swapped(v, i, q);
        if oldest == None || (oldest.value in t.info && n in t.info && t.info[n].lastSuccess < t.info[oldest.value].lastSuccess) {
          oldest := Some(n);
          p := q;
        }
        i := i + 1;
      }
      t := t.(tried := t.tried[k := v]);
    }

    static lemma BucketOk(t: Tables, hash: Service -> nat, k: nat)
      requires Consistent(t, hash, None) && k < |t.tried|
      ensures Distinct(t.tried[k]) && |t.tried[k]| <= TRIED_BUCKET_SIZE
    {
    }

    static lemma ShuffledStep(a: seq<nat>, v: seq<nat>, i: nat, j: nat)
      requires Shuffled(a, v) && i < |v| && j < |v|
      ensures Shuffled(a, Swapped(v, i, j)) && forall x :: x in v ==> x in Swapped(v, i, j)
    {
      var w := Swapped(v, i, j);
      forall x
        ensures x in v <==> x in w
      {
        if x in v {
          var k :| 0 <= k < |v| && v[k] == x;
          assert w[if k == i then j else if k == j then i else k] == x;
        }
      }
    }

    /** MakeTried's loop: n leaves every new bucket, and its count drops to 0. */
    method ClearNew(n: nat)
      requires Valid() && n in t.info && n in t.refs
      modifies this
      ensures Cleared(t.newB, old(t).newB, n)
      ensures t == old(t).(refs := old(t).refs[n := 0], newB := t.newB)
    {
      hide Consistent, Refs, RefsOk;
      NewShape(t, triedHash);
      assert old(t).refs[n := t.refs[n]] == old(t).refs;
      for i := 0 to |t.newB|
        invariant |t.newB| == |old(t).newB| && n in t.refs && RefsOk(t.refs, t.newB, None)
        invariant forall b | 0 <= b < i :: t.newB[b] == old(t).newB[b] - {n}
        invariant forall b | i <= b < |t.newB| :: t.newB[b] == old(t).newB[b]
        invariant t == old(t).(refs := old(t).refs[n := t.refs[n]], newB := t.newB)
      {
        if n in t.newB[i] {
          RefsDrop(t.refs, t.newB, None, i, n);
          t := t.(newB := t.newB[i := t.newB[i] - {n}]);
          t := t.(refs := t.refs[n := t.refs[n] - 1]);
        }
      }
      NoRefs(t.refs, t.newB, n);
    }

    static lemma NoRefs(refs: map<nat, int>, buckets: seq<set<nat>>, n: nat)
      requires RefsOk(refs, buckets, None) && n in refs && forall b | 0 <= b < |buckets| :: n !in buckets[b]
      ensures refs[n] == 0
    {
      RefsZero(buckets, n);
    }

    static lemma NewShape(t: Tables, hash: Service -> nat)
      requires Consistent(t, hash, None)
      ensures RefsOk(t.refs, t.newB, None) && NewOk(t.info.Keys, t.newB) && AddrOk(t.info, t.addrs)
      ensures |t.tried| == TRIED_BUCKETS && t.refs.Keys == t.info.Keys && t.inTried <= t.info.Keys
    {
    }

    /** MakeTried: n, known from new bucket `origin` and just seen alive, moves to its tried
        bucket; a full bucket sends one entry back to the new table. */
    method MakeTried(n: nat, origin: nat) returns (ghost v: seq<set<nat>>)
      requires Valid() && n in t.info && n !in t.inTried && t.info[n].lastSuccess != 0
      requires origin < |t.newB| && n in t.newB[origin]
      modifies this
      ensures Valid() && t.info == old(t).info && t.addrs == old(t).addrs
      ensures Cleared(v, old(t).newB, n) && n in old(t).refs && |old(t).tried| == TRIED_BUCKETS
      ensures if |old(t).tried[TriedBucket(triedHash, old(t).info[n])]| < TRIED_BUCKET_SIZE
              then t == IntoTried(old(t), triedHash, n, v)
              else exists m :: SentBack(old(t), t, v, n, m, origin)
    {
      hide Consistent, Refs, SentBack;
      NewShape(t, triedHash);
      ghost var before := t;
      ClearNew(n);
      v := t.newB;
      t := t.(nNew := t.nNew - 1);
      assert t.refs[n] == 0;
      var k := TriedBucket(triedHash, t.info[n]);
      if |t.tried[k]| < TRIED_BUCKET_SIZE {
        IntoTriedOk(before, triedHash, n, t.newB);
        t := t.(tried := t.tried[k := t.tried[k] + [n]], nTried := t.nTried + 1);
        t := t.(inTried := t.inTried + {n});
      } else {
        OriginHasRoom(before, triedHash, t.newB, origin, n);
        EvictFor(n, origin, k, before);
      }
    }

    /** m has given its place in the tried table to n, and is in the new bucket of its own source, or
        where n came from if that is full. v holds the new buckets without n. */
    predicate SentBack(s: Tables, t: Tables, v: seq<set<nat>>, n: nat, m: nat, origin: nat) {
      && n in s.info && m in s.inTried && m in s.info && |v| == NEW_BUCKETS && origin < |v|
      && TriedBucket(triedHash, s.info[m]) == TriedBucket(triedHash, s.info[n])
      && t.inTried == s.inTried - {m} + {n} && t.nTried == s.nTried && t.nNew == s.nNew
      && var u := NewBucket(s.info[m].addr, s.info[m].source);
      && var w := if |v[u]| < NEW_BUCKET_SIZE then u else origin;
      && t.newB == v[w := v[w] + {m}]
    }

    /** The second half of MakeTried. `before` is the state at its start. */
    method EvictFor(n: nat, origin: nat, k: nat, ghost before: Tables)
      requires Consistent(before, triedHash, None) && n in before.info && n !in before.inTried && n in before.refs
      requires before.info[n].lastSuccess != 0 && k == TriedBucket(triedHash, before.info[n]) && |before.tried| == TRIED_BUCKETS
      requires |before.tried[k]| >= TRIED_BUCKET_SIZE && Cleared(t.newB, before.newB, n) && |t.newB| == NEW_BUCKETS
      requires t == before.(refs := before.refs[n := 0], newB := t.newB, nNew := before.nNew - 1)
      requires origin < |t.newB| && |t.newB[origin]| < NEW_BUCKET_SIZE
      modifies this
      ensures Valid() && t.info == before.info && t.addrs == before.addrs
      ensures exists m :: SentBack(before, t, old(t).newB, n, m, origin)
    {
      hide Consistent, Refs, Shuffled, Cleared;
      BucketOk(before, triedHash, k);
      var p := SelectTried(k);
      ghost var shuffled := before.(tried := before.tried[k := t.tried[k]]);
      ShuffleOk(before, triedHash, k, t.tried[k]);
      TriedReplaceMember(shuffled, triedHash, n, p);
      var m := t.tried[k][p];
      var u := NewBucket(t.info[m].addr, t.info[m].source);
      var w := if |t.newB[u]| < NEW_BUCKET_SIZE then u else origin;
      EvictOk(shuffled, triedHash, n, t.newB, p, w);
      t := t.(inTried := t.inTried - {m}, refs := t.refs[m := 1]);
      t := t.(newB := t.newB[w := t.newB[w] + {m}], nNew := t.nNew + 1);
      t := t.(tried := t.tried[k := Replaced(t.tried[k], p, n)], inTried := t.inTried + {n});
      assert t == Evict(shuffled, triedHash, n, old(t).newB, p, w);
      assert SentBack(before, t, old(t).newB, n, m, origin);
    }

    static lemma OriginHasRoom(t: Tables, hash: Service -> nat, v: seq<set<nat>>, origin: nat, n: nat)
      requires Consistent(t, hash, None) && Cleared(v, t.newB, n) && origin < |t.newB| && n in t.newB[origin]
      ensures |v| == NEW_BUCKETS && |v[origin]| < NEW_BUCKET_SIZE
    {
      assert v[origin] == t.newB[origin] - {n};
      assert |t.newB[origin] - {n}| == |t.newB[origin]| - 1;
    }

    static lemma TriedReplaceMember(t: Tables, hash: Service -> nat, n: nat, p: nat)
      requires Consistent(t, hash, None) && n in t.info && n !in t.inTried
      requires p < |t.tried[TriedBucket(hash, t.info[n])]|
      ensures var m := t.tried[TriedBucket(hash, t.info[n])][p];
              m in t.inTried && m in t.info && m in t.refs && m != n
              && TriedBucket(hash, t.info[m]) == TriedBucket(hash, t.info[n])
    {
      ghost var k := TriedBucket(hash, t.info[n]);
      assert TriedEntryOk(t.info, t.inTried, hash, k, t.tried[k][p]);
      TriedReplace(t.info, t.inTried, t.tried, hash, p, n);
    }
  
    /** Good_: the entry was reached at a positive time; unless it is tried already it moves to the
        tried table. Its new bucket is always found. */
    method Good(a: Service, time: int)
      requires Valid() && time > 0
      modifies this
      ensures Valid() && t.addrs == old(t).addrs && t.info.Keys == old(t).info.Keys
      ensures forall n | n in t.info && t.info[n].addr == a ::
                && n in t.inTried
                && t.info[n] == old(t).info[n].(lastSuccess := time, lastTry := time, time := time, attempts := 0)
      ensures forall n, later | n in t.info && t.info[n].addr == a && later >= time ::
                t.info[n].IsTerrible(later) <==> later - time > 30 * 86_400
      ensures forall n | n in t.info && t.info[n].addr != a :: t.info[n] == old(t).info[n]
      ensures (forall n | n in old(t).info :: old(t).info[n].addr != a) ==> t == old(t)
    {
      hide Refs, RandomOk, TriedOk, RefsOk, RefsBounded, NewOk, TimesOk, Counted;
      var found := Find(a.ip);
      if found == None || t.info[found.value].addr != a {
        return;
      }
      var n := found.value;
      var e := t.info[n].(lastSuccess := time, lastTry := time, time := time, attempts := 0);
      UpdateInfoOk(t, triedHash, None, n, e);
      t := t.(info := t.info[n := e]);
      OnlyOne(t.info, t.addrs, n);
      if n in t.inTried {
        return;
      }
      var origin := FindBucket(n);
      ghost var v := MakeTried(n, origin);
      assert n in t.inTried;
    }

    static lemma OneEach(info: InfoMap, addrs: map<NetAddr, nat>)
      requires AddrOk(info, addrs)
      ensures forall m, n | m in info && n in info && info[m].addr == info[n].addr :: m == n
    {
    }

    static lemma OnlyOne(info: InfoMap, addrs: map<NetAddr, nat>, n: nat)
      requires AddrOk(info, addrs) && n in info
      ensures forall m | m in info && info[m].addr == info[n].addr :: m == n
    {
    }

    /** Good_'s search from a random start. */
    method FindBucket(n: nat) returns (b: nat)
      requires Valid() && n in t.info && n !in t.inTried
      ensures b < |t.newB| && n in t.newB[b]
    {
      hide Refs, RandomOk, TriedOk, NewOk, TimesOk, AddrOk;
      RefsZero(t.newB, n);
      NewShape(t, triedHash);
      var start: nat :| start < |t.newB|;
      ghost var home :| 0 <= home < |t.newB| && n in t.newB[home];
      ghost var steps := if home >= start then home - start else home - start + |t.newB|;
      assert (steps + start) % |t.newB| == home;
      b := 0;
      for i := 0 to |t.newB|
        invariant i <= steps
      {
        b := (i + start) % |t.newB|;
        if n in t.newB[b] {
          return;
        }
      }
      assert false;
    }

    /** Add_: routable is the address's own test, now the adjusted time. */
    method Add(a: Service, services: set<nat>, time: int, source: NetAddr, routable: bool, penalty: int, now: int)
      returns (fresh': bool, ghost n: nat, ghost mid: Tables)
      requires Valid()
      modifies this
      ensures Valid()
      ensures fresh' <==> routable && a.ip !in old(t).addrs
      ensures !routable ==> t == old(t)
      ensures routable && !fresh' ==>
                && n in old(t).info && old(t).info[n].addr.ip == a.ip
                && mid == old(t).(info := old(t).info[n := Refreshed(old(t).info[n], services, time, penalty, now)])
                && (t == mid || (MayRefer(mid, n, time) && Inserted(mid, t, n, NewBucket(mid.info[n].addr, source))))
      ensures fresh' ==>
                && n == old(t).idCount
                && mid == Create(old(t), Info(a, services, Max(0, time - penalty), source, 0, 0, 0)).(nNew := old(t).nNew + 1)
                && Inserted(mid, t, n, NewBucket(a, source))
      ensures t.inTried == old(t).inTried && t.tried == old(t).tried
    {
      fresh', n, mid := false, 0, t;
      if !routable {
        return;
      }
      hide Refs, RandomOk, TriedOk, RefsOk, NewOk, TimesOk, Inserted, Refreshed, MadeRoom, Create;
      var found := Find(a.ip);
      var id: nat;
      if found.Some? {
        id := found.value;
        var go := Refresh(id, services, time, penalty, now);
        n, mid := id, t;
        if !go {
          return;
        }
      } else {
        id := CreateNew(Info(a, services, Max(0, time - penalty), source, 0, 0, 0));
        fresh' := true;
        n, mid := id, t;
      }
      var b := NewBucket(t.info[id].addr, source);
      InsertNew(id, b, now, fresh');
    }

    /** Create for Add_: consistent once the entry's first reference is counted. */
    method CreateNew(e: Info) returns (id: nat)
      requires Valid() && e.addr.ip !in t.addrs && e.lastSuccess == 0 && e.lastTry == 0
      modifies this
      ensures t == Create(old(t), e).(nNew := old(t).nNew + 1) && id == old(t).idCount
      ensures id in t.info && t.info[id] == e && id in t.refs && t.refs[id] == 0
      ensures Consistent(t.(refs := t.refs[id := 1]), triedHash, Some(id))
      ensures t.inTried == old(t).inTried && t.tried == old(t).tried
    {
      hide Refs, RandomOk, TriedOk, RefsOk, NewOk, TimesOk, AddrOk, RefsBounded;
      id := t.idCount;
      CreateOk(t, triedHash, e);
      t := Create(t, e);
      t := t.(nNew := t.nNew + 1);
    }

    /** What Add_ makes of a known entry: a later time, and all the services. */
    static function Refreshed(e: Info, services: set<nat>, time: int, penalty: int, now: int): Info {
      var interval := if now - time < 86400 then 3600 else 86400;
      var time' := if time != 0 && (e.time == 0 || e.time < time - interval - penalty) then Max(0, time - penalty) else e.time;
      e.(time := time', services := e.services + services)
    }

    /** The time never goes back: it moves on by more than an hour, or a day for old news, or stays. */
    static lemma RefreshedForward(e: Info, services: set<nat>, time: int, penalty: int, now: int)
      ensures var r := Refreshed(e, services, time, penalty, now);
              var gap := if now - time < 86_400 then 3_600 else 86_400;
              && r.services == e.services + services && r == e.(time := r.time, services := r.services)
              && r.time >= e.time
              && (time == 0 ==> r.time == e.time)
              && (time != 0 && e.time == 0 ==> r.time == if time >= penalty then time - penalty else 0)
              && (e.time > 0 ==> if time != 0 && time - penalty - e.time > gap then r.time == time - penalty else r.time == e.time)
    {
    }

    /** There is news about the entry, and it may get one more reference. */
    static predicate MayRefer(t: Tables, n: nat, time: int) {
      && n in t.info && n in t.refs
      && time != 0 && (t.info[n].time == 0 || time > t.info[n].time)
      && n !in t.inTried && t.refs[n] < MAX_REFS
    }

    /** n is in bucket b afterwards; if that was full, one entry of it has made room, and is
        forgotten if this was its last reference. */
    static ghost predicate Inserted(s: Tables, t: Tables, n: nat, b: nat) {
      && b < |s.newB| && n in s.refs
      && if n in s.newB[b] then t == s
         else if |s.newB[b]| < NEW_BUCKET_SIZE then
           t == s.(newB := s.newB[b := s.newB[b] + {n}], refs := s.refs[n := s.refs[n] + 1])
         else exists m :: MadeRoom(s, t, n, b, m)
    }

    static predicate MadeRoom(s: Tables, t: Tables, n: nat, b: nat, m: nat) {
      && b < |s.newB| && m in s.newB[b] && m in s.refs
      && t.newB == s.newB[b := s.newB[b] - {m} + {n}]
      && t.info == if s.refs[m] == 1 then s.info - {m} else s.info
    }

    static function Max(a: int, b: int): int {
      if a < b then b else a
    }

    /** Add_ on a known address: refresh its time and services, and decide whether to add one more
        reference. */
    method Refresh(n: nat, services: set<nat>, time: int, penalty: int, now: int) returns (go: bool)
      requires Valid() && n in t.info
      modifies this
      ensures Valid() && t.addrs == old(t).addrs && n in t.info && t.info[n].addr == old(t).info[n].addr
      ensures go ==> MayRefer(t, n, time)
      ensures t == old(t).(info := old(t).info[n := Refreshed(old(t).info[n], services, time, penalty, now)])
    {
      hide Refs, RandomOk, TriedOk, RefsOk, NewOk, AddrOk;
      var e := t.info[n];
      var interval := if now - time < 86400 then 3600 else 86400;
      if time != 0 && (e.time == 0 || e.time < time - interval - penalty) {
        e := e.(time := Max(0, time - penalty));
      }
      e := e.(services := e.services + services);
      UpdateInfoOk(t, triedHash, None, n, e);
      t := t.(info := t.info[n := e]);
      if time == 0 || (e.time != 0 && time <= e.time) {
        return false;
      }
      if n in t.inTried {
        return false;
      }
      if t.refs[n] == MAX_REFS {
        return false;
      }
      var lucky: bool := *;   // GetRandInt(2^nRefCount) == 0
      return lucky;
    }

    /** The end of Add_: count the reference, make room, insert. A fresh entry has no reference yet
        and is consistent only with its first one pending. */
    method InsertNew(n: nat, b: nat, now: int, isFresh: bool)
      requires b < NEW_BUCKETS && n in t.info && n in t.refs
      requires if isFresh then Consistent(t.(refs := t.refs[n := 1]), triedHash, Some(n)) && t.refs[n] == 0
               else Valid() && n !in t.inTried && t.refs[n] < MAX_REFS
      modifies this
      ensures Valid() && |t.newB| == NEW_BUCKETS
      ensures Inserted(old(t), t, n, b)
      ensures n in t.newB[b] && n in t.info && t.info[n] == old(t).info[n]
      ensures t.inTried == old(t).inTried && t.tried == old(t).tried
    {
      hide Refs, RandomOk, TriedOk, RefsOk, RefsBounded, TimesOk, AddrOk, Counted;
      if isFresh {
        FreshNowhere(t, triedHash, n);
      }
      if n !in t.newB[b] {
        if !isFresh {
          CountOk(t, triedHash, n);
        }
        t := t.(refs := t.refs[n := t.refs[n] + 1]);
        assert Consistent(t, triedHash, Some(n));
        if |t.newB[b]| == NEW_BUCKET_SIZE {
          ghost var m := MakeRoom(b, now, n);
          SettleOk(t, triedHash, b, n);
          RoomMade(old(t), t, n, b, m);
          t := t.(newB := t.newB[b := t.newB[b] + {n}]);
        } else {
          SettleOk(t, triedHash, b, n);
          t := t.(newB := t.newB[b := t.newB[b] + {n}]);
        }
      }
    }

    /** ShrinkNew while the reference of n is pending: some other entry m leaves the bucket. */
    method MakeRoom(b: nat, now: int, ghost n: nat) returns (ghost m: nat)
      requires Consistent(t, triedHash, Some(n)) && b < |t.newB| && t.newB[b] != {} && n !in t.newB[b]
      requires |t.newB[b]| == NEW_BUCKET_SIZE
      modifies this
      ensures Consistent(t, triedHash, Some(n)) && |t.newB| == |old(t).newB| && |t.newB[b]| < NEW_BUCKET_SIZE
      ensures m in old(t).newB[b] && m in old(t).refs && m != n
      ensures t.newB == old(t).newB[b := old(t).newB[b] - {m}]
      ensures t.info == if old(t).refs[m] == 1 then old(t).info - {m} else old(t).info
      ensures t.inTried == old(t).inTried && t.tried == old(t).tried
    {
      hide Refs, RandomOk, TriedOk, RefsOk, RefsBounded, TimesOk, AddrOk, NewOk;
      ghost var before := t;
      var r := ShrinkNew(b, now, Some(n));
      m :| Chosen(before, b, now, m, r) && Shrunk(before, t, b, m);
      assert |before.newB[b] - {m}| == |before.newB[b]| - 1;
    }

    static lemma RoomMade(s: Tables, r: Tables, n: nat, b: nat, m: nat)
      requires b < |s.newB| && n in s.refs && m in s.newB[b] && m in s.refs && m != n && n !in s.newB[b]
      requires |s.newB[b]| == NEW_BUCKET_SIZE && r.newB == s.newB[b := s.newB[b] - {m}]
      requires r.info == if s.refs[m] == 1 then s.info - {m} else s.info
      ensures Inserted(s, r.(newB := r.newB[b := r.newB[b] + {n}]), n, b)
    {
      assert MadeRoom(s, r.(newB := r.newB[b := r.newB[b] + {n}]), n, b, m);
    }

    /** An entry whose only reference is pending is in no bucket. */
    static lemma FreshNowhere(t: Tables, hash: Service -> nat, n: nat)
      requires n in t.refs && Consistent(t.(refs := t.refs[n := 1]), hash, Some(n))
      ensures forall b | 0 <= b < |t.newB| :: n !in t.newB[b]
    {
      RefsZero(t.newB, n);
    }

    /** Attempt_. */
    method Attempt(a: Service, time: int)
      requires Valid() && time >= 0
      modifies this
      ensures Valid()
      ensures t == old(t).(info := t.info) && t.info.Keys == old(t).info.Keys
      ensures forall n | n in t.info :: t.info[n] == if old(t).info[n].addr == a
                then old(t).info[n].(lastTry := time, attempts := old(t).info[n].attempts + 1) else old(t).info[n]
    {
      hide Refs, RandomOk, TriedOk, RefsOk, RefsBounded, NewOk;
      var found := Find(a.ip);
      if found == None || t.info[found.value].addr != a {
        return;
      }
      var n := found.value;
      OnlyOne(t.info, t.addrs, n);
      var e := t.info[n].(lastTry := time, attempts := t.info[n].attempts + 1);
      UpdateInfoOk(t, triedHash, None, n, e);
      t := t.(info := t.info[n := e]);
    }

    /** Connected_. */
    method Connected(a: Service, time: int)
      requires Valid()
      modifies this
      ensures Valid()
      ensures t == old(t).(info := t.info) && t.info.Keys == old(t).info.Keys
      ensures forall n | n in t.info :: t.info[n] ==
                if old(t).info[n].addr == a && time - old(t).info[n].time > 20 * 60
                then old(t).info[n].(time := time) else old(t).info[n]
    {
      hide Refs, RandomOk, TriedOk, RefsOk, RefsBounded, NewOk;
      OneEach(t.info, t.addrs);
      var found := Find(a.ip);
      if found == None || t.info[found.value].addr != a {
        return;
      }
      var n := found.value;
      if time - t.info[n].time > 20 * 60 {
        var e := t.info[n].(time := time);
        UpdateInfoOk(t, triedHash, None, n, e);
        t := t.(info := t.info[n := e]);
      }
    }

    /** GetAddr_: 23 percent of the addresses, at most 2500, without repetition. */
    method GetAddr() returns (v: seq<Service>)
      requires Valid()
      modifies this
      ensures Valid() && t.info == old(t).info
      ensures var n := 23 * |old(t).random| / 100; |v| == if n > 2500 then 2500 else n
      ensures forall i, j | 0 <= i < j < |v| :: v[i].ip != v[j].ip
      ensures forall i | 0 <= i < |v| :: v[i].ip in t.addrs && t.info[t.addrs[v[i].ip]].addr == v[i]
    {
      hide Consistent, Swapped;
      var nodes := 23 * |t.random| / 100;
      if nodes > 2500 {
        nodes := 2500;
      }
      v := [];
      for n := 0 to nodes
        invariant Valid() && |t.random| == |old(t).random| && t.info == old(t).info && t.addrs == old(t).addrs
        invariant |v| == n && forall i | 0 <= i < n :: t.random[i] in t.info && v[i] == t.info[t.random[i]].addr
      {
        var q: nat :| n <= q < |t.random|;
        SwapOk(t, triedHash, n, q);
        InverseOf(t, triedHash, None);
        SwapFront(t.random, n, q);
        SwapRandom(n, q);
        KnownAt(t, triedHash);
        v := v + [t.info[t.random[n]].addr];
      }
      KnownAt(t, triedHash);
    }

    /** vRandom lists known, different addresses. */
    static lemma KnownAt(t: Tables, hash: Service -> nat)
      requires Consistent(t, hash, None)
      ensures forall i | 0 <= i < |t.random| :: t.random[i] in t.info
                && t.info[t.random[i]].addr.ip in t.addrs && t.addrs[t.info[t.random[i]].addr.ip] == t.random[i]
      ensures Distinct(t.random)
    {
      hide Refs, TriedOk, RefsOk, RefsBounded, NewOk, TimesOk;
      forall i, j | 0 <= i < j < |t.random|
        ensures t.random[i] != t.random[j]
      {
        assert t.pos[t.random[i]] == i && t.pos[t.random[j]] == j;
      }
    }

    static lemma SwapOk(t: Tables, hash: Service -> nat, i: nat, j: nat)
      requires Consistent(t, hash, None) && i < |t.random| && j < |t.random|
      ensures Consistent(Swap(t, i, j), hash, None)
    {
      hide Refs, TriedOk, RefsOk, RefsBounded, NewOk, TimesOk, AddrOk;
      RandomSwap(t.info.Keys, t.random, t.pos, i, j);
    }

    static lemma SwapFront(s: seq<nat>, i: nat, j: nat)
      requires i <= j < |s|
      ensures forall k | 0 <= k < i :: Swapped(s, i, j)[k] == s[k]
    {
    }
  }
}
