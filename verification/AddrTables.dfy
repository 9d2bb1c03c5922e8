/** The tables of CAddrMan (src/addrman.h) as values, what Check_ (src/addrman.cpp) demands of
    them, and the counting facts behind it. */
module AddrTables {
  import opened Basics

  type NetAddr = nat

  datatype Service = Service(ip: NetAddr, port: nat)

  const TRIED_BUCKETS := 64
  const TRIED_BUCKET_SIZE := 64
  const NEW_BUCKETS := 256
  const NEW_BUCKET_SIZE := 64
  const MAX_REFS := 4   // ADDRMAN_NEW_BUCKETS_PER_ADDRESS

  /** The descriptive part of CAddrInfo. nRefCount, fInTried and nRandomPos are tables of their
      own, keyed by id. */
  datatype Info = Info(addr: Service, services: set<nat>, time: int, source: NetAddr,
                       lastSuccess: int, lastTry: int, attempts: int)
  {
    /** CAddrInfo::IsTerrible. */
    predicate IsTerrible(now: int) {
      if lastTry != 0 && lastTry >= now - 60 then false
      else
        || time > now + 10 * 60
        || time == 0 || now - time > 30 * 86400
        || (lastSuccess == 0 && attempts >= 3)
        || (now - lastSuccess > 7 * 86400 && attempts >= 10)
    }
  }

  /** An entry is kept exactly if it was tried in the last minute, or was seen within thirty days and
      not in the future, and was reached once or tried at most twice, and was reached within a week or
      has failed at most nine times. */
  lemma KeptExactly(e: Info, now: int)
    ensures !e.IsTerrible(now) <==>
            || (e.lastTry != 0 && now - e.lastTry <= 60)
            || (&& e.time != 0 && now - 2_592_000 <= e.time <= now + 600
                && (e.lastSuccess != 0 || e.attempts <= 2)
                && (e.lastSuccess >= now - 604_800 || e.attempts <= 9))
  {
  }

  /** Nothing but a renewed success or sighting makes a terrible entry good: it stays terrible for as
      long as it is left alone, unless its time was in the future. */
  lemma TerribleStays(e: Info, now: int, later: int)
    requires e.IsTerrible(now) && now <= later && e.time <= now + 600
    ensures e.IsTerrible(later)
  {
  }

  /** An entry that was just reached is kept for thirty days and no longer. */
  lemma ReachedLasts(e: Info, time: int, later: int)
    requires 0 < time <= later
    requires e.lastSuccess == time && e.lastTry == time && e.time == time && e.attempts == 0
    ensures e.IsTerrible(later) <==> later - time > 30 * 86_400
  {
  }

  type InfoMap = map<nat, Info>

  // ----- vRandom and nRandomPos

  /** vRandom lists the ids once each, and pos is its inverse. */
  predicate RandomOk(ids: set<nat>, random: seq<nat>, pos: map<nat, nat>) {
    && pos.Keys == ids
    && (forall p | 0 <= p < |random| :: random[p] in ids && pos[random[p]] == p)
    && (forall n | n in ids :: pos[n] < |random| && random[pos[n]] == n)
  }

  lemma {:induction false} RandomSize(ids: set<nat>, random: seq<nat>, pos: map<nat, nat>)
    requires RandomOk(ids, random, pos)
    ensures |random| == |ids|
    decreases |random|
  {
    if random == [] {
      assert ids == {};
    } else {
      var last := |random| - 1;
      var n := random[last];
      RandomPop(ids, random, pos);
      RandomSize(ids - {n}, random[..last], pos - {n});
      assert |ids - {n}| == |ids| - 1;
    }
  }

  lemma RandomPop(ids: set<nat>, random: seq<nat>, pos: map<nat, nat>)
    requires RandomOk(ids, random, pos) && random != []
    ensures var n := random[|random| - 1];
            n in ids && RandomOk(ids - {n}, random[..|random| - 1], pos - {n})
  {
  }

  lemma RandomPush(ids: set<nat>, random: seq<nat>, pos: map<nat, nat>, n: nat)
    requires RandomOk(ids, random, pos) && n !in ids
    ensures RandomOk(ids + {n}, random + [n], pos[n := |random|])
  {
  }

  // ----- mapAddr

  /** mapAddr is the inverse of the network addresses of mapInfo. */
  predicate AddrOk(info: InfoMap, addrs: map<NetAddr, nat>) {
    && (forall n | n in info :: info[n].addr.ip in addrs && addrs[info[n].addr.ip] == n)
    && (forall a | a in addrs :: addrs[a] in info && info[addrs[a]].addr.ip == a)
  }

  // ----- new buckets and nRefCount

  /** In how many new buckets n is. */
  function Refs(buckets: seq<set<nat>>, n: nat): nat {
    if buckets == [] then 0
    else Refs(buckets[..|buckets| - 1], n) + if n in buckets[|buckets| - 1] then 1 else 0
  }

  lemma {:induction false} RefsUpdate(buckets: seq<set<nat>>, b: nat, s: set<nat>, n: nat)
    requires b < |buckets|
    ensures Refs(buckets[b := s], n)
         == Refs(buckets, n) + (if n in s then 1 else 0) - (if n in buckets[b] then 1 else 0)
  {
    var last := |buckets| - 1;
    if b < last {
      RefsUpdate(buckets[..last], b, s, n);
      assert buckets[b := s][..last] == buckets[..last][b := s];
    } else {
      assert buckets[b := s][..last] == buckets[..last];
    }
  }

  lemma {:induction false} RefsZero(buckets: seq<set<nat>>, n: nat)
    ensures Refs(buckets, n) == 0 <==> forall b | 0 <= b < |buckets| :: n !in buckets[b]
  {
    if buckets != [] {
      RefsZero(buckets[..|buckets| - 1], n);
      assert forall b | 0 <= b < |buckets| - 1 :: buckets[..|buckets| - 1][b] == buckets[b];
    }
  }

  /** nRefCount is the number of new buckets that hold the id, plus one for a reference that is
      counted but not yet in its bucket. */
  predicate RefsOk(refs: map<nat, int>, buckets: seq<set<nat>>, pending: Option<nat>) {
    forall n | n in refs :: refs[n] == Refs(buckets, n) + if pending == Some(n) then 1 else 0
  }

  /** Exactly the ids outside the tried table have references, from 1 to 4. */
  predicate RefsBounded(refs: map<nat, int>, inTried: set<nat>) {
    forall n | n in refs :: if n in inTried then refs[n] == 0 else 1 <= refs[n] <= MAX_REFS
  }

  /** New buckets hold known ids, and at most 64 of them. */
  predicate NewOk(ids: set<nat>, buckets: seq<set<nat>>) {
    |buckets| == NEW_BUCKETS && forall b | 0 <= b < |buckets| :: buckets[b] <= ids && |buckets[b]| <= NEW_BUCKET_SIZE
  }

  // ----- tried buckets

  /** GetTriedBucket, with the keyed hash as a function of the address. */
  function TriedBucket(hash: Service -> nat, i: Info): nat {
    hash(i.addr) % TRIED_BUCKETS
  }

  predicate TriedEntryOk(info: InfoMap, inTried: set<nat>, hash: Service -> nat, b: nat, n: nat) {
    n in inTried && n in info && TriedBucket(hash, info[n]) == b
  }

  predicate TriedHome(info: InfoMap, tried: seq<seq<nat>>, hash: Service -> nat, n: nat) {
    n in info && TriedBucket(hash, info[n]) < |tried| && n in tried[TriedBucket(hash, info[n])]
  }

  /** The tried ids are in their own bucket, once; nothing else is in a tried bucket. */
  predicate TriedOk(info: InfoMap, inTried: set<nat>, tried: seq<seq<nat>>, hash: Service -> nat) {
    && |tried| == TRIED_BUCKETS
    && (forall b | 0 <= b < |tried| :: Distinct(tried[b]) && |tried[b]| <= TRIED_BUCKET_SIZE)
    && (forall b, i | 0 <= b < |tried| && 0 <= i < |tried[b]| :: TriedEntryOk(info, inTried, hash, b, tried[b][i]))
    && (forall n | n in inTried :: TriedHome(info, tried, hash, n))
  }

  // ----- times

  predicate TimesOk(info: InfoMap, inTried: set<nat>) {
    forall n | n in info ::
      info[n].lastTry >= 0 && info[n].lastSuccess >= 0 && (n in inTried ==> info[n].lastSuccess != 0)
  }

  // ----- how the parts react to a change

  function Swapped<T>(s: seq<T>, i: nat, j: nat): (r: seq<T>)
    requires i < |s| && j < |s|
    ensures |r| == |s| && r[j] == s[i] && r[i] == s[j]
  {
    s[i := s[j]][j := s[i]]
  }

  lemma RandomSwap(ids: set<nat>, random: seq<nat>, pos: map<nat, nat>, i: nat, j: nat)
    requires RandomOk(ids, random, pos) && i < |random| && j < |random|
    ensures RandomOk(ids, Swapped(random, i, j), pos[random[i] := j][random[j] := i])
  {
    var r, q := Swapped(random, i, j), pos[random[i] := j][random[j] := i];
    forall p | 0 <= p < |r|
      ensures r[p] in ids && q[r[p]] == p
    {
      assert random[p] in ids && pos[random[p]] == p;
      assert pos[random[i]] == i && pos[random[j]] == j;
    }
    forall n | n in ids
      ensures q[n] < |r| && r[q[n]] == n
    {
      assert pos[n] < |random| && random[pos[n]] == n;
    }
  }

  lemma AddrRemove(info: InfoMap, addrs: map<NetAddr, nat>, n: nat)
    requires AddrOk(info, addrs) && n in info
    ensures AddrOk(info - {n}, addrs - {info[n].addr.ip})
  {
  }

  lemma AddrCreate(info: InfoMap, addrs: map<NetAddr, nat>, n: nat, i: Info)
    requires AddrOk(info, addrs) && n !in info && i.addr.ip !in addrs
    ensures AddrOk(info[n := i], addrs[i.addr.ip := n])
  {
  }

  /** Taking n out of bucket b and lowering its count. */
  lemma RefsDrop(refs: map<nat, int>, buckets: seq<set<nat>>, pending: Option<nat>, b: nat, n: nat)
    requires RefsOk(refs, buckets, pending) && n in refs && b < |buckets| && n in buckets[b]
    ensures RefsOk(refs[n := refs[n] - 1], buckets[b := buckets[b] - {n}], pending)
  {
    var r, v := refs[n := refs[n] - 1], buckets[b := buckets[b] - {n}];
    forall m | m in r
      ensures r[m] == Refs(v, m) + if pending == Some(m) then 1 else 0
    {
      RefsUpdate(buckets, b, buckets[b] - {n}, m);
    }
  }

  /** Putting n into bucket b settles the pending reference. */
  lemma RefsInsert(refs: map<nat, int>, buckets: seq<set<nat>>, b: nat, n: nat)
    requires RefsOk(refs, buckets, Some(n)) && b < |buckets| && n !in buckets[b]
    ensures RefsOk(refs, buckets[b := buckets[b] + {n}], None)
  {
    var v := buckets[b := buckets[b] + {n}];
    forall m | m in refs
      ensures refs[m] == Refs(v, m)
    {
      RefsUpdate(buckets, b, buckets[b] + {n}, m);
    }
  }

  lemma TriedIgnores(info: InfoMap, inTried: set<nat>, tried: seq<seq<nat>>, hash: Service -> nat, n: nat)
    requires TriedOk(info, inTried, tried, hash) && n !in inTried
    ensures TriedOk(info - {n}, inTried, tried, hash)
  {
    forall b, i | 0 <= b < |tried| && 0 <= i < |tried[b]|
      ensures TriedEntryOk(info - {n}, inTried, hash, b, tried[b][i])
    {
      assert TriedEntryOk(info, inTried, hash, b, tried[b][i]);
    }
    forall m | m in inTried
      ensures TriedHome(info - {n}, tried, hash, m)
    {
      assert TriedHome(info, tried, hash, m);
    }
  }

  /** Writing an entry that is not tried, or one that keeps its address. */
  lemma TriedKeeps(info: InfoMap, inTried: set<nat>, tried: seq<seq<nat>>, hash: Service -> nat, n: nat, e: Info)
    requires TriedOk(info, inTried, tried, hash) && (n in inTried ==> n in info && info[n].addr == e.addr)
    ensures TriedOk(info[n := e], inTried, tried, hash)
  {
    forall b, i | 0 <= b < |tried| && 0 <= i < |tried[b]|
      ensures TriedEntryOk(info[n := e], inTried, hash, b, tried[b][i])
    {
      assert TriedEntryOk(info, inTried, hash, b, tried[b][i]);
    }
    forall m | m in inTried
      ensures TriedHome(info[n := e], tried, hash, m)
    {
      assert TriedHome(info, tried, hash, m);
    }
  }

  lemma NewDrop(ids: set<nat>, buckets: seq<set<nat>>, b: nat, n: nat)
    requires NewOk(ids, buckets) && b < |buckets|
    ensures NewOk(ids, buckets[b := buckets[b] - {n}])
  {
    SubsetSize(buckets[b] - {n}, buckets[b]);
  }

  lemma NewForget(ids: set<nat>, buckets: seq<set<nat>>, n: nat)
    requires NewOk(ids, buckets) && forall b | 0 <= b < |buckets| :: n !in buckets[b]
    ensures NewOk(ids - {n}, buckets)
  {
  }

  lemma PosOf(ids: set<nat>, random: seq<nat>, pos: map<nat, nat>, n: nat)
    requires RandomOk(ids, random, pos) && n in ids
    ensures n in pos && pos[n] < |random| && random[pos[n]] == n
  {
  }

  lemma TimesForget(info: InfoMap, inTried: set<nat>, n: nat)
    requires TimesOk(info, inTried)
    ensures TimesOk(info - {n}, inTried)
  {
  }

  lemma MapRemove<V>(m: map<nat, V>, n: nat)
    requires n in m
    ensures (m - {n}).Keys == m.Keys - {n} && |m - {n}| == |m| - 1
  {
    assert (m - {n}).Keys == m.Keys - {n};
    assert |m.Keys - {n}| == |m.Keys| - 1;
  }

  // ----- all tables together

  datatype Tables = Tables(
    idCount: nat,
    info: InfoMap,
    addrs: map<NetAddr, nat>,
    random: seq<nat>,
    pos: map<nat, nat>,        // nRandomPos
    refs: map<nat, int>,       // nRefCount
    inTried: set<nat>,         // fInTried
    nTried: int,
    tried: seq<seq<nat>>,
    nNew: int,
    newB: seq<set<nat>>)

  predicate Counted(t: Tables) {
    && t.refs.Keys == t.info.Keys && t.inTried <= t.info.Keys
    && t.nTried == |t.inTried| && t.nNew == |t.info| - |t.inTried|
    && forall n | n in t.info :: n < t.idCount
  }

  /** Check_ and the bucket sizes; pending is an id whose reference was counted before it is put
      into its bucket. */
  predicate Consistent(t: Tables, hash: Service -> nat, pending: Option<nat>) {
    && Counted(t)
    && RandomOk(t.info.Keys, t.random, t.pos)
    && AddrOk(t.info, t.addrs)
    && RefsOk(t.refs, t.newB, pending) && RefsBounded(t.refs, t.inTried)
    && NewOk(t.info.Keys, t.newB)
    && TriedOk(t.info, t.inTried, t.tried, hash)
    && TimesOk(t.info, t.inTried)
  }

  const EMPTY := Tables(0, map[], map[], [], map[], map[], {}, 0, seq(TRIED_BUCKETS, _ => []), 0, seq(NEW_BUCKETS, _ => {}))

  lemma EmptyOk(hash: Service -> nat)
    ensures Consistent(EMPTY, hash, None)
  {
  }

  /** SwapRandom. */
  function Swap(t: Tables, i: nat, j: nat): Tables
    requires i < |t.random| && j < |t.random|
  {
    t.(random := Swapped(t.random, i, j), pos := t.pos[t.random[i] := j][t.random[j] := i])
  }

  /** The entry n leaves vRandom (after moving to its end), mapAddr and mapInfo. */
  function Erase(t: Tables, n: nat): Tables
    requires n in t.info && n in t.pos && t.pos[n] < |t.random|
  {
    var s := Swap(t, t.pos[n], |t.random| - 1);
    s.(random := s.random[..|s.random| - 1], pos := s.pos - {n},
       addrs := s.addrs - {s.info[n].addr.ip}, info := s.info - {n}, refs := s.refs - {n}, nNew := s.nNew - 1)
  }

  /** One reference of n is dropped from bucket b, and the entry with it when it was the last. */
  function DropRef(t: Tables, b: nat, n: nat): Tables
    requires b < |t.newB| && n in t.refs && n in t.info && n in t.pos && t.pos[n] < |t.random|
  {
    var s := t.(refs := t.refs[n := t.refs[n] - 1]);
    var s := if s.refs[n] == 0 then Erase(s, n) else s;
    s.(newB := s.newB[b := s.newB[b] - {n}])
  }

  /** What is in a new bucket is known and not tried. */
  lemma InBucketIsNew(t: Tables, hash: Service -> nat, pending: Option<nat>, b: nat, n: nat)
    requires Consistent(t, hash, pending) && b < |t.newB| && n in t.newB[b]
    ensures n in t.info && n in t.refs && n !in t.inTried && t.refs[n] >= 1
    ensures n in t.pos && t.pos[n] < |t.random| && t.random[t.pos[n]] == n
  {
    RefsZero(t.newB, n);
    PosOf(t.info.Keys, t.random, t.pos, n);
  }

  lemma EraseRandom(t: Tables, n: nat)
    requires RandomOk(t.info.Keys, t.random, t.pos) && n in t.info
    ensures n in t.pos && t.pos[n] < |t.random|
    ensures RandomOk(Erase(t, n).info.Keys, Erase(t, n).random, Erase(t, n).pos)
  {
    hide RandomOk, Swapped;
    PosOf(t.info.Keys, t.random, t.pos, n);
    var s := Swap(t, t.pos[n], |t.random| - 1);
    RandomSwap(t.info.Keys, t.random, t.pos, t.pos[n], |t.random| - 1);
    RandomPop(s.info.Keys, s.random, s.pos);
    MapRemove(t.info, n);
  }

  lemma EraseOk(t: Tables, hash: Service -> nat, n: nat)
    requires Counted(t) && RandomOk(t.info.Keys, t.random, t.pos) && AddrOk(t.info, t.addrs)
    requires TriedOk(t.info, t.inTried, t.tried, hash) && TimesOk(t.info, t.inTried)
    requires n in t.info && n !in t.inTried
    ensures n in t.pos && t.pos[n] < |t.random|
    ensures var s := Erase(t, n);
            && Counted(s) && RandomOk(s.info.Keys, s.random, s.pos) && AddrOk(s.info, s.addrs)
            && TriedOk(s.info, s.inTried, s.tried, hash) && TimesOk(s.info, s.inTried)
  {
    hide RandomOk, AddrOk, TriedOk, TimesOk, Swapped;
    EraseRandom(t, n);
    AddrRemove(t.info, t.addrs, n);
    TriedIgnores(t.info, t.inTried, t.tried, hash, n);
    TimesForget(t.info, t.inTried, n);
    MapRemove(t.info, n);
  }

  lemma BoundedDrop(refs: map<nat, int>, inTried: set<nat>, n: nat)
    requires RefsBounded(refs, inTried) && n in refs && n !in inTried
    ensures var r := refs[n := refs[n] - 1];
            RefsBounded(if r[n] == 0 then r - {n} else r, inTried)
  {
  }

  lemma LastRefGone(refs: map<nat, int>, buckets: seq<set<nat>>, pending: Option<nat>, n: nat)
    requires RefsOk(refs, buckets, pending) && n in refs && refs[n] == 0
    ensures forall b | 0 <= b < |buckets| :: n !in buckets[b]
    ensures RefsOk(refs - {n}, buckets, pending)
  {
    RefsZero(buckets, n);
  }

  lemma DropRefOk(t: Tables, hash: Service -> nat, pending: Option<nat>, b: nat, n: nat)
    requires Consistent(t, hash, pending) && b < |t.newB| && n in t.newB[b] && pending != Some(n)
    ensures n in t.info && n in t.refs && n !in t.inTried && n in t.pos && t.pos[n] < |t.random|
    ensures Consistent(DropRef(t, b, n), hash, pending)
  {
    hide RandomOk, AddrOk, TriedOk, TimesOk, Erase, RefsOk, RefsBounded, NewOk;
    InBucketIsNew(t, hash, pending, b, n);
    RefsDrop(t.refs, t.newB, pending, b, n);
    NewDrop(t.info.Keys, t.newB, b, n);
    BoundedDrop(t.refs, t.inTried, n);
    var v := t.newB[b := t.newB[b] - {n}];
    var s := t.(refs := t.refs[n := t.refs[n] - 1]);
    if s.refs[n] == 0 {
      LastRefGone(s.refs, v, pending, n);
      NewForget(t.info.Keys, v, n);
      EraseOk(s, hash, n);
      EraseKeeps(s, n);
      MapRemove(t.info, n);
    }
  }

  lemma EraseKeeps(t: Tables, n: nat)
    requires n in t.info && n in t.pos && t.pos[n] < |t.random|
    ensures var s := Erase(t, n);
            && s.info == t.info - {n} && s.refs == t.refs - {n} && s.inTried == t.inTried && s.tried == t.tried
            && s.newB == t.newB && s.idCount == t.idCount && s.nTried == t.nTried
  {
  }

  // ----- adding

  lemma UpdateInfoOk(t: Tables, hash: Service -> nat, pending: Option<nat>, n: nat, e: Info)
    requires Consistent(t, hash, pending) && n in t.info && e.addr == t.info[n].addr
    requires e.lastTry >= 0 && e.lastSuccess >= 0 && (n in t.inTried ==> e.lastSuccess != 0)
    ensures Consistent(t.(info := t.info[n := e]), hash, pending)
  {
    hide RandomOk, RefsOk, RefsBounded, NewOk, TriedOk, TimesOk;
    TimesAdd(t.info, t.inTried, n, e);
    TriedKeeps(t.info, t.inTried, t.tried, hash, n, e);
    assert t.info[n := e].Keys == t.info.Keys;
  }

  /** Create: a new id at the end of vRandom, with no reference yet. */
  function Create(t: Tables, e: Info): Tables {
    var n := t.idCount;
    t.(idCount := n + 1, info := t.info[n := e], addrs := t.addrs[e.addr.ip := n],
       random := t.random + [n], pos := t.pos[n := |t.random|], refs := t.refs[n := 0])
  }

  lemma FirstRef(refs: map<nat, int>, buckets: seq<set<nat>>, ids: set<nat>, inTried: set<nat>, n: nat)
    requires RefsOk(refs, buckets, None) && RefsBounded(refs, inTried) && NewOk(ids, buckets)
    requires n !in ids && n !in inTried
    ensures RefsOk(refs[n := 1], buckets, Some(n)) && RefsBounded(refs[n := 1], inTried) && NewOk(ids + {n}, buckets)
  {
    RefsZero(buckets, n);
  }

  lemma TimesAdd(info: InfoMap, inTried: set<nat>, n: nat, e: Info)
    requires TimesOk(info, inTried) && e.lastTry >= 0 && e.lastSuccess >= 0 && (n in inTried ==> e.lastSuccess != 0)
    ensures TimesOk(info[n := e], inTried)
  {
  }

  /** A created entry is consistent once it is counted as new and its first reference is pending. */
  lemma CreateOk(t: Tables, hash: Service -> nat, e: Info)
    requires Consistent(t, hash, None) && e.addr.ip !in t.addrs && e.lastTry >= 0 && e.lastSuccess >= 0
    ensures var n, s := t.idCount, Create(t, e);
            Consistent(s.(nNew := s.nNew + 1, refs := s.refs[n := 1]), hash, Some(n))
  {
    hide RandomOk, AddrOk, TriedOk, RefsOk, RefsBounded, NewOk, TimesOk;
    var n := t.idCount;
    assert n !in t.info && n !in t.inTried;
    FirstRef(t.refs, t.newB, t.info.Keys, t.inTried, n);
    TimesAdd(t.info, t.inTried, n, e);
    RandomPush(t.info.Keys, t.random, t.pos, n);
    AddrCreate(t.info, t.addrs, n, e);
    TriedKeeps(t.info, t.inTried, t.tried, hash, n, e);
    assert t.info[n := e].Keys == t.info.Keys + {n};
    assert t.refs[n := 0][n := 1] == t.refs[n := 1];
    assert |t.info.Keys + {n}| == |t.info.Keys| + 1;
  }

  lemma CountOk(t: Tables, hash: Service -> nat, n: nat)
    requires Consistent(t, hash, None) && n in t.info && n !in t.inTried && t.refs[n] < MAX_REFS
    ensures Consistent(t.(refs := t.refs[n := t.refs[n] + 1]), hash, Some(n))
  {
    hide RandomOk, AddrOk, TriedOk, NewOk, TimesOk;
    assert t.refs[n := t.refs[n] + 1].Keys == t.refs.Keys;
  }

  lemma SettleOk(t: Tables, hash: Service -> nat, b: nat, n: nat)
    requires Consistent(t, hash, Some(n)) && n in t.info && b < |t.newB| && n !in t.newB[b]
    requires |t.newB[b]| < NEW_BUCKET_SIZE
    ensures Consistent(t.(newB := t.newB[b := t.newB[b] + {n}]), hash, None)
  {
    hide RandomOk, AddrOk, TriedOk, TimesOk, RefsOk, RefsBounded;
    RefsInsert(t.refs, t.newB, b, n);
  }

  // ----- moving to the tried table

  /** n is in no new bucket any more. */
  predicate Cleared(buckets: seq<set<nat>>, before: seq<set<nat>>, n: nat) {
    |buckets| == |before| && forall b | 0 <= b < |buckets| :: buckets[b] == before[b] - {n}
  }

  lemma TriedPush(info: InfoMap, inTried: set<nat>, tried: seq<seq<nat>>, hash: Service -> nat, n: nat)
    requires TriedOk(info, inTried, tried, hash) && n in info && n !in inTried
    requires |tried[TriedBucket(hash, info[n])]| < TRIED_BUCKET_SIZE
    ensures var k := TriedBucket(hash, info[n]);
            TriedOk(info, inTried + {n}, tried[k := tried[k] + [n]], hash)
  {
    var k := TriedBucket(hash, info[n]);
    var v := tried[k := tried[k] + [n]];
    assert forall i | 0 <= i < |tried[k]| :: TriedEntryOk(info, inTried, hash, k, tried[k][i]) && tried[k][i] != n;
    forall b, i | 0 <= b < |v| && 0 <= i < |v[b]|
      ensures TriedEntryOk(info, inTried + {n}, hash, b, v[b][i])
    {
      if b != k || i < |tried[k]| {
        assert TriedEntryOk(info, inTried, hash, b, tried[b][i]);
      }
    }
    forall m | m in inTried + {n}
      ensures TriedHome(info, v, hash, m)
    {
      if m != n {
        assert TriedHome(info, tried, hash, m);
      } else {
        assert v[k][|tried[k]|] == n;
      }
    }
  }

  /** A shuffled bucket. */
  ghost predicate Shuffled(a: seq<nat>, b: seq<nat>) {
    |a| == |b| && Distinct(b) && forall x :: x in a <==> x in b
  }

  lemma TriedShuffle(info: InfoMap, inTried: set<nat>, tried: seq<seq<nat>>, hash: Service -> nat, k: nat, v: seq<nat>)
    requires TriedOk(info, inTried, tried, hash) && k < |tried| && Shuffled(tried[k], v)
    ensures TriedOk(info, inTried, tried[k := v], hash)
  {
    var w := tried[k := v];
    forall b, i | 0 <= b < |w| && 0 <= i < |w[b]|
      ensures TriedEntryOk(info, inTried, hash, b, w[b][i])
    {
      if b == k {
        assert w[b][i] in tried[k];
        var j :| 0 <= j < |tried[k]| && tried[k][j] == w[b][i];
        assert TriedEntryOk(info, inTried, hash, k, tried[k][j]);
      } else {
        assert TriedEntryOk(info, inTried, hash, b, tried[b][i]);
      }
    }
    forall m | m in inTried
      ensures TriedHome(info, w, hash, m)
    {
      assert TriedHome(info, tried, hash, m);
    }
  }

  function Replaced(v: seq<nat>, p: nat, n: nat): (r: seq<nat>)
    requires p < |v|
    ensures |r| == |v| && r[p] == n && forall i | 0 <= i < |v| && i != p :: r[i] == v[i]
  {
    v[p := n]
  }

  /** The entry at position p of bucket k gives way to n. */
  lemma TriedReplace(info: InfoMap, inTried: set<nat>, tried: seq<seq<nat>>, hash: Service -> nat, p: nat, n: nat)
    requires TriedOk(info, inTried, tried, hash) && n in info && n !in inTried
    requires p < |tried[TriedBucket(hash, info[n])]|
    ensures var k := TriedBucket(hash, info[n]);
            var m := tried[k][p];
            && m in inTried && m != n
            && TriedOk(info, inTried - {m} + {n}, tried[k := Replaced(tried[k], p, n)], hash)
  {
    var k := TriedBucket(hash, info[n]);
    var m := tried[k][p];
    var set' := inTried - {m} + {n};
    var v := tried[k := Replaced(tried[k], p, n)];
    assert TriedEntryOk(info, inTried, hash, k, tried[k][p]);
    assert forall i | 0 <= i < |tried[k]| :: TriedEntryOk(info, inTried, hash, k, tried[k][i]) && tried[k][i] != n;
    forall b, i | 0 <= b < |v| && 0 <= i < |v[b]|
      ensures TriedEntryOk(info, set', hash, b, v[b][i])
    {
      if !(b == k && i == p) {
        assert TriedEntryOk(info, inTried, hash, b, tried[b][i]);
      }
    }
    forall x | x in set'
      ensures TriedHome(info, v, hash, x)
    {
      if x != n {
        assert TriedHome(info, tried, hash, x);
        var b := TriedBucket(hash, info[x]);
        var i :| 0 <= i < |tried[b]| && tried[b][i] == x;
        assert v[b][i] == x;
      } else {
        assert v[k][p] == n;
      }
    }
  }

  lemma {:induction false} RefsCleared(buckets: seq<set<nat>>, v: seq<set<nat>>, n: nat, m: nat)
    requires Cleared(v, buckets, n)
    ensures Refs(v, m) == if m == n then 0 else Refs(buckets, m)
  {
    if v != [] {
      var last := |v| - 1;
      RefsCleared(buckets[..last], v[..last], n, m);
    }
  }

  lemma ClearOk(refs: map<nat, int>, inTried: set<nat>, ids: set<nat>, buckets: seq<set<nat>>, v: seq<set<nat>>, n: nat)
    requires RefsOk(refs, buckets, None) && RefsBounded(refs, inTried) && NewOk(ids, buckets)
    requires Cleared(v, buckets, n) && n in refs
    ensures RefsOk(refs[n := 0], v, None) && RefsBounded(refs[n := 0], inTried + {n}) && NewOk(ids, v)
  {
    forall m | m in refs[n := 0]
      ensures refs[n := 0][m] == Refs(v, m)
    {
      RefsCleared(buckets, v, n, m);
    }
    forall b | 0 <= b < |v|
      ensures v[b] <= ids && |v[b]| <= NEW_BUCKET_SIZE
    {
      SubsetSize(v[b], buckets[b]);
    }
  }

  /** MakeTried when the bucket has room. */
  function IntoTried(t: Tables, hash: Service -> nat, n: nat, v: seq<set<nat>>): Tables
    requires n in t.info && n in t.refs && |t.tried| == TRIED_BUCKETS
  {
    var k := TriedBucket(hash, t.info[n]);
    t.(refs := t.refs[n := 0], newB := v, nNew := t.nNew - 1,
       tried := t.tried[k := t.tried[k] + [n]], nTried := t.nTried + 1, inTried := t.inTried + {n})
  }

  lemma IntoTriedOk(t: Tables, hash: Service -> nat, n: nat, v: seq<set<nat>>)
    requires Consistent(t, hash, None) && n in t.info && n !in t.inTried && t.info[n].lastSuccess != 0
    requires Cleared(v, t.newB, n) && |t.tried[TriedBucket(hash, t.info[n])]| < TRIED_BUCKET_SIZE
    ensures Consistent(IntoTried(t, hash, n, v), hash, None)
  {
    hide RandomOk, AddrOk, TriedOk, RefsOk, RefsBounded, NewOk, Cleared;
    ClearOk(t.refs, t.inTried, t.info.Keys, t.newB, v, n);
    TriedSize(t.info, t.inTried, t.tried, hash);
    TriedPush(t.info, t.inTried, t.tried, hash, n);
    assert |t.inTried + {n}| == |t.inTried| + 1;
    assert t.refs[n := 0].Keys == t.refs.Keys;
  }

  lemma TriedSize(info: InfoMap, inTried: set<nat>, tried: seq<seq<nat>>, hash: Service -> nat)
    requires TriedOk(info, inTried, tried, hash)
    ensures |tried| == TRIED_BUCKETS
  {
  }

  /** MakeTried when the bucket is full: position p of the bucket goes to new bucket w. */
  function Evict(t: Tables, hash: Service -> nat, n: nat, v: seq<set<nat>>, p: nat, w: nat): Tables
    requires n in t.info && |t.tried| == TRIED_BUCKETS && w < |v|
    requires p < |t.tried[TriedBucket(hash, t.info[n])]|
  {
    var k := TriedBucket(hash, t.info[n]);
    var m := t.tried[k][p];
    t.(refs := t.refs[n := 0][m := 1], newB := v[w := v[w] + {m}],
       tried := t.tried[k := Replaced(t.tried[k], p, n)], inTried := t.inTried - {m} + {n})
  }

  lemma OneRef(refs: map<nat, int>, inTried: set<nat>, ids: set<nat>, v: seq<set<nat>>, n: nat, m: nat, w: nat)
    requires RefsOk(refs, v, None) && RefsBounded(refs, inTried + {n}) && NewOk(ids, v)
    requires m in refs && m in ids && m in inTried && m != n && w < |v| && |v[w]| < NEW_BUCKET_SIZE
    ensures RefsOk(refs[m := 1], v[w := v[w] + {m}], None)
    ensures RefsBounded(refs[m := 1], inTried - {m} + {n}) && NewOk(ids, v[w := v[w] + {m}])
  {
    assert refs[m] == 0;
    RefsZero(v, m);
    var r := refs[m := 1];
    forall x | x in r
      ensures r[x] == Refs(v[w := v[w] + {m}], x)
    {
      RefsUpdate(v, w, v[w] + {m}, x);
    }
  }

  lemma EvictOk(t: Tables, hash: Service -> nat, n: nat, v: seq<set<nat>>, p: nat, w: nat)
    requires Consistent(t, hash, None) && n in t.info && n !in t.inTried && t.info[n].lastSuccess != 0
    requires Cleared(v, t.newB, n) && w < |v| && |v[w]| < NEW_BUCKET_SIZE
    requires p < |t.tried[TriedBucket(hash, t.info[n])]|
    ensures Consistent(Evict(t, hash, n, v, p, w), hash, None)
  {
    hide RandomOk, AddrOk, TriedOk, RefsOk, RefsBounded, NewOk, Cleared;
    TriedSize(t.info, t.inTried, t.tried, hash);
    var m := t.tried[TriedBucket(hash, t.info[n])][p];
    TriedReplace(t.info, t.inTried, t.tried, hash, p, n);
    ClearOk(t.refs, t.inTried, t.info.Keys, t.newB, v, n);
    OneRef(t.refs[n := 0], t.inTried, t.info.Keys, v, n, m, w);
    SwapCount(t.inTried, m, n);
    assert t.refs[n := 0][m := 1].Keys == t.refs.Keys;
  }

  lemma SwapCount(s: set<nat>, m: nat, n: nat)
    requires m in s && n !in s
    ensures |s - {m} + {n}| == |s|
  {
    assert |s - {m}| == |s| - 1;
  }

  lemma ShuffleOk(t: Tables, hash: Service -> nat, k: nat, b: seq<nat>)
    requires Consistent(t, hash, None) && k < |t.tried| && Shuffled(t.tried[k], b)
    ensures Consistent(t.(tried := t.tried[k := b]), hash, None)
  {
    hide RandomOk, AddrOk, TriedOk, RefsOk, RefsBounded, NewOk, Shuffled, TimesOk;
    TriedShuffle(t.info, t.inTried, t.tried, hash, k, b);
  }
}
