/** The stake modifier (src/kernel.cpp): 64 blocks are selected from a past interval, one per
    section, and each contributes its entropy bit. */
module StakeModifier {
  import opened Basics
  import opened Arithmetic
  import opened Ledger
  import opened Sorting

  const MODIFIER_INTERVAL := 600
  const MODIFIER_INTERVAL_RATIO := 3

  /** The fields of CBlockIndex the selection reads. */
  datatype Node = Node(hash: Hash, time: nat, hashProof: Hash, proofOfStake: bool, entropyBit: nat,
                       modifier: nat, generated: bool)

  /** The branch that ends in pindexPrev, genesis first; pprev is the preceding index. */
  predicate IsChain(chain: seq<Node>) {
    && chain != []
    && (forall i, j | 0 <= i < j < |chain| :: chain[i].hash != chain[j].hash)
    && (forall i | 0 <= i < |chain| :: chain[i].entropyBit < 2)
  }

  /** The hash of a proof hash and the previous modifier is left uninterpreted. */
  type Mix = (Hash, nat) -> Hash

  /** Proof-of-stake blocks are favoured by a factor of 2^32. */
  function Key(b: Node, prev: nat, mix: Mix): Hash {
    var h := mix(b.hashProof, prev);
    if b.proofOfStake then h / TWO_32 else h
  }

  /** How two candidates compare, from their hashes alone. */
  lemma KeyOrder(a: Node, b: Node, prev: nat, mix: Mix)
    ensures var x, y := mix(a.hashProof, prev), mix(b.hashProof, prev);
            Key(a, prev, mix) <= Key(b, prev, mix) <==>
              match (a.proofOfStake, b.proofOfStake)
              case (false, false) => x <= y
              case (false, true) => x * 0x1_0000_0000 <= y
              case (true, false) => x < (y + 1) * 0x1_0000_0000
              case (true, true) => x / 0x1_0000_0000 <= y / 0x1_0000_0000
  {
    var x, y := mix(a.hashProof, prev), mix(b.hashProof, prev);
    DivBounds(x, TWO_32);
    DivBounds(y, TWO_32);
    if !a.proofOfStake && b.proofOfStake && x * TWO_32 <= y {
      DivAtLeast(x, y, TWO_32);
    }
    if a.proofOfStake && !b.proofOfStake && x < (y + 1) * TWO_32 {
      DivBelow(y + 1, x, TWO_32);
    }
  }

  // ----- the selection interval

  function Section(n: nat): int
    requires n < 64
  {
    MODIFIER_INTERVAL * 63 / (63 + (63 - n) * (MODIFIER_INTERVAL_RATIO - 1))
  }

  /** The total of the first n sections. */
  function Sections(n: nat): int
    requires n <= 64
  {
    if n == 0 then 0 else Sections(n - 1) + Section(n - 1)
  }

  /** Sections grow from a third of the interval to the whole of it. */
  lemma SectionsGrow(n: nat)
    requires n < 64
    ensures MODIFIER_INTERVAL / MODIFIER_INTERVAL_RATIO <= Section(n) <= MODIFIER_INTERVAL
    ensures n < 63 ==> Section(n) <= Section(n + 1)
    ensures Section(n) * (189 - 2 * n) <= 600 * 63 < (Section(n) + 1) * (189 - 2 * n)
  {
    var a, d := MODIFIER_INTERVAL * 63, 63 + (63 - n) * 2;
    DivBounds(a, d);
    DivByMore(a, d, 189);
    DivByMore(a, 63, d);
    if n < 63 {
      DivByMore(a, d - 2, d);
    }
  }

  method SelectionInterval() returns (total: int)
    ensures total == Sections(64)
  {
    total := 0;
    for n := 0 to 64
      invariant total == Sections(n)
    {
      total := total + Section(n);
    }
  }

  // ----- one round

  /** vSortedByTimestamp: ordered by time, then by hash. */
  predicate Before(a: Node, b: Node) {
    a.time < b.time || (a.time == b.time && a.hash <= b.hash)
  }

  function Order(): (Node, Node) -> bool {
    (a, b) => Before(a, b)
  }

  predicate InTimeOrder(cs: seq<Node>) {
    forall i, j | 0 <= i < j < |cs| :: cs[i].time <= cs[j].time
  }

  predicate Free(cs: seq<Node>, selected: set<Hash>, k: int) {
    0 <= k < |cs| && cs[k].hash !in selected
  }

  /** Unselected and not after the round's stop. */
  predicate Eligible(cs: seq<Node>, selected: set<Hash>, stop: int, k: int) {
    Free(cs, selected, k) && cs[k].time <= stop
  }

  /** The smallest key among the eligible candidates, the earliest one on a tie; the earliest
      unselected candidate if none is eligible. */
  predicate Picked(cs: seq<Node>, selected: set<Hash>, stop: int, prev: nat, mix: Mix, k: int) {
    && Free(cs, selected, k)
    && (if exists j :: 0 <= j < |cs| && Eligible(cs, selected, stop, j) then
          && Eligible(cs, selected, stop, k)
          && (forall j | 0 <= j < |cs| && Eligible(cs, selected, stop, j) :: Key(cs[k], prev, mix) <= Key(cs[j], prev, mix))
          && (forall j | 0 <= j < k && Eligible(cs, selected, stop, j) :: Key(cs[k], prev, mix) < Key(cs[j], prev, mix))
        else forall j | 0 <= j < |cs| && Free(cs, selected, j) :: k <= j)
  }

  /** A round has only one possible outcome. */
  lemma PickedUnique(cs: seq<Node>, selected: set<Hash>, stop: int, prev: nat, mix: Mix, k: int, l: int)
    requires Picked(cs, selected, stop, prev, mix, k) && Picked(cs, selected, stop, prev, mix, l)
    ensures k == l
  {
    if exists j :: 0 <= j < |cs| && Eligible(cs, selected, stop, j) {
      assert Eligible(cs, selected, stop, k) && Eligible(cs, selected, stop, l);
    } else {
      assert Free(cs, selected, k) && Free(cs, selected, l);
    }
  }

  /** SelectBlockFromCandidates fails only if nothing is left to select. */
  method SelectBlockFromCandidates(cs: seq<Node>, selected: set<Hash>, stop: int, prev: nat, mix: Mix)
    returns (fSelected: bool, k: nat)
    requires InTimeOrder(cs)
    ensures fSelected <==> exists j :: 0 <= j < |cs| && Free(cs, selected, j)
    ensures fSelected ==> Picked(cs, selected, stop, prev, mix, k)
    ensures fSelected && cs[k].time <= stop ==>
              forall j | 0 <= j < |cs| && cs[j].hash !in selected && cs[j].time <= stop ::
                NoWorse(cs[k].proofOfStake, mix(cs[k].hashProof, prev), cs[j].proofOfStake, mix(cs[j].hashProof, prev))
    ensures fSelected && cs[k].time > stop ==>
              forall j | 0 <= j < |cs| && cs[j].hash !in selected :: cs[j].time > stop && k <= j
  {
    hide Key;
    fSelected, k := false, 0;
    var hashBest := 0;
    var i := 0;
    while i < |cs|
      invariant 0 <= i <= |cs|
      invariant fSelected ==> k < i && hashBest == Key(cs[k], prev, mix)
      invariant fSelected <==> exists j :: 0 <= j < i && Free(cs, selected, j)
      invariant fSelected ==> BestSoFar(cs, selected, stop, prev, mix, k, i)
    {
      var b := cs[i];
      if fSelected && b.time > stop {
        break;
      }
      if b.hash !in selected {
        assert Free(cs, selected, i);
        var hashSelection := Key(b, prev, mix);
        if fSelected && hashSelection < hashBest {
          hashBest, k := hashSelection, i;
        } else if !fSelected {
          fSelected, hashBest, k := true, hashSelection, i;
        }
      } else {
        assert !Free(cs, selected, i);
      }
      i := i + 1;
    }
    if fSelected {
      assert Free(cs, selected, k);
      BestIsPicked(cs, selected, stop, prev, mix, k, i);
      PickedByHash(cs, selected, stop, prev, mix, k);
    }
  }

  /** x is picked against y: the hash of a proof-of-stake block counts 2^32 times less. */
  predicate NoWorse(xStake: bool, x: Hash, yStake: bool, y: Hash) {
    && (!xStake && !yStake ==> x <= y)
    && (!xStake && yStake ==> x * 0x1_0000_0000 <= y)
    && (xStake && !yStake ==> x < (y + 1) * 0x1_0000_0000)
    && (xStake && yStake ==> x / 0x1_0000_0000 <= y / 0x1_0000_0000)
  }

  lemma PickedByHash(cs: seq<Node>, selected: set<Hash>, stop: int, prev: nat, mix: Mix, k: int)
    requires Picked(cs, selected, stop, prev, mix, k)
    ensures cs[k].time <= stop ==>
              forall j | 0 <= j < |cs| && cs[j].hash !in selected && cs[j].time <= stop ::
                NoWorse(cs[k].proofOfStake, mix(cs[k].hashProof, prev), cs[j].proofOfStake, mix(cs[j].hashProof, prev))
    ensures cs[k].time > stop ==>
              forall j | 0 <= j < |cs| && cs[j].hash !in selected :: cs[j].time > stop && k <= j
  {
    hide Key;
    forall j | 0 <= j < |cs| && cs[j].hash !in selected
      ensures cs[k].time <= stop && cs[j].time <= stop ==>
                NoWorse(cs[k].proofOfStake, mix(cs[k].hashProof, prev), cs[j].proofOfStake, mix(cs[j].hashProof, prev))
      ensures cs[k].time > stop ==> cs[j].time > stop && k <= j
    {
      assert Free(cs, selected, j);
      assert cs[j].time <= stop ==> Eligible(cs, selected, stop, j);
      assert cs[k].time <= stop ==> Eligible(cs, selected, stop, k);
      KeyOrder(cs[k], cs[j], prev, mix);
    }
  }

  /** k is the choice among the first n candidates, all of them in range but perhaps the first. */
  predicate BestSoFar(cs: seq<Node>, selected: set<Hash>, stop: int, prev: nat, mix: Mix, k: int, n: int)
    requires 0 <= k < n <= |cs|
  {
    && Free(cs, selected, k)
    && (forall j | 0 <= j < n && Free(cs, selected, j) ::
          (cs[j].time <= stop || j == k) && Key(cs[k], prev, mix) <= Key(cs[j], prev, mix))
    && (forall j | 0 <= j < k && Free(cs, selected, j) :: Key(cs[k], prev, mix) < Key(cs[j], prev, mix))
    && (cs[k].time > stop ==> forall j | 0 <= j < n && Free(cs, selected, j) :: j == k)
  }

  lemma BestIsPicked(cs: seq<Node>, selected: set<Hash>, stop: int, prev: nat, mix: Mix, k: int, n: int)
    requires InTimeOrder(cs) && 0 <= k < n <= |cs| && BestSoFar(cs, selected, stop, prev, mix, k, n)
    requires n < |cs| ==> cs[n].time > stop
    ensures Picked(cs, selected, stop, prev, mix, k)
  {
    hide Key;
    forall j | 0 <= j < |cs| && Eligible(cs, selected, stop, j)
      ensures j < n
    {
    }
    if cs[k].time > stop {
      forall j | 0 <= j < |cs| && Free(cs, selected, j)
        ensures k <= j && !Eligible(cs, selected, stop, j)
      {
        if j < n {
          assert j == k;
        } else {
          assert cs[k].time <= cs[j].time;
        }
      }
    } else {
      assert Eligible(cs, selected, stop, k);
      forall j | 0 <= j < |cs| && Eligible(cs, selected, stop, j)
        ensures Key(cs[k], prev, mix) <= Key(cs[j], prev, mix)
        ensures j < k ==> Key(cs[k], prev, mix) < Key(cs[j], prev, mix)
      {
        assert Free(cs, selected, j);
      }
    }
  }

  // ----- bits

  /** Bit k of an unsigned integer. */
  function Bit(m: nat, k: nat): nat {
    if k == 0 then m % 2 else Bit(m / 2, k - 1)
  }

  /** Bitwise or. */
  function Or(a: nat, b: nat): nat {
    if a == 0 && b == 0 then 0
    else (if a % 2 == 1 || b % 2 == 1 then 1 else 0) + 2 * Or(a / 2, b / 2)
  }

  function ShiftLeft(b: nat, k: nat): nat {
    if k == 0 then b else 2 * ShiftLeft(b, k - 1)
  }

  lemma {:induction false} BitOfZero(k: nat)
    ensures Bit(0, k) == 0
  {
    if k > 0 {
      BitOfZero(k - 1);
    }
  }

  lemma {:induction false} BitOfOr(a: nat, b: nat, k: nat)
    ensures Bit(Or(a, b), k) == if Bit(a, k) == 1 || Bit(b, k) == 1 then 1 else 0
    decreases k
  {
    if a == 0 && b == 0 {
      BitOfZero(k);
    } else if k > 0 {
      BitOfOr(a / 2, b / 2, k - 1);
      assert Or(a, b) / 2 == Or(a / 2, b / 2);
    } else {
      assert Or(a, b) % 2 == if a % 2 == 1 || b % 2 == 1 then 1 else 0;
    }
  }

  lemma {:induction false} BitOfShift(b: nat, n: nat, k: nat)
    requires b < 2
    ensures Bit(ShiftLeft(b, n), k) == if k == n then b else 0
    decreases n
  {
    if n == 0 {
      if k > 0 {
        BitOfZero(k - 1);
      }
    } else if k > 0 {
      BitOfShift(b, n - 1, k - 1);
      assert ShiftLeft(b, n) / 2 == ShiftLeft(b, n - 1);
    }
  }

  // ----- all rounds

  predicate InRange(cs: seq<Node>, picks: seq<nat>) {
    forall k | 0 <= k < |picks| :: picks[k] < |cs|
  }

  /** The hashes of the first n picks: mapSelectedBlocks before round n. */
  function HashesUpTo(cs: seq<Node>, picks: seq<nat>, n: nat): set<Hash>
    requires InRange(cs, picks) && n <= |picks|
  {
    set k | 0 <= k < n :: cs[picks[k]].hash
  }

  function Stop(start: int, round: nat): int
    requires round < 64
  {
    start + Sections(round + 1)
  }

  /** Every round made its pick. */
  predicate Selection(cs: seq<Node>, start: int, prev: nat, mix: Mix, picks: seq<nat>) {
    && |picks| <= 64 && InRange(cs, picks)
    && forall k | 0 <= k < |picks| :: PickedAt(cs, start, prev, mix, picks, k)
  }

  predicate PickedAt(cs: seq<Node>, start: int, prev: nat, mix: Mix, picks: seq<nat>, k: nat)
    requires |picks| <= 64 && InRange(cs, picks) && k < |picks|
  {
    Picked(cs, HashesUpTo(cs, picks, k), Stop(start, k), prev, mix, picks[k])
  }

  /** The entropy bits of the picks, lowest first, and nothing above. */
  ghost predicate BitsAre(m: nat, cs: seq<Node>, picks: seq<nat>)
    requires InRange(cs, picks)
  {
    forall k: nat :: Bit(m, k) == if k < |picks| then cs[picks[k]].entropyBit else 0
  }

  predicate UniqueHashes(cs: seq<Node>) {
    forall i, j | 0 <= i < j < |cs| :: cs[i].hash != cs[j].hash
  }

  /** No candidate is picked twice. */
  lemma PicksDistinct(cs: seq<Node>, start: int, prev: nat, mix: Mix, picks: seq<nat>, i: nat, j: nat)
    requires Selection(cs, start, prev, mix, picks) && i < j < |picks|
    ensures picks[i] != picks[j]
  {
    assert PickedAt(cs, start, prev, mix, picks, j);
    assert cs[picks[i]].hash in HashesUpTo(cs, picks, j);
    assert Free(cs, HashesUpTo(cs, picks, j), picks[j]);
  }

  /** The selection is a function of the candidates: two nodes with the same chain agree. */
  lemma {:induction false} SelectionUnique(cs: seq<Node>, start: int, prev: nat, mix: Mix, p: seq<nat>, q: seq<nat>, n: nat)
    requires Selection(cs, start, prev, mix, p) && Selection(cs, start, prev, mix, q)
    requires n <= |p| && n <= |q|
    ensures p[..n] == q[..n]
  {
    hide Picked;
    if n > 0 {
      SelectionUnique(cs, start, prev, mix, p, q, n - 1);
      assert PickedAt(cs, start, prev, mix, p, n - 1) && PickedAt(cs, start, prev, mix, q, n - 1);
      assert forall i | 0 <= i < n - 1 :: p[i] == p[..n - 1][i] == q[..n - 1][i] == q[i];
      assert HashesUpTo(cs, p, n - 1) == HashesUpTo(cs, q, n - 1);
      PickedUnique(cs, HashesUpTo(cs, p, n - 1), Stop(start, n - 1), prev, mix, p[n - 1], q[n - 1]);
    }
  }

  lemma {:induction false} Cardinality(cs: seq<Node>, picks: seq<nat>, n: nat)
    requires InRange(cs, picks) && n <= |picks|
    ensures |HashesUpTo(cs, picks, n)| <= n
  {
    if n > 0 {
      Cardinality(cs, picks, n - 1);
      assert HashesUpTo(cs, picks, n) == HashesUpTo(cs, picks, n - 1) + {cs[picks[n - 1]].hash};
    }
  }

  function AllHashes(cs: seq<Node>, n: nat): set<Hash>
    requires n <= |cs|
  {
    set k | 0 <= k < n :: cs[k].hash
  }

  lemma {:induction false} AllHashesCount(cs: seq<Node>, n: nat)
    requires UniqueHashes(cs) && n <= |cs|
    ensures |AllHashes(cs, n)| == n
  {
    if n > 0 {
      AllHashesCount(cs, n - 1);
      assert AllHashes(cs, n) == AllHashes(cs, n - 1) + {cs[n - 1].hash};
      assert cs[n - 1].hash !in AllHashes(cs, n - 1);
    }
  }

  /** With fewer picks than candidates, one is left. */
  lemma SomeFree(cs: seq<Node>, picks: seq<nat>)
    requires UniqueHashes(cs) && InRange(cs, picks) && |picks| < |cs|
    ensures exists j :: 0 <= j < |cs| && Free(cs, HashesUpTo(cs, picks, |picks|), j)
  {
    var sel := HashesUpTo(cs, picks, |picks|);
    if forall j | 0 <= j < |cs| :: !Free(cs, sel, j) {
      forall x | x in AllHashes(cs, |cs|)
        ensures x in sel
      {
        var j :| 0 <= j < |cs| && cs[j].hash == x;
        assert !Free(cs, sel, j);
      }
      SubsetSize(AllHashes(cs, |cs|), sel);
      AllHashesCount(cs, |cs|);
      Cardinality(cs, picks, |picks|);
    }
  }

  lemma SelectionStep(cs: seq<Node>, start: int, prev: nat, mix: Mix, picks: seq<nat>, k: nat)
    requires Selection(cs, start, prev, mix, picks) && |picks| < 64 && k < |cs|
    requires Picked(cs, HashesUpTo(cs, picks, |picks|), Stop(start, |picks|), prev, mix, k)
    ensures Selection(cs, start, prev, mix, picks + [k])
    ensures HashesUpTo(cs, picks + [k], |picks| + 1) == HashesUpTo(cs, picks, |picks|) + {cs[k].hash}
  {
    hide Picked;
    var next := picks + [k];
    forall n: nat | n <= |picks|
      ensures HashesUpTo(cs, next, n) == HashesUpTo(cs, picks, n)
    {
      assert forall i | 0 <= i < n :: next[i] == picks[i];
    }
    forall i: nat | i < |next|
      ensures PickedAt(cs, start, prev, mix, next, i)
    {
      if i < |picks| {
        assert PickedAt(cs, start, prev, mix, picks, i);
      }
    }
    assert next[|picks|] == k;
  }

  lemma {:induction false} BitsStep(m: nat, cs: seq<Node>, picks: seq<nat>, k: nat)
    requires InRange(cs, picks) && k < |cs| && BitsAre(m, cs, picks)
    requires forall i | 0 <= i < |cs| :: cs[i].entropyBit < 2
    ensures BitsAre(Or(m, ShiftLeft(cs[k].entropyBit, |picks|)), cs, picks + [k])
  {
    var next := picks + [k];
    var m' := Or(m, ShiftLeft(cs[k].entropyBit, |picks|));
    forall n: nat
      ensures Bit(m', n) == if n < |next| then cs[next[n]].entropyBit else 0
    {
      BitOfOr(m, ShiftLeft(cs[k].entropyBit, |picks|), n);
      BitOfShift(cs[k].entropyBit, |picks|, n);
    }
  }

  lemma {:induction false} BitsDetermine(a: nat, b: nat)
    requires forall k: nat :: Bit(a, k) == Bit(b, k)
    ensures a == b
    decreases a + b
  {
    if a != 0 || b != 0 {
      forall k: nat
        ensures Bit(a / 2, k) == Bit(b / 2, k)
      {
        assert Bit(a, k + 1) == Bit(b, k + 1);
      }
      assert Bit(a, 0) == Bit(b, 0);
      BitsDetermine(a / 2, b / 2);
    }
  }

  /** So the modifier is determined by the candidates and the previous modifier. */
  lemma ModifierUnique(cs: seq<Node>, start: int, prev: nat, mix: Mix, p: seq<nat>, q: seq<nat>, a: nat, b: nat)
    requires Elected(cs, start, prev, mix, p, a) && Elected(cs, start, prev, mix, q, b)
    ensures a == b
  {
    SelectionUnique(cs, start, prev, mix, p, q, |p|);
    assert p[..|p|] == p && q[..|q|] == q;
    BitsDetermine(a, b);
  }

  // ----- the candidates

  /** Where the candidates begin: the walk back from the tip stops at the first earlier block. */
  predicate StartsAt(chain: seq<Node>, start: int, lo: int) {
    && 0 <= lo <= |chain|
    && (forall i | lo <= i < |chain| :: chain[i].time >= start)
    && (lo > 0 ==> chain[lo - 1].time < start)
  }

  lemma OrderIsTotal()
    ensures TotalOrder(Order())
  {
  }

  lemma SameElements(s: seq<Node>, t: seq<Node>)
    requires multiset(s) == multiset(t)
    ensures |s| == |t| && forall x :: x in s <==> x in t
  {
    assert forall x :: x in s <==> x in multiset(s);
    assert forall x :: x in t <==> x in multiset(t);
    assert |s| == |multiset(s)| && |t| == |multiset(t)|;
  }

  lemma {:induction false} UniqueMultiset(s: seq<Node>)
    requires UniqueHashes(s)
    ensures forall x :: multiset(s)[x] <= 1
  {
    if s != [] {
      var t := s[..|s| - 1];
      UniqueMultiset(t);
      assert s == t + [s[|s| - 1]];
      forall x
        ensures multiset(s)[x] <= 1
      {
        if x == s[|s| - 1] {
          assert x !in t;
          assert multiset(t)[x] == 0;
        }
      }
    }
  }

  lemma TwoAndTheRest(s: seq<Node>, i: nat, j: nat)
    requires i < j < |s| && s[i] == s[j]
    ensures multiset(s)[s[i]] >= 2
  {
    assert s == (s[..i] + [s[i]]) + (s[i + 1..j] + [s[j]] + s[j + 1..]);
  }

  /** A permutation of blocks with distinct hashes has distinct hashes. */
  lemma UniquePermutes(s: seq<Node>, t: seq<Node>)
    requires UniqueHashes(s) && multiset(s) == multiset(t)
    ensures UniqueHashes(t)
  {
    UniqueMultiset(s);
    SameElements(s, t);
    forall i, j | 0 <= i < j < |t|
      ensures t[i].hash != t[j].hash
    {
      if t[i].hash == t[j].hash {
        assert t[i] in s && t[j] in s;
        assert t[i] == t[j];
        TwoAndTheRest(t, i, j);
      }
    }
  }

  predicate ByTimeThenHash(cs: seq<Node>) {
    forall i, j | 0 <= i < j < |cs| :: cs[i].time < cs[j].time || (cs[i].time == cs[j].time && cs[i].hash < cs[j].hash)
  }

  lemma SortedCandidates(chain: seq<Node>, lo: nat)
    requires IsChain(chain) && lo <= |chain|
    ensures var cs := Sort(chain[lo..], Order());
            && |cs| == |chain| - lo && InTimeOrder(cs) && UniqueHashes(cs) && ByTimeThenHash(cs)
            && multiset(cs) == multiset(chain[lo..])
            && forall i | 0 <= i < |cs| :: cs[i].entropyBit < 2
  {
    var s := chain[lo..];
    var cs := Sort(s, Order());
    OrderIsTotal();
    SortSorted(s, Order());
    SortPermutes(s, Order());
    SameElements(s, cs);
    forall i, j | 0 <= i < j < |s|
      ensures s[i].hash != s[j].hash
    {
      assert s[i] == chain[lo + i] && s[j] == chain[lo + j];
    }
    UniquePermutes(s, cs);
    forall i | 0 <= i < |cs|
      ensures cs[i].entropyBit < 2
    {
      assert cs[i] in s;
    }
    forall i, j | 0 <= i < j < |cs|
      ensures cs[i].time < cs[j].time || (cs[i].time == cs[j].time && cs[i].hash < cs[j].hash)
    {
      assert Order()(cs[i], cs[j]);
    }
  }

  // ----- ComputeNextStakeModifier

  /** GetLastStakeModifier: the nearest generated modifier at or below the tip. */
  method GetLastStakeModifier(chain: seq<Node>) returns (ok: bool, k: nat)
    requires chain != []
    ensures ok <==> exists i | 0 <= i < |chain| :: chain[i].generated
    ensures ok ==> k < |chain| && chain[k].generated && forall i | k < i < |chain| :: !chain[i].generated
  {
    k := |chain| - 1;
    while k > 0 && !chain[k].generated
      invariant k < |chain| && forall i | k < i < |chain| :: !chain[i].generated
    {
      k := k - 1;
    }
    ok := chain[k].generated;
  }

  /** The loop that gathers the candidates, latest first, and the reverse and sort after it. */
  method Candidates(chain: seq<Node>, start: int) returns (cs: seq<Node>, ghost lo: nat)
    requires IsChain(chain)
    ensures StartsAt(chain, start, lo) && cs == Sort(chain[lo..], Order())
  {
    var i := |chain|;
    cs := [];
    while i > 0 && chain[i - 1].time >= start
      invariant 0 <= i <= |chain| && cs == chain[i..]
      invariant forall j | i <= j < |chain| :: chain[j].time >= start
    {
      cs := [chain[i - 1]] + cs;
      i := i - 1;
    }
    lo := i;
    cs := Sort(cs, Order());
  }

  /** The selection loop never fails, picks min(64, n) candidates, and its result holds their
      entropy bits. */
  method SelectAll(cs: seq<Node>, start: int, prev: nat, mix: Mix) returns (modifier: nat)
    requires InTimeOrder(cs) && UniqueHashes(cs) && forall i | 0 <= i < |cs| :: cs[i].entropyBit < 2
    ensures exists picks :: Elected(cs, start, prev, mix, picks, modifier)
  {
    hide Picked, BitsAre, Selection, InTimeOrder, UniqueHashes;
    var rounds := Min(64, |cs|);
    modifier := 0;
    ghost var picks: seq<nat> := [];
    var stop := start;
    var selected := {};
    NothingSelected(cs, start, prev, mix);
    for round := 0 to rounds
      invariant |picks| == round && Selection(cs, start, prev, mix, picks) && InRange(cs, picks)
      invariant BitsAre(modifier, cs, picks)
      invariant selected == HashesUpTo(cs, picks, round)
      invariant stop == start + Sections(round)
    {
      stop := stop + Section(round);
      SomeFree(cs, picks);
      var ok, k := SelectBlockFromCandidates(cs, selected, stop, prev, mix);
      PickedIsFree(cs, selected, stop, prev, mix, k);
      BitsStep(modifier, cs, picks, k);
      SelectionStep(cs, start, prev, mix, picks, k);
      modifier := Or(modifier, ShiftLeft(cs[k].entropyBit, round));
      selected := selected + {cs[k].hash};
      picks := picks + [k];
    }
    assert Elected(cs, start, prev, mix, picks, modifier);
  }

  /** All rounds done: min(64, n) picks, and their entropy bits. */
  ghost predicate Elected(cs: seq<Node>, start: int, prev: nat, mix: Mix, picks: seq<nat>, modifier: nat) {
    && |picks| == Min(64, |cs|)
    && Selection(cs, start, prev, mix, picks) && BitsAre(modifier, cs, picks)
  }

  lemma ElectedSome(cs: seq<Node>, start: int, prev: nat, mix: Mix, picks: seq<nat>, modifier: nat)
    requires Elected(cs, start, prev, mix, picks, modifier) && cs != []
    ensures picks != []
  {
  }

  lemma PickedIsFree(cs: seq<Node>, selected: set<Hash>, stop: int, prev: nat, mix: Mix, k: int)
    requires Picked(cs, selected, stop, prev, mix, k)
    ensures Free(cs, selected, k)
  {
  }

  lemma NothingSelected(cs: seq<Node>, start: int, prev: nat, mix: Mix)
    ensures Selection(cs, start, prev, mix, []) && BitsAre(0, cs, [])
  {
    forall k: nat
      ensures Bit(0, k) == 0
    {
      BitOfZero(k);
    }
  }

  /** The start of the selection interval of a block at time t. */
  function IntervalStart(t: nat): int {
    t / MODIFIER_INTERVAL * MODIFIER_INTERVAL - Sections(64)
  }

  /** The stops go up section by section and end at the last multiple of ten minutes. */
  lemma StopsEndAtInterval(t: nat, round: nat)
    requires round < 64
    ensures Stop(IntervalStart(t), 63) % 600 == 0 && Stop(IntervalStart(t), 63) <= t < Stop(IntervalStart(t), 63) + 600
    ensures round > 0 ==> Stop(IntervalStart(t), round) - Stop(IntervalStart(t), round - 1) == Section(round)
    ensures round == 0 ==> Stop(IntervalStart(t), round) - IntervalStart(t) == Section(round)
  {
    DivBounds(t, 600);
    assert Sections(0) == 0;
  }

  /** chain ends in pindexPrev; it is empty for the genesis block. */
  method ComputeNextStakeModifier(chain: seq<Node>, mix: Mix)
    returns (ok: bool, modifier: nat, generated: bool, ghost last: nat, cs: seq<Node>, ghost picks: seq<nat>)
    requires chain != [] ==> IsChain(chain)
    ensures chain == [] ==> ok && generated && modifier == 0
    ensures ok <==> chain == [] || exists i | 0 <= i < |chain| :: chain[i].generated
    ensures ok && chain != [] ==>
              && last < |chain| && chain[last].generated && (forall i | last < i < |chain| :: !chain[i].generated)
              && var t := chain[|chain| - 1].time;
              && (generated <==> chain[last].time / MODIFIER_INTERVAL < t / MODIFIER_INTERVAL)
              && (!generated ==> modifier == chain[last].modifier)
              && (generated ==>
                    && (exists lo :: StartsAt(chain, IntervalStart(t), lo) && multiset(cs) == multiset(chain[lo..]))
                    && ByTimeThenHash(cs)
                    && picks != [] && Elected(cs, IntervalStart(t), chain[last].modifier, mix, picks, modifier))
  {
    hide Selection, BitsAre, InTimeOrder, UniqueHashes, ByTimeThenHash, Elected, Sections;
    modifier, generated, last, cs, picks := 0, false, 0, [], [];
    if chain == [] {
      return true, 0, true, 0, [], [];
    }
    var k;
    ok, k := GetLastStakeModifier(chain);
    if !ok {
      return;
    }
    last := k;
    modifier := chain[k].modifier;
    var t := chain[|chain| - 1].time;
    if chain[k].time / MODIFIER_INTERVAL >= t / MODIFIER_INTERVAL {
      return;
    }
    var interval := SelectionInterval();
    var start := t / MODIFIER_INTERVAL * MODIFIER_INTERVAL - interval;
    assert start == IntervalStart(t);
    hide IntervalStart, StartsAt;
    ghost var lo;
    cs, lo := Candidates(chain, start);
    SortedCandidates(chain, lo);
    TipIsCandidate(chain, lo);
    var before := modifier;
    modifier := SelectAll(cs, start, before, mix);
    picks :| Elected(cs, start, before, mix, picks, modifier);
    ElectedSome(cs, start, before, mix, picks, modifier);
    generated := true;
  }

  lemma TipIsCandidate(chain: seq<Node>, lo: nat)
    requires IsChain(chain) && StartsAt(chain, IntervalStart(chain[|chain| - 1].time), lo)
    ensures lo < |chain|
  {
    var t := chain[|chain| - 1].time;
    SectionsPositive(64);
    assert t / MODIFIER_INTERVAL * MODIFIER_INTERVAL <= t;
  }

  lemma {:induction false} SectionsPositive(n: nat)
    requires n <= 64
    ensures Sections(n) >= 0
  {
    if n > 0 {
      SectionsPositive(n - 1);
      SectionsGrow(n - 1);
    }
  }
}
