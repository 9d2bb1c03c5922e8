/** Block locators (CBlockLocator in src/main.h): how a node describes its branch to a peer, and
    how the peer finds where the branches meet. */
module Locator {
  import opened Arithmetic
  import opened Ledger
  import opened BlockTree
  import opened Fork

  /** How far back entry i lies: 0, 1, ..., 11, then 9 + 2^m. */
  function Dist(i: nat): nat {
    if i <= 10 then i else 9 + Pow(2, i - 10)
  }

  /** The distance from entry i to the next. */
  function Stride(i: nat): nat {
    if i <= 10 then 1 else Pow(2, i - 10)
  }

  lemma DistZero()
    ensures Dist(0) == 0 && Stride(0) == 1
  {
  }

  lemma DistStep(i: nat)
    ensures Dist(i + 1) == Dist(i) + Stride(i)
    ensures Stride(i + 1) == if i + 1 > 10 then 2 * Stride(i) else Stride(i)
  {
    assert Pow(2, 0) == 1 && Pow(2, 1) == 2;
  }

  lemma {:induction false} DistGrows(i: nat, j: nat)
    requires i < j
    ensures Dist(i) < Dist(j)
  {
    hide Dist, Stride;
    DistStep(j - 1);
    StridePositive(j - 1);
    if i < j - 1 {
      DistGrows(i, j - 1);
    }
  }

  lemma StridePositive(i: nat)
    ensures Stride(i) >= 1
  {
  }

  lemma {:induction false} DistAtLeast(i: nat)
    ensures Dist(i) >= i
  {
    if i > 0 {
      DistAtLeast(i - 1);
      DistGrows(i - 1, i);
    }
  }

  /** The entries up to 11 are consecutive, and past that the next one is less than twice as far. */
  lemma DistShape(i: nat)
    ensures i <= 11 ==> Dist(i) == i
    ensures i >= 11 ==> Dist(i + 1) < 2 * Dist(i)
  {
    assert Pow(2, 0) == 1 && Pow(2, 1) == 2;
    if i >= 11 {
      assert Pow(2, i + 1 - 10) == 2 * Pow(2, i - 10);
    }
  }

  // ----- Set

  /** The ancestor of h that lies d blocks back. */
  function Back(t: Tree, g: Hash, h: Hash, d: nat): (a: Hash)
    requires WfTree(t, g) && h in t && d <= t[h].height
    ensures OnPath(t, g, a, h) && a in t
  {
    Path(t, g, h)[t[h].height - d]
  }

  lemma BackHeight(t: Tree, g: Hash, h: Hash, d: nat)
    requires WfTree(t, g) && h in t && d <= t[h].height
    ensures t[Back(t, g, h, d)].height == t[h].height - d
  {
    PathPrefix(t, g, h, t[h].height - d);
  }

  lemma BackStep(t: Tree, g: Hash, h: Hash, d: nat)
    requires WfTree(t, g) && h in t && d <= t[h].height
    ensures Back(t, g, h, 0) == h
    ensures Back(t, g, h, d) == g <==> d == t[h].height
    ensures d < t[h].height ==> t[Back(t, g, h, d)].prev == Back(t, g, h, d + 1)
  {
    var a := Back(t, g, h, d);
    BackHeight(t, g, h, d);
    if a != g {
      PathStep(t, g, a);
      OnPathAt(t, g, a, h);
      PathStep(t, g, a);
      assert Path(t, g, a)[t[a].height - 1] == t[a].prev;
      assert Path(t, g, h)[..t[a].height + 1][t[a].height - 1] == Path(t, g, h)[t[a].height - 1];
    }
  }

  /** A locator for h: entries at the listed distances while they reach, then genesis. */
  predicate IsLocator(t: Tree, g: Hash, h: Hash, have: seq<Hash>)
    requires WfTree(t, g) && h in t
  {
    && have != []
    && var n := |have| - 1;
    && have[n] == g
    && Dist(n) > t[h].height
    && forall i | 0 <= i < n :: EntryOk(t, g, h, have[i], i)
  }

  predicate EntryOk(t: Tree, g: Hash, h: Hash, x: Hash, i: nat)
    requires WfTree(t, g) && h in t
  {
    Dist(i) <= t[h].height && x == Back(t, g, h, Dist(i))
  }

  /** The inner loop: nStep blocks back, or past genesis. */
  method WalkBack(t: Tree, g: Hash, ghost h: Hash, start: Hash, ghost d: nat, steps: nat)
    returns (alive: bool, index: Hash)
    requires WfTree(t, g) && h in t && d <= t[h].height && start == Back(t, g, h, d)
    ensures alive <==> d + steps <= t[h].height
    ensures alive ==> index == Back(t, g, h, d + steps)
  {
    hide WfTree, Back;
    alive, index := true, start;
    var i := 0;
    while alive && i < steps
      invariant 0 <= i <= steps && (alive ==> d + i <= t[h].height && index == Back(t, g, h, d + i))
      invariant !alive ==> d + steps > t[h].height
      decreases alive, steps - i
    {
      BackStep(t, g, h, d + i);
      if index == g {
        alive := false;
      } else {
        index := t[index].prev;
        i := i + 1;
      }
    }
  }

  /** CBlockLocator::Set for a block of the tree. */
  method Set(t: Tree, g: Hash, h: Hash) returns (have: seq<Hash>)
    requires WfTree(t, g) && h in t
    ensures IsLocator(t, g, h, have)
  {
    hide WfTree, Back, Dist, Stride;
    have := [];
    var nStep := 1;
    var alive, index := true, h;
    BackStep(t, g, h, 0);
    DistZero();
    while alive
      invariant forall i | 0 <= i < |have| :: EntryOk(t, g, h, have[i], i)
      invariant alive <==> Dist(|have|) <= t[h].height
      invariant alive ==> index == Back(t, g, h, Dist(|have|))
      invariant nStep == Stride(|have|)
      decreases t[h].height + 1 - |have|
    {
      ghost var n := |have|;
      DistAtLeast(n);
      have := have + [index];
      DistStep(n);
      alive, index := WalkBack(t, g, h, index, Dist(n), nStep);
      if |have| > 10 {
        nStep := nStep * 2;
      }
    }
    have := have + [g];
  }

  // ----- what the peer makes of it

  /** The first entry that the peer has in its main chain. */
  predicate FirstIn(have: seq<Hash>, main: set<Hash>, i: nat) {
    i < |have| && have[i] in main && forall j | 0 <= j < i :: have[j] !in main
  }

  /** CBlockLocator::GetBlockIndex. main holds the blocks for which mapBlockIndex has an entry in
      the main chain. */
  method GetBlockIndex(have: seq<Hash>, main: set<Hash>, g: Hash) returns (r: Hash)
    ensures || (exists i | 0 <= i < |have| :: FirstIn(have, main, i) && r == have[i])
            || (r == g && forall j | 0 <= j < |have| :: have[j] !in main)
  {
    for k := 0 to |have|
      invariant forall j | 0 <= j < k :: have[j] !in main
    {
      if have[k] in main {
        assert FirstIn(have, main, k);
        return have[k];
      }
    }
    r := g;
  }

  /** CBlockLocator::GetDistanceBack. */
  method GetDistanceBack(have: seq<Hash>, main: set<Hash>) returns (d: nat)
    ensures || (exists i | 0 <= i < |have| :: FirstIn(have, main, i) && d == Dist(i))
            || (d == Dist(|have|) && forall j | 0 <= j < |have| :: have[j] !in main)
  {
    hide Dist, Stride;
    DistZero();
    d := 0;
    var nStep := 1;
    for k := 0 to |have|
      invariant d == Dist(k) && nStep == Stride(k) && forall j | 0 <= j < k :: have[j] !in main
    {
      if have[k] in main {
        assert FirstIn(have, main, k);
        return d;
      }
      DistStep(k);
      PastTen(k + 1);
      d := d + nStep;
      if d > 10 {
        nStep := nStep * 2;
      }
    }
  }

  /** Past ten in distance is past ten in entries: the two ways of doubling agree. */
  lemma PastTen(i: nat)
    ensures Dist(i) > 10 <==> i > 10
  {
    assert Pow(2, 0) == 1 && Pow(2, 1) == 2;
    if i > 10 {
      assert Pow(2, i - 10) == 2 * Pow(2, i - 11);
    }
  }

  /** The peer's main chain, as far as h's branch is concerned, is everything up to the fork. */
  lemma InMainIffFarBack(t: Tree, g: Hash, h: Hash, best: Hash, f: Hash, d: nat)
    requires WfTree(t, g) && h in t && IsFork(t, g, h, best, f) && d <= t[h].height
    ensures OnPath(t, g, Back(t, g, h, d), best) <==> d >= t[h].height - t[f].height
  {
    var a := Back(t, g, h, d);
    BackHeight(t, g, h, d);
    if OnPath(t, g, a, best) {
      OnPathAt(t, g, a, f);
    }
    if t[a].height <= t[f].height {
      AncestorsOrdered(t, g, a, f, h);
      OnPathTransitive(t, g, a, f, best);
    }
  }

  /** The answer of GetBlockIndex to a locator of h: a block both branches share, at most twice as
      far back as the fork, and the fork itself if that is at most eleven blocks back. And
      GetDistanceBack tells how far it is unless only the closing genesis entry was found. */
  lemma FindsTheFork(t: Tree, g: Hash, h: Hash, best: Hash, f: Hash, have: seq<Hash>, main: set<Hash>, i: nat)
    requires WfTree(t, g) && h in t && best in t && IsLocator(t, g, h, have) && IsFork(t, g, h, best, f)
    requires forall x | x in t :: x in main <==> OnPath(t, g, x, best)
    requires FirstIn(have, main, i)
    ensures var back, r := t[h].height - t[f].height, have[i];
            && OnPath(t, g, r, h) && OnPath(t, g, r, best)
            && t[h].height - t[r].height <= 2 * back
            && (back <= 11 ==> r == f)
            && (i < |have| - 1 ==> t[h].height - t[r].height == Dist(i))
  {
    assert f in t;
    hide WfTree, Back, Dist, OnPath, Path;
    var n, back, r := |have| - 1, t[h].height - t[f].height, have[i];
    OnPathAt(t, g, f, h);
    if i > 0 {
      assert EntryOk(t, g, h, have[i - 1], i - 1);
      InMainIffFarBack(t, g, h, best, f, Dist(i - 1));
      assert Dist(i - 1) < back;
    }
    ReachOf(t, g, h, have, i);
    var d := t[h].height - t[r].height;
    PathSelf(t, g, h);
    assert OnPath(t, g, r, best);
    FarEnough(t, g, h, best, f, r);
    TwiceAtMost(i, back, d);
    if back <= 11 {
      Nearest(i, back, d);
      OnPathAt(t, g, r, h);
      SameHeight(t, g, r, f, h);
    }
  }

  /** Where entry i of a locator lies. */
  lemma ReachOf(t: Tree, g: Hash, h: Hash, have: seq<Hash>, i: nat)
    requires WfTree(t, g) && h in t && IsLocator(t, g, h, have) && i < |have|
    ensures have[i] in t && OnPath(t, g, have[i], h) && t[have[i]].height <= t[h].height
    ensures t[h].height - t[have[i]].height <= Dist(i)
    ensures i < |have| - 1 ==> t[h].height - t[have[i]].height == Dist(i)
  {
    hide Dist, Path;
    PathSelf(t, g, h);
    if i < |have| - 1 {
      assert EntryOk(t, g, h, have[i], i);
      BackHeight(t, g, h, Dist(i));
    }
  }

  lemma FarEnough(t: Tree, g: Hash, h: Hash, best: Hash, f: Hash, r: Hash)
    requires WfTree(t, g) && h in t && IsFork(t, g, h, best, f) && OnPath(t, g, r, h) && OnPath(t, g, r, best)
    ensures t[r].height <= t[f].height
  {
    OnPathAt(t, g, r, f);
  }

  lemma TwiceAtMost(i: nat, back: nat, d: nat)
    requires d <= Dist(i) && back <= d && (i > 0 ==> Dist(i - 1) < back)
    ensures d <= 2 * back
  {
    if i > 0 {
      DistShape(i - 1);
      DistShape(i);
    }
  }

  lemma Nearest(i: nat, back: nat, d: nat)
    requires d <= Dist(i) && back <= d && back <= 11 && (i > 0 ==> Dist(i - 1) < back)
    ensures d == back
  {
    if i > 0 {
      DistAtLeast(i - 1);
      DistShape(i - 1);
      DistShape(i);
    }
  }

  /** There is always an answer: genesis closes the locator and is in every main chain. */
  lemma AlwaysAnswers(t: Tree, g: Hash, h: Hash, best: Hash, have: seq<Hash>, main: set<Hash>)
    requires WfTree(t, g) && h in t && best in t && IsLocator(t, g, h, have)
    requires forall x | x in t :: x in main <==> OnPath(t, g, x, best)
    ensures have[|have| - 1] in main
  {
    PathSelf(t, g, best);
  }
}
