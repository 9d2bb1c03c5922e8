/** Median time past (CBlockIndex::GetMedianTimePast in src/main.h) and what the timestamp rule of
    AcceptBlock makes of it. */
module MedianTime {
  import opened Ledger
  import opened BlockTree
  import opened Sorting

  const MEDIAN_TIME_SPAN := 11

  function Le(): (int, int) -> bool {
    (a, b) => a <= b
  }

  /** The middle of the sorted values, the upper one of two. */
  function Median(s: seq<int>): int
    requires s != []
  {
    SortPermutes(s, Le());
    Sort(s, Le())[|s| / 2]
  }

  /** The last eleven, or all while there are fewer. */
  function Window(s: seq<int>): (w: seq<int>)
    ensures |w| == if |s| < MEDIAN_TIME_SPAN then |s| else MEDIAN_TIME_SPAN
  {
    if |s| < MEDIAN_TIME_SPAN then s else s[|s| - MEDIAN_TIME_SPAN..]
  }

  /** Median time past of the last of a branch's blocks. */
  function Past(times: seq<int>): int
    requires times != []
  {
    Median(Window(times))
  }

  // ----- counting what lies below a value

  function Below(s: seq<int>, m: int): nat {
    if s == [] then 0 else (if s[0] < m then 1 else 0) + Below(s[1..], m)
  }

  lemma {:induction false} BelowAppend(a: seq<int>, b: seq<int>, m: int)
    ensures Below(a + b, m) == Below(a, m) + Below(b, m)
  {
    if a == [] {
      assert a + b == b;
    } else {
      BelowAppend(a[1..], b, m);
      assert (a + b)[1..] == a[1..] + b;
    }
  }

  lemma {:induction false} BelowInsert(x: int, s: seq<int>, m: int)
    ensures Below(Insert(x, s, Le()), m) == Below(s, m) + if x < m then 1 else 0
  {
    if s == [] || x <= s[0] {
      assert ([x] + s)[1..] == s;
    } else {
      BelowInsert(x, s[1..], m);
    }
  }

  lemma {:induction false} BelowSort(s: seq<int>, m: int)
    ensures Below(Sort(s, Le()), m) == Below(s, m)
  {
    if s != [] {
      BelowSort(s[1..], m);
      BelowInsert(s[0], Sort(s[1..], Le()), m);
    }
  }

  lemma {:induction false} NoneBelow(s: seq<int>, m: int)
    requires forall i | 0 <= i < |s| :: s[i] >= m
    ensures Below(s, m) == 0
  {
    if s != [] {
      NoneBelow(s[1..], m);
    }
  }

  lemma {:induction false} AllBelow(s: seq<int>, m: int)
    requires forall i | 0 <= i < |s| :: s[i] < m
    ensures Below(s, m) == |s|
  {
    if s != [] {
      AllBelow(s[1..], m);
    }
  }

  lemma {:induction false} BelowAtMost(s: seq<int>, m: int)
    ensures Below(s, m) <= |s|
  {
    if s != [] {
      BelowAtMost(s[1..], m);
    }
  }

  /** Entry i of a sorted sequence reaches m exactly when at most i entries lie below m. */
  lemma {:induction false} SortedReaches(s: seq<int>, i: nat, m: int)
    requires Sorted(s, Le()) && i < |s|
    ensures s[i] >= m <==> Below(s, m) <= i
  {
    hide Below;
    if s[i] >= m {
      var front, back := s[..i], s[i..];
      assert s == front + back;
      forall j | 0 <= j < |back|
        ensures back[j] >= m
      {
        assert j > 0 ==> Le()(s[i], s[i + j]);
      }
      NoneBelow(back, m);
      BelowAtMost(front, m);
      BelowAppend(front, back, m);
    } else {
      var front, back := s[..i + 1], s[i + 1..];
      assert s == front + back;
      forall j | 0 <= j < |front|
        ensures front[j] < m
      {
        assert j < i ==> Le()(s[j], s[i]);
      }
      AllBelow(front, m);
      BelowAppend(front, back, m);
    }
  }

  lemma {:induction false} MedianReaches(s: seq<int>, m: int)
    requires s != []
    ensures Median(s) >= m <==> Below(s, m) <= |s| / 2
  {
    SortPermutes(s, Le());
    SortSorted(s, Le());
    BelowSort(s, m);
    SortedReaches(Sort(s, Le()), |s| / 2, m);
  }

  // ----- one more block

  /** A value above the median does not lower it, whether the window grows or slides. */
  lemma NextWindow(times: seq<int>, x: int)
    requires times != [] && x > Past(times)
    ensures Past(times + [x]) >= Past(times)
  {
    hide Median, Below;
    var m := Past(times);
    var w, w' := Window(times), Window(times + [x]);
    MedianReaches(w, m);
    MedianReaches(w', m);
    NoneBelow([x], m);
    BelowAppend(w, [x], m);
    if |times| < MEDIAN_TIME_SPAN {
      assert w' == (w + [x])[|w + [x]| - |w'|..];
      BelowAppend((w + [x])[..|w + [x]| - |w'|], w', m);
      assert w + [x] == (w + [x])[..|w + [x]| - |w'|] + w';
    } else {
      assert w' == w[1..] + [x];
      BelowAppend(w[..1], w[1..], m);
      BelowAppend(w[1..], [x], m);
      assert w == w[..1] + w[1..];
    }
  }

  /** The rule of AcceptBlock along a branch: later than the parent's median time past. */
  predicate RuleKept(times: seq<int>) {
    forall k | 0 < k < |times| :: times[k] > Past(times[..k])
  }

  /** Median time past never decreases along a branch. */
  lemma {:induction false} PastIsMonotone(times: seq<int>, j: nat, k: nat)
    requires RuleKept(times) && 0 < j <= k <= |times|
    ensures Past(times[..j]) <= Past(times[..k])
  {
    hide Past;
    if j < k {
      PastIsMonotone(times, j, k - 1);
      assert times[..k] == times[..k - 1] + [times[k - 1]];
      assert times[k - 1] > Past(times[..k - 1]);
      NextWindow(times[..k - 1], times[k - 1]);
    }
  }

  // ----- on the block tree

  /** The times of the blocks from genesis to h. */
  function Times(t: Tree, g: Hash, h: Hash): (s: seq<int>)
    requires WfTree(t, g) && h in t
    ensures |s| == t[h].height + 1
  {
    var p := Path(t, g, h);
    seq(|p|, i requires 0 <= i < |p| => assert p[i] in p; t[p[i]].time)
  }

  function MedianTimePast(t: Tree, g: Hash, h: Hash): int
    requires WfTree(t, g) && h in t
  {
    Past(Times(t, g, h))
  }

  lemma TimesStep(t: Tree, g: Hash, h: Hash)
    requires WfTree(t, g) && h in t && h != g
    ensures t[h].prev in t && Times(t, g, h) == Times(t, g, t[h].prev) + [t[h].time]
  {
    PathStep(t, g, h);
  }

  /** GetMedianTimePast walks back at most eleven blocks. */
  method GetMedianTimePast(t: Tree, g: Hash, h: Hash) returns (m: int)
    requires WfTree(t, g) && h in t
    ensures m == MedianTimePast(t, g, h)
    ensures var all := Times(t, g, h);
            var last := if |all| <= 11 then all else all[|all| - 11..];
            forall x :: m >= x <==> Below(last, x) <= |last| / 2
  {
    hide Times, WfTree, LinkOk;
    var median: seq<int> := [];
    var index := h;
    var more := true;
    var i := 0;
    ghost var all := Times(t, g, h);
    while i < MEDIAN_TIME_SPAN && more
      invariant 0 <= i <= MEDIAN_TIME_SPAN && |median| == i <= |all|
      invariant median == all[|all| - i..]
      invariant more ==> index in t && Times(t, g, index) == all[..|all| - i]
      invariant more <==> i < |all|
    {
      ghost var left := all[..|all| - i];
      LastTime(t, g, index);
      assert left[|left| - 1] == all[|all| - i - 1];
      median := [t[index].time] + median;
      if index == g {
        more := false;
      } else {
        TimesStep(t, g, index);
        assert left[..|left| - 1] == all[..|all| - i - 1];
        index := t[index].prev;
      }
      i := i + 1;
    }
    assert median == Window(all);
    SortPermutes(median, Le());
    m := Sort(median, Le())[|median| / 2];
    forall x
      ensures m >= x <==> Below(median, x) <= |median| / 2
    {
      MedianReaches(median, x);
    }
  }

  lemma LastTime(t: Tree, g: Hash, h: Hash)
    requires WfTree(t, g) && h in t
    ensures Times(t, g, h)[|Times(t, g, h)| - 1] == t[h].time
    ensures h == g <==> |Times(t, g, h)| == 1
  {
    if h != g {
      TimesStep(t, g, h);
    }
  }

  /** Every block of the tree keeps the timestamp rule. */
  ghost predicate TimesKept(t: Tree, g: Hash)
    requires WfTree(t, g)
  {
    forall h | h in t && h != g :: LaterThanPast(t, g, h)
  }

  ghost predicate LaterThanPast(t: Tree, g: Hash, h: Hash)
    requires WfTree(t, g)
  {
    h in t && t[h].prev in t && t[h].time > MedianTimePast(t, g, t[h].prev)
  }

  /** A new block that keeps the rule leaves a tree that keeps it. */
  lemma TimesKeptExtend(t: Tree, g: Hash, h: Hash, n: Node)
    requires WfTree(t, g) && TimesKept(t, g) && h !in t && WfTree(t[h := n], g)
    requires n.prev in t && n.time > MedianTimePast(t, g, n.prev)
    ensures TimesKept(t[h := n], g) && LaterThanPast(t[h := n], g, h)
  {
    hide Past, Times;
    var t' := t[h := n];
    forall x | x in t' && x != g
      ensures LaterThanPast(t', g, x)
    {
      if x != h {
        assert LaterThanPast(t, g, x);
        PathStep(t, g, x);
        TimesExtend(t, g, h, n, t[x].prev);
      } else {
        TimesExtend(t, g, h, n, n.prev);
      }
    }
  }

  lemma TimesExtend(t: Tree, g: Hash, h: Hash, n: Node, x: Hash)
    requires WfTree(t, g) && h !in t && WfTree(t[h := n], g) && x in t
    ensures Times(t[h := n], g, x) == Times(t, g, x)
  {
    PathExtend(t, g, h, n, x);
    assert forall y | y in Path(t, g, x) :: y in t;
  }

  lemma {:induction false} RuleOnPath(t: Tree, g: Hash, h: Hash)
    requires WfTree(t, g) && h in t && TimesKept(t, g)
    ensures RuleKept(Times(t, g, h))
    decreases t[h].height
  {
    hide Times, Past;
    var s := Times(t, g, h);
    if h != g {
      assert LaterThanPast(t, g, h);
      TimesStep(t, g, h);
      PathStep(t, g, h);
      RuleOnPath(t, g, t[h].prev);
      var r := Times(t, g, t[h].prev);
      forall k | 0 < k < |s|
        ensures s[k] > Past(s[..k])
      {
        if k < |r| {
          assert s[..k] == r[..k];
        } else {
          assert s[..k] == r;
        }
      }
    }
  }

  lemma TimesPrefix(t: Tree, g: Hash, a: Hash, h: Hash)
    requires WfTree(t, g) && OnPath(t, g, a, h)
    ensures a in t && t[a].height <= t[h].height && Times(t, g, a) == Times(t, g, h)[..t[a].height + 1]
  {
    OnPathAt(t, g, a, h);
    assert a in Path(t, g, h);
  }

  /** So a block's median time past is at least that of every ancestor, and the block itself is
      later than the median time past of every proper ancestor. */
  lemma LaterThanEveryAncestor(t: Tree, g: Hash, a: Hash, h: Hash)
    requires WfTree(t, g) && TimesKept(t, g) && OnPath(t, g, a, h)
    ensures a in t && MedianTimePast(t, g, a) <= MedianTimePast(t, g, h)
    ensures a != h ==> t[h].time > MedianTimePast(t, g, a)
  {
    hide Times, Past;
    TimesPrefix(t, g, a, h);
    RuleOnPath(t, g, h);
    var s := Times(t, g, h);
    var k := t[a].height + 1;
    assert s[..|s|] == s;
    PastIsMonotone(s, k, |s|);
    if a != h {
      OnPathAt(t, g, a, h);
      LastTime(t, g, h);
      SameHeightSame(t, g, a, h);
      PastIsMonotone(s, k, |s| - 1);
      assert s[|s| - 1] > Past(s[..|s| - 1]);
    }
  }

  lemma SameHeightSame(t: Tree, g: Hash, a: Hash, h: Hash)
    requires WfTree(t, g) && OnPath(t, g, a, h) && a != h
    ensures t[a].height < t[h].height
  {
    OnPathAt(t, g, a, h);
    PathSelf(t, g, h);
    if t[a].height == t[h].height {
      SameHeight(t, g, a, h, h);
    }
  }
}
