/** The pointer walks of Reorganize (src/main.cpp): finding the fork and listing what to
    disconnect and connect. */
module Fork {
  import opened Basics
  import opened Ledger
  import opened BlockTree

  /** f is the lowest common ancestor of a and b. */
  ghost predicate IsFork(t: Tree, g: Hash, a: Hash, b: Hash, f: Hash)
    requires WfTree(t, g)
  {
    && OnPath(t, g, f, a) && OnPath(t, g, f, b)
    && forall c | OnPath(t, g, c, a) && OnPath(t, g, c, b) :: OnPath(t, g, c, f)
  }

  /** Every common ancestor of a and b is an ancestor of x and of y. */
  ghost predicate Covers(t: Tree, g: Hash, a: Hash, b: Hash, x: Hash, y: Hash)
    requires WfTree(t, g)
  {
    && OnPath(t, g, x, a) && OnPath(t, g, y, b)
    && forall c | OnPath(t, g, c, a) && OnPath(t, g, c, b) :: OnPath(t, g, c, x) && OnPath(t, g, c, y)
  }

  lemma CoversStepLonger(t: Tree, g: Hash, a: Hash, b: Hash, x: Hash, y: Hash)
    requires WfTree(t, g) && Covers(t, g, a, b, x, y) && t[y].height > t[x].height
    ensures y != g && t[y].prev in t && Covers(t, g, a, b, x, t[y].prev)
  {
    PathStep(t, g, y);
    PathSelf(t, g, t[y].prev);
    OnPathParent(t, g, t[y].prev, y);
    OnPathTransitive(t, g, t[y].prev, y, b);
    forall c | OnPath(t, g, c, a) && OnPath(t, g, c, b)
      ensures OnPath(t, g, c, t[y].prev)
    {
      OnPathAt(t, g, c, x);
      OnPathParent(t, g, c, y);
    }
  }

  lemma CoversStepFork(t: Tree, g: Hash, a: Hash, b: Hash, x: Hash, y: Hash)
    requires WfTree(t, g) && Covers(t, g, a, b, x, y) && t[y].height <= t[x].height && x != y
    ensures x != g && t[x].prev in t && Covers(t, g, a, b, t[x].prev, y)
  {
    if x == g {
      PathStep(t, g, y);
    }
    PathStep(t, g, x);
    PathSelf(t, g, t[x].prev);
    OnPathParent(t, g, t[x].prev, x);
    OnPathTransitive(t, g, t[x].prev, x, a);
    forall c | OnPath(t, g, c, a) && OnPath(t, g, c, b)
      ensures OnPath(t, g, c, t[x].prev)
    {
      OnPathParent(t, g, c, x);
      if c == x {
        OnPathAt(t, g, x, y);
        PathSelf(t, g, y);
        SameHeight(t, g, x, y, y);
      }
    }
  }

  /** The loop that finds the fork. Its null checks never fire. */
  method FindFork(t: Tree, g: Hash, a: Hash, b: Hash) returns (f: Hash)
    requires WfTree(t, g) && a in t && b in t
    ensures f in t && OnPath(t, g, f, a) && OnPath(t, g, f, b) && IsFork(t, g, a, b, f)
  {
    f := a;
    var longer := b;
    PathSelf(t, g, a);
    PathSelf(t, g, b);
    while f != longer
      invariant f in t && longer in t && Covers(t, g, a, b, f, longer)
      decreases t[f].height + t[longer].height
    {
      ghost var start := t[longer].height;
      while t[longer].height > t[f].height
        invariant longer in t && Covers(t, g, a, b, f, longer)
        invariant t[longer].height <= start
        decreases t[longer].height
      {
        CoversStepLonger(t, g, a, b, f, longer);
        PathStep(t, g, longer);
        longer := t[longer].prev;
      }
      if f == longer {
        break;
      }
      CoversStepFork(t, g, a, b, f, longer);
      PathStep(t, g, f);
      f := t[f].prev;
    }
  }

  /** The blocks from tip down to just above f, as vDisconnect lists them. */
  method CollectDown(t: Tree, g: Hash, tip: Hash, f: Hash) returns (v: seq<Hash>)
    requires WfTree(t, g) && OnPath(t, g, f, tip)
    ensures t[f].height <= t[tip].height
    ensures v == Reversed(Path(t, g, tip)[t[f].height + 1..])
  {
    ghost var p, top := Path(t, g, tip), t[tip].height;
    OnPathAt(t, g, f, tip);
    v := [];
    var x := tip;
    while x != f
      invariant |v| <= top - t[f].height && x == p[top - |v|]
      invariant forall i | 0 <= i < |v| :: v[i] == p[top - i]
      decreases top - |v|
    {
      assert |v| < top - t[f].height;
      PathPrev(t, g, tip, top - |v|);
      v := v + [x];
      x := t[x].prev;
    }
    PathPrefix(t, g, tip, top - |v|);
    assert v == Reversed(p[t[f].height + 1..]);
  }

  /** A block above the fork on one branch is not on the other. */
  lemma AboveForkNotShared(t: Tree, g: Hash, a: Hash, b: Hash, f: Hash, x: Hash)
    requires WfTree(t, g) && IsFork(t, g, a, b, f) && OnPath(t, g, x, b) && t[x].height > t[f].height
    ensures !OnPath(t, g, x, a)
  {
    if OnPath(t, g, x, a) {
      OnPathAt(t, g, x, f);
    }
  }
}
