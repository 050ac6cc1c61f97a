/** Where each folder is drawn: under its parent, at the top, or as the one place where a parent cycle is cut. */
module FolderPlacement {
  import opened Wrappers
  import opened FolderOrder
  import opened FolderForest

  /** The n-th folder up the parent chain of x. */
  function Ancestor(P: Parents, x: Id, n: nat): Option<Id> {
    if n == 0 then Some(x)
    else
      match Ancestor(P, x, n - 1)
      case None => None
      case Some(a) => if a in P then P[a] else None
  }

  ghost predicate ReachesTop(P: Parents, x: Id) {
    exists n: nat :: Ancestor(P, x, n) == None
  }

  ghost predicate IsAncestor(P: Parents, a: Id, x: Id) {
    exists n: nat :: n > 0 && Ancestor(P, x, n) == Some(a)
  }

  /** The chain of x never ends, and x comes before every other folder on it. */
  ghost predicate CutsCycle(P: Parents, L: seq<Id>, x: Id) {
    !ReachesTop(P, x) && forall a | IsAncestor(P, a, x) && a != x :: Before(L, x, a)
  }

  lemma {:induction false} AncestorShift(P: Parents, x: Id, p: Id, n: nat)
    requires x in P && P[x] == Some(p)
    ensures Ancestor(P, x, n + 1) == Ancestor(P, p, n)
  {
    if n == 0 {
      assert Ancestor(P, x, 0) == Some(x);
    } else {
      AncestorShift(P, x, p, n - 1);
    }
  }

  /** What holds for the parent's chain holds for the child's. */
  lemma ChainStep(P: Parents, x: Id, p: Id)
    requires x in P && P[x] == Some(p)
    ensures ReachesTop(P, x) <==> ReachesTop(P, p)
    ensures forall a :: IsAncestor(P, a, x) <==> a == p || IsAncestor(P, a, p)
  {
    assert Ancestor(P, x, 0) == Some(x) && Ancestor(P, p, 0) == Some(p);
    if ReachesTop(P, x) {
      var n: nat :| Ancestor(P, x, n) == None;
      AncestorShift(P, x, p, n - 1);
    }
    if ReachesTop(P, p) {
      var n: nat :| Ancestor(P, p, n) == None;
      AncestorShift(P, x, p, n);
    }
    forall a ensures IsAncestor(P, a, x) <==> a == p || IsAncestor(P, a, p) {
      if IsAncestor(P, a, x) {
        var n: nat :| n > 0 && Ancestor(P, x, n) == Some(a);
        AncestorShift(P, x, p, n - 1);
      }
      if IsAncestor(P, a, p) {
        var n: nat :| n > 0 && Ancestor(P, p, n) == Some(a);
        AncestorShift(P, x, p, n);
      }
      AncestorShift(P, x, p, 0);
      assert Ancestor(P, x, 1) == Some(p);
    }
  }

  /** Everything drawn below roots that satisfy a chain property upward satisfies it too. */
  lemma {:induction false} BelowReaches(P: Parents, trees: seq<Tree>, y: Id)
    requires Edges(P, trees) && y in Flat(trees)
    requires forall x | x in Ids(trees) :: ReachesTop(P, x)
    ensures ReachesTop(P, y)
  {
    hide ReachesTop;
    var t := trees[0];
    assert t.id in Ids(trees);
    if y in Flat(t.children) {
      forall c | c in Ids(t.children) ensures ReachesTop(P, c) {
        ChainStep(P, c, t.id);
      }
      BelowReaches(P, t.children, y);
    } else if y != t.id {
      forall x | x in Ids(trees[1..]) ensures ReachesTop(P, x) {
        assert x in Ids(trees);
      }
      BelowReaches(P, trees[1..], y);
    }
  }

  lemma {:induction false} RootIsAncestor(P: Parents, root: Id, trees: seq<Tree>, y: Id)
    requires Edges(P, trees) && y in Flat(trees)
    requires forall x | x in Ids(trees) :: x in P && IsAncestor(P, root, x)
    ensures IsAncestor(P, root, y)
  {
    hide IsAncestor, ReachesTop;
    var t := trees[0];
    assert t.id in Ids(trees);
    if y in Flat(t.children) {
      forall c | c in Ids(t.children) ensures c in P && IsAncestor(P, root, c) {
        ChainStep(P, c, t.id);
      }
      RootIsAncestor(P, root, t.children, y);
    } else if y != t.id {
      forall x | x in Ids(trees[1..]) ensures x in P && IsAncestor(P, root, x) {
        assert x in Ids(trees);
      }
      RootIsAncestor(P, root, trees[1..], y);
    }
  }

  /** The two halves of a drawing share no folder. */
  lemma Halves(P: Parents, L: seq<Id>, D: Drawing)
    requires Known(P, L) && IsDrawing(P, L, D)
    ensures Edges(P, D.tops) && Edges(P, D.extras) && Sorted(L, D.tops) && Sorted(L, D.extras)
    ensures Distinct(Flat(D.tops)) && Distinct(Flat(D.extras))
    ensures forall x | x in Flat(D.tops) :: x !in Flat(D.extras)
    ensures forall x :: x in L <==> x in Flat(D.tops) || x in Flat(D.extras)
  {
    FlatConcat(D.tops, D.extras);
    ShapeConcat(P, L, D.tops, D.extras);
    DistinctConcat(Flat(D.tops), Flat(D.extras));
  }

  /** The folders drawn below the top-level ones are exactly those whose chain ends. */
  lemma TopsReach(P: Parents, L: seq<Id>, D: Drawing, x: Id)
    requires Known(P, L) && IsDrawing(P, L, D) && x in L
    ensures ReachesTop(P, x) <==> x in Flat(D.tops)
  {
    Halves(P, L, D);
    if x in Flat(D.tops) {
      forall r | r in Ids(D.tops) ensures ReachesTop(P, r) {
        assert Ancestor(P, r, 0) == Some(r);
        assert Ancestor(P, r, 1) == None;
      }
      BelowReaches(P, D.tops, x);
    }
    if ReachesTop(P, x) {
      var n: nat :| Ancestor(P, x, n) == None;
      ReachingIsTop(P, L, D, x, n);
    }
  }

  lemma {:induction false} ReachingIsTop(P: Parents, L: seq<Id>, D: Drawing, x: Id, n: nat)
    requires Known(P, L) && IsDrawing(P, L, D) && x in L && Ancestor(P, x, n) == None
    ensures x in Flat(D.tops)
    decreases n
  {
    assert n > 0;
    hide Edges, Sorted, Breaks, Distinct, Flat, Ids, Kids, Ancestor, DrawnUnder;
    Halves(P, L, D);
    if P[x] == None {
      assert x in Kids(P, L, None);
      IdsInFlat(D.tops);
    } else {
      var p := P[x].value;
      AncestorShift(P, x, p, n - 1);
      ReachingIsTop(P, L, D, p, n - 1);
      WhereDrawn(P, L, D, x);
      if x in Ids(D.extras) {
        ParentOfBreak(P, L, D.extras, x);
      } else if DrawnUnder(D.extras, p, x) {
        DrawnUnderInFlat(D.extras, p, x);
      } else {
        DrawnUnderInFlat(D.tops, p, x);
      }
    }
  }

  /** From a cycle-breaking root on, parents are drawn in the same tree or a later one. */
  lemma ParentsStay(P: Parents, L: seq<Id>, extras: seq<Tree>, i: nat, x: Id)
    requires Edges(P, extras) && Breaks(P, L, extras) && i < |extras| && x in Flat(extras[i..])
    ensures x in P && P[x].Some? && P[x].value in Flat(extras[i..])
  {
    hide First, Flat, Edges, Breaks;
    var tail := extras[i..];
    TailShape(P, L, extras, i);
    if x in Ids(tail) {
      ParentOfBreak(P, L, tail, x);
    } else {
      RootOrUnder(P, tail, x);
      DrawnUnderInFlat(tail, P[x].value, x);
    }
  }

  lemma {:induction false} TailShape(P: Parents, L: seq<Id>, extras: seq<Tree>, i: nat)
    requires Edges(P, extras) && Breaks(P, L, extras) && i < |extras|
    ensures Edges(P, extras[i..]) && Breaks(P, L, extras[i..])
    ensures Edges(P, extras[i].children)
    decreases i
  {
    hide First, Flat, Breaks;
    if i == 0 {
      assert extras[0..] == extras;
    } else {
      RestBreaks(P, L, extras);
      TailShape(P, L, extras[1..], i - 1);
      assert extras[1..][i - 1..] == extras[i..] && extras[1..][i - 1] == extras[i];
    }
  }

  lemma {:induction false} AncestorsStay(P: Parents, L: seq<Id>, extras: seq<Tree>, i: nat, x: Id, n: nat)
    requires Edges(P, extras) && Breaks(P, L, extras) && i < |extras| && x in Flat(extras[i..])
    ensures Ancestor(P, x, n).Some? && Ancestor(P, x, n).value in Flat(extras[i..])
  {
    hide Edges, Breaks, Flat;
    if n > 0 {
      AncestorsStay(P, L, extras, i, x, n - 1);
      ParentsStay(P, L, extras, i, Ancestor(P, x, n - 1).value);
    }
  }

  lemma {:induction false} TreeHolding(extras: seq<Tree>, x: Id) returns (i: nat)
    requires x in Flat(extras)
    ensures i < |extras| && x in FlatTree(extras[i])
    ensures forall y | y in FlatTree(extras[i]) :: y in Flat(extras[i..])
  {
    if x in FlatTree(extras[0]) {
      i := 0;
      assert extras[0..] == extras;
    } else {
      var k := TreeHolding(extras[1..], x);
      i := k + 1;
      assert extras[1..][k..] == extras[i..];
    }
  }

  /** The roots that break a cycle are exactly the folders that cut one. */
  lemma ExtrasCut(P: Parents, L: seq<Id>, D: Drawing, x: Id)
    requires Known(P, L) && IsDrawing(P, L, D) && x in L
    ensures x in Ids(D.extras) <==> CutsCycle(P, L, x)
  {
    Halves(P, L, D);
    TopsReach(P, L, D, x);
    if x in Ids(D.extras) {
      CutsWhenRoot(P, L, D, x);
    } else if !ReachesTop(P, x) {
      NoCutBelow(P, L, D, x);
    }
  }

  lemma CutsWhenRoot(P: Parents, L: seq<Id>, D: Drawing, x: Id)
    requires Known(P, L) && IsDrawing(P, L, D) && x in Ids(D.extras)
    ensures CutsCycle(P, L, x)
  {
    Halves(P, L, D);
    hide Edges, Sorted, Distinct, Flat, Known, Kids;
    IdsInFlat(D.extras);
    TopsReach(P, L, D, x);
    var i :| 0 <= i < |D.extras| && Ids(D.extras)[i] == x;
    TailHead(D.extras, i);
    forall a | IsAncestor(P, a, x) && a != x ensures Before(L, x, a) {
      var n: nat :| n > 0 && Ancestor(P, x, n) == Some(a);
      AncestorsStay(P, L, D.extras, i, x, n);
    }
  }

  lemma TailHead(extras: seq<Tree>, i: nat)
    requires i < |extras|
    ensures extras[i].id in Flat(extras[i..])
  {
    assert extras[i].id in FlatTree(extras[i..][0]);
  }

  lemma NoCutBelow(P: Parents, L: seq<Id>, D: Drawing, x: Id)
    requires Known(P, L) && IsDrawing(P, L, D) && x in Flat(D.extras) && x !in Ids(D.extras)
    ensures !CutsCycle(P, L, x)
  {
    hide Edges, Sorted, Distinct, Breaks, Flat, IsAncestor, First, ReachesTop, Before;
    Halves(P, L, D);
    var i := TreeHolding(D.extras, x);
    var t := D.extras[i];
    assert Ids(D.extras)[i] == t.id;
    assert t.id in Ids(D.extras);
    TailShape(P, L, D.extras, i);
    forall c | c in Ids(t.children) ensures c in P && IsAncestor(P, t.id, c) {
      ChildIsBelow(P, L, D.extras, i, c);
    }
    RootIsAncestor(P, t.id, t.children, x);
    RootComesFirst(P, L, D.extras, i, x);
    if Before(L, x, t.id) {
      BeforeAsymmetric(L, x, t.id);
    }
  }

  lemma BeforeAsymmetric(L: seq<Id>, x: Id, y: Id)
    requires Before(L, x, y)
    ensures !Before(L, y, x)
  {}

  lemma ChildIsBelow(P: Parents, L: seq<Id>, extras: seq<Tree>, i: nat, c: Id)
    requires Edges(P, extras) && Breaks(P, L, extras) && i < |extras| && c in Ids(extras[i].children)
    ensures c in P && IsAncestor(P, extras[i].id, c)
  {
    hide Breaks, IsAncestor, ReachesTop;
    TailShape(P, L, extras, i);
    assert extras[i..][0] == extras[i];
    ChainStep(P, c, extras[i].id);
  }

  lemma RootComesFirst(P: Parents, L: seq<Id>, extras: seq<Tree>, i: nat, x: Id)
    requires Breaks(P, L, extras) && i < |extras| && x in Flat(extras[i..]) && x != extras[i].id
    ensures Before(L, extras[i].id, x)
  {
    hide Flat, Before;
  }

  /**
   * Placement: a folder without a parent is at the top; a folder that cuts its cycle is a root of the second kind;
   * every other folder, and so every folder whose chain ends, is drawn directly inside its parent.
   */
  lemma Placement(P: Parents, L: seq<Id>, x: Id)
    requires Known(P, L) && x in L
    ensures var D := Forest(P, L);
      && (x in Ids(D.tops) <==> P[x] == None)
      && (x in Ids(D.extras) <==> CutsCycle(P, L, x))
      && (P[x].Some? && !CutsCycle(P, L, x) <==> P[x].Some? && DrawnUnder(D.tops + D.extras, P[x].value, x))
  {
    var D := Forest(P, L);
    ForestIsDrawing(P, L);
    ExtrasCut(P, L, D, x);
    Halves(P, L, D);
    hide Forest, CutsCycle, Edges, Sorted, Distinct, Breaks;
    if P[x].Some? {
      var p := P[x].value;
      UnderConcat(D.tops, D.extras, p, x);
      WhereDrawn(P, L, D, x);
      if DrawnUnder(D.tops + D.extras, p, x) && x in Ids(D.extras) {
        RootNotUnder(P, L, D, p, x);
      }
    }
  }

  lemma {:induction false} UnderConcat(a: seq<Tree>, b: seq<Tree>, x: Id, y: Id)
    ensures DrawnUnder(a + b, x, y) <==> DrawnUnder(a, x, y) || DrawnUnder(b, x, y)
  {
    if |a| == 0 {
      assert a + b == b;
    } else {
      UnderConcat(a[1..], b, x, y);
      assert (a + b)[1..] == a[1..] + b;
    }
  }

  lemma RootNotUnder(P: Parents, L: seq<Id>, D: Drawing, x: Id, y: Id)
    requires Known(P, L) && IsDrawing(P, L, D) && y in Ids(D.extras)
    ensures !DrawnUnder(D.tops + D.extras, x, y)
  {
    Halves(P, L, D);
    UnderConcat(D.tops, D.extras, x, y);
    IdsInFlat(D.extras);
    if DrawnUnder(D.tops, x, y) {
      DrawnUnderInFlat(D.tops, x, y);
    }
    RootsAreNotChildren(D.extras, x, y);
  }

  lemma {:induction false} RootsAreNotChildren(trees: seq<Tree>, x: Id, y: Id)
    requires Distinct(Flat(trees)) && y in Ids(trees)
    ensures !DrawnUnder(trees, x, y)
  {
    FlatParts(trees);
    IdsInFlat(trees[0].children);
    IdsInFlat(trees[1..]);
    if DrawnUnder(trees[0].children, x, y) {
      DrawnUnderInFlat(trees[0].children, x, y);
    }
    if trees[0].id == y {
      if DrawnUnder(trees[1..], x, y) {
        DrawnUnderInFlat(trees[1..], x, y);
      }
    } else {
      RootsAreNotChildren(trees[1..], x, y);
    }
  }

  // -- The list of children drawn inside a folder ----------------------------------

  /** The children drawn directly inside x, in drawing order. */
  function ChildrenIn(trees: seq<Tree>, x: Id): seq<Id> {
    if |trees| == 0 then []
    else if trees[0].id == x then Ids(trees[0].children)
    else ChildrenIn(trees[0].children, x) + ChildrenIn(trees[1..], x)
  }

  lemma {:induction false} ChildrenNowhere(trees: seq<Tree>, x: Id)
    requires x !in Flat(trees)
    ensures ChildrenIn(trees, x) == []
  {
    if |trees| > 0 {
      ChildrenNowhere(trees[0].children, x);
      ChildrenNowhere(trees[1..], x);
    }
  }

  lemma {:induction false} ChildrenAreUnder(L: seq<Id>, trees: seq<Tree>, x: Id)
    requires Distinct(Flat(trees)) && Sorted(L, trees)
    ensures Follows(L, ChildrenIn(trees, x))
    ensures forall y :: y in ChildrenIn(trees, x) <==> DrawnUnder(trees, x, y)
  {
    if |trees| > 0 {
      FlatParts(trees);
      hide Flat, Distinct;
      var t, rest := trees[0], trees[1..];
      if x !in Flat(t.children) {
        ChildrenNowhere(t.children, x);
        NothingUnder(t.children, x);
      }
      if x !in Flat(rest) {
        ChildrenNowhere(rest, x);
        NothingUnder(rest, x);
      }
      ChildrenAreUnder(L, t.children, x);
      ChildrenAreUnder(L, rest, x);
    }
  }

  lemma NothingUnder(trees: seq<Tree>, x: Id)
    requires x !in Flat(trees)
    ensures forall y :: !DrawnUnder(trees, x, y)
  {
    forall y ensures !DrawnUnder(trees, x, y) {
      if DrawnUnder(trees, x, y) {
        DrawnUnderInFlat(trees, x, y);
      }
    }
  }

  /** Inside a folder stand, in order, exactly its children that do not cut a cycle. */
  lemma ChildrenList(P: Parents, L: seq<Id>, x: Id, children: seq<Id>)
    requires Known(P, L) && x in L && Follows(L, children)
    requires forall y :: y in children <==> y in L && P[y] == Some(x) && !CutsCycle(P, L, y)
    ensures var D := Forest(P, L); ChildrenIn(D.tops + D.extras, x) == children
  {
    var D := Forest(P, L);
    ForestIsDrawing(P, L);
    hide CutsCycle, Edges, Distinct, Breaks, Forest, Flat, Sorted;
    var roots := D.tops + D.extras;
    ChildrenAreUnder(L, roots, x);
    forall y ensures y in ChildrenIn(roots, x) <==> y in children {
      if DrawnUnder(roots, x, y) {
        DrawnUnderInFlat(roots, x, y);
        UnderIsParent(P, roots, x, y);
        Placement(P, L, y);
      }
      if y in children {
        Placement(P, L, y);
      }
    }
    FollowsUnique(L, ChildrenIn(roots, x), children);
  }
}

