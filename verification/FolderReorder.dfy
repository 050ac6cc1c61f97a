/** What a change of order does to the drawing: redrawing in the drawn order, and moving one folder next to another. */
module FolderReorder {
  import opened Wrappers
  import opened FolderOrder
  import opened FolderForest
  import opened FolderPlacement

  // -- Redrawing in the order drawn -------------------------------------------------

  lemma BeforeByIndex(s: seq<Id>, i: nat, j: nat)
    requires Distinct(s) && i < j < |s|
    ensures Before(s, s[i], s[j])
  {
    PosAt(s, i);
    PosAt(s, j);
  }

  lemma BeforeInParts(a: seq<Id>, b: seq<Id>, c: seq<Id>, x: Id, y: Id)
    requires Distinct(a + b + c) && x in b && y in c
    ensures Before(a + b + c, x, y)
  {
    var all := a + b + c;
    var i :| 0 <= i < |b| && b[i] == x;
    var j :| 0 <= j < |c| && c[j] == y;
    assert all[|a| + i] == x && all[|a| + |b| + j] == y;
    BeforeByIndex(all, |a| + i, |a| + |b| + j);
  }

  /** Whenever x comes before y in L and in the drawing, it comes before y in M. */
  ghost predicate Agrees(L: seq<Id>, drawn: seq<Id>, M: seq<Id>) {
    && (forall x :: x in L <==> x in M)
    && forall x, y | Before(L, x, y) && Before(drawn, x, y) :: Before(M, x, y)
  }

  lemma {:induction false} RootsInDrawnOrder(trees: seq<Tree>, pre: seq<Id>, post: seq<Id>)
    requires Distinct(pre + Flat(trees) + post)
    ensures Follows(pre + Flat(trees) + post, Ids(trees))
  {
    if |trees| > 0 {
      var t, rest := trees[0], trees[1..];
      FlatDef(trees);
      hide Flat, Follows, Distinct, Before;
      var all := pre + Flat(trees) + post;
      assert all == (pre + FlatTree(t)) + Flat(rest) + post;
      RootsInDrawnOrder(rest, pre + FlatTree(t), post);
      assert t.id in FlatTree(t);
      IdsInFlat(rest);
      forall y | y in Ids(rest) ensures Before(all, t.id, y) {
        assert all == pre + FlatTree(t) + (Flat(rest) + post);
        BeforeInParts(pre, FlatTree(t), Flat(rest) + post, t.id, y);
      }
      FollowsCons(all, t.id, Ids(rest));
      assert Ids(trees) == [t.id] + Ids(rest);
    } else {
      FollowsNothing(pre + Flat(trees) + post);
    }
  }

  lemma FollowsNothing(l: seq<Id>)
    ensures Follows(l, [])
  {}

  lemma FollowsAgreeing(L: seq<Id>, drawn: seq<Id>, M: seq<Id>, ids: seq<Id>)
    requires Follows(L, ids) && Follows(drawn, ids) && Agrees(L, drawn, M)
    ensures Follows(M, ids)
  {
    hide Before;
  }

  lemma {:induction false} SortedAgreeing(L: seq<Id>, M: seq<Id>, trees: seq<Tree>, pre: seq<Id>, post: seq<Id>)
    requires Distinct(pre + Flat(trees) + post) && Agrees(L, pre + Flat(trees) + post, M) && Sorted(L, trees)
    ensures Sorted(M, trees)
  {
    if |trees| > 0 {
      var t, rest := trees[0], trees[1..];
      FlatDef(trees);
      hide Flat, Follows, Distinct, Agrees;
      var all := pre + Flat(trees) + post;
      assert all == (pre + FlatTree(t)) + Flat(rest) + post;
      assert all == (pre + [t.id]) + Flat(t.children) + (Flat(rest) + post);
      SortedAgreeing(L, M, rest, pre + FlatTree(t), post);
      SortedAgreeing(L, M, t.children, pre + [t.id], Flat(rest) + post);
      RootsInDrawnOrder(t.children, pre + [t.id], Flat(rest) + post);
      FollowsAgreeing(L, all, M, Ids(t.children));
    }
  }

  lemma BreaksAgreeing(P: Parents, L: seq<Id>, M: seq<Id>, pre: seq<Id>, extras: seq<Tree>)
    requires Distinct(pre + Flat(extras)) && Agrees(L, pre + Flat(extras), M) && Breaks(P, L, extras)
    ensures Breaks(P, M, extras)
  {
    hide Flat, Distinct, Before;
    var all := pre + Flat(extras);
    forall i, y | 0 <= i < |extras| && y in Flat(extras[i..]) && y != extras[i].id
      ensures Before(M, extras[i].id, y)
    {
      var e := extras[i];
      assert First(L, e.id, Flat(extras[i..]));
      assert extras == extras[..i] + extras[i..];
      FlatConcat(extras[..i], extras[i..]);
      HeadOfTail(extras, i);
      var front, tail := pre + Flat(extras[..i]), Flat(extras[i..])[1..];
      assert Flat(extras[i..]) == [e.id] + tail;
      assert all == front + [e.id] + tail;
      BeforeInParts(front, [e.id], tail, e.id, y);
    }
  }

  lemma HeadOfTail(extras: seq<Tree>, i: nat)
    requires i < |extras|
    ensures |Flat(extras[i..])| > 0 && Flat(extras[i..])[0] == extras[i].id
  {
    FlatDef(extras[i..]);
  }

  /** A new order that keeps every pair the old order and the drawing agree on redraws the identical forest. */
  lemma RedrawAgreeing(P: Parents, L: seq<Id>, M: seq<Id>)
    requires Known(P, L) && Known(P, M)
    requires var D := Forest(P, L); Agrees(L, Flat(D.tops + D.extras), M)
    ensures Forest(P, M) == Forest(P, L)
  {
    hide *;
    ForestIsDrawing(P, L);
    DrawnAlike(P, L, M, Forest(P, L));
    DrawingIsForest(P, M, Forest(P, L));
  }

  /** A correct drawing for one order is correct for every order that agrees with it. */
  lemma DrawnAlike(P: Parents, L: seq<Id>, M: seq<Id>, D: Drawing)
    requires Known(P, L) && Known(P, M) && IsDrawing(P, L, D) && Agrees(L, Flat(D.tops + D.extras), M)
    ensures IsDrawing(P, M, D)
  {
    hide Edges, Sorted, Distinct, Breaks, Agrees, Flat, Follows;
    var roots := D.tops + D.extras;
    FlatConcat(D.tops, D.extras);
    var all := Flat(roots);
    assert [] + all + [] == all;
    SortedAgreeing(L, M, roots, [], []);
    BreaksAgreeing(P, L, M, Flat(D.tops), D.extras);
    TopsAgreeing(P, L, M, D);
    AgreesMembers(L, all, M);
  }

  lemma AgreesMembers(L: seq<Id>, drawn: seq<Id>, M: seq<Id>)
    requires Agrees(L, drawn, M)
    ensures forall x :: x in L <==> x in M
  {}

  lemma TopsAgreeing(P: Parents, L: seq<Id>, M: seq<Id>, D: Drawing)
    requires Known(P, L) && Known(P, M) && IsDrawing(P, L, D) && Agrees(L, Flat(D.tops + D.extras), M)
    ensures Ids(D.tops) == Kids(P, M, None)
  {
    hide Edges, Sorted, Distinct, Breaks, Flat, Follows;
    var all := Flat(D.tops + D.extras);
    FlatConcat(D.tops, D.extras);
    assert all == [] + Flat(D.tops) + Flat(D.extras);
    RootsInDrawnOrder(D.tops, [], Flat(D.extras));
    FollowsOwn(P, L);
    KidsFollow(P, L, L, None);
    FollowsAgreeing(L, all, M, Ids(D.tops));
    FollowsOwn(P, M);
    KidsFollow(P, M, M, None);
    FollowsUnique(M, Ids(D.tops), Kids(P, M, None));
  }

  // -- Moving one folder next to another ----------------------------------------------

  /** M is the order L with d moved directly before or after t. */
  ghost predicate MovedOrder(L: seq<Id>, M: seq<Id>, d: Id, t: Id, after: bool) {
    && Distinct(L) && Distinct(M) && d in L && t in L && d != t
    && (forall x :: x in L <==> x in M)
    && (forall x, y | x in L && y in L && x != d && y != d :: Before(M, x, y) <==> Before(L, x, y))
    && (forall y | y in L && y != d && y != t :: Before(M, y, d) <==> Before(L, y, t))
    && (Before(M, t, d) <==> after)
  }

  lemma FollowsMoved(L: seq<Id>, M: seq<Id>, d: Id, t: Id, after: bool, s: seq<Id>)
    requires MovedOrder(L, M, d, t, after) && Follows(L, s) && d !in s
    ensures Follows(M, s)
  {
    hide Before, Distinct;
    forall i, j | 0 <= i < j < |s| ensures Before(M, s[i], s[j]) {
      var x, y := s[i], s[j];
      assert x in s && y in s;
      assert Before(L, x, y);
    }
  }

  /** A list that follows an order still does with d put at the place that belongs to it. */
  lemma FollowsAround(M: seq<Id>, s: seq<Id>, d: Id, at: nat)
    requires Follows(M, s) && at <= |s| && d in M
    requires forall k | 0 <= k < at :: Before(M, s[k], d)
    requires forall k | at <= k < |s| :: Before(M, d, s[k])
    ensures Follows(M, s[..at] + [d] + s[at..])
  {
    hide Before;
    var r := s[..at] + [d] + s[at..];
    forall i, j | 0 <= i < j < |r| ensures Before(M, r[i], r[j]) {
      if j < at {
        assert Before(M, s[i], s[j]);
      } else if i > at {
        assert Before(M, s[i - 1], s[j - 1]);
      } else if i < at < j {
        assert Before(M, s[i], s[j - 1]);
      }
    }
  }

  /** The list with d put next to t follows the moved order. */
  lemma PutFollows(L: seq<Id>, M: seq<Id>, d: Id, t: Id, after: bool, s: seq<Id>)
    requires MovedOrder(L, M, d, t, after) && Follows(L, s) && t in s && d !in s
    ensures Follows(M, PutNext(s, d, t, after))
  {
    FollowsMoved(L, M, d, t, after, s);
    var at := Pos(s, t) + if after then 1 else 0;
    hide Before, Distinct;
    forall k | 0 <= k < |s| ensures if k < at then Before(M, s[k], d) else Before(M, d, s[k]) {
      var x := s[k];
      assert x in s;
      AroundTarget(L, M, d, t, after, s, k);
      BeforeTotal(M, d, x);
    }
    FollowsAround(M, s, d, at);
  }

  lemma AroundTarget(L: seq<Id>, M: seq<Id>, d: Id, t: Id, after: bool, s: seq<Id>, k: nat)
    requires MovedOrder(L, M, d, t, after) && Follows(L, s) && t in s && d !in s && k < |s|
    ensures Before(M, s[k], d) <==> k < Pos(s, t) + if after then 1 else 0
  {
    var p, x := Pos(s, t), s[k];
    assert x in s;
    FollowsDistinct(L, s);
    if k < p {
      assert Before(L, s[k], s[p]);
    } else if k > p {
      assert Before(L, s[p], s[k]);
      assert !Before(L, x, t);
    }
  }

  /** One sibling list under the moved order: the old list with d taken out and put next to t, or the old list. */
  lemma ListMoved(L: seq<Id>, M: seq<Id>, d: Id, t: Id, after: bool, was: seq<Id>, now: seq<Id>)
    requires MovedOrder(L, M, d, t, after) && Follows(L, was) && Follows(M, now)
    requires forall x :: x in was <==> x in now
    requires d in was <==> t in was
    ensures now == if d in was then MoveNext(was, d, t, after) else was
  {
    hide Before, Distinct;
    if d in was {
      OutsideFollows(L, was, {d});
      PutFollows(L, M, d, t, after, Without(was, d));
      FollowsUnique(M, now, MoveNext(was, d, t, after));
    } else {
      FollowsMoved(L, M, d, t, after, was);
      FollowsUnique(M, now, was);
    }
  }

  // -- Which folders cut a cycle does not change -----------------------------------------

  /** An ancestor of t other than t, before t, and not d: what keeps a non-cutting folder non-cutting. */
  lemma Witness(P: Parents, L: seq<Id>, d: Id, t: Id) returns (a: Id)
    requires Known(P, L) && d in L && t in L && d != t && P[d] == P[t]
    requires !ReachesTop(P, t) && !CutsCycle(P, L, d) && !CutsCycle(P, L, t)
    ensures IsAncestor(P, a, t) && IsAncestor(P, a, d) && a != t && a != d && a in L && Before(L, a, t)
  {
    NeverEnding(P, L, t);
    var p := P[t].value;
    ChainStep(P, t, p);
    ChainStep(P, d, p);
    hide IsAncestor, ReachesTop;
    a := EarlierAncestor(P, L, t);
    if a == d {
      a := EarlierAncestor(P, L, d);
    }
  }

  lemma NeverEnding(P: Parents, L: seq<Id>, x: Id)
    requires Known(P, L) && x in L && !ReachesTop(P, x)
    ensures P[x].Some? && P[x].value in L && !ReachesTop(P, P[x].value)
  {
    assert Ancestor(P, x, 0) == Some(x);
    assert Ancestor(P, x, 1) == P[x];
    assert Ancestor(P, x, 1) != None;
    ChainStep(P, x, P[x].value);
  }

  lemma EarlierAncestor(P: Parents, L: seq<Id>, x: Id) returns (a: Id)
    requires Known(P, L) && x in L && !ReachesTop(P, x) && !CutsCycle(P, L, x)
    ensures IsAncestor(P, a, x) && a != x && a in L && Before(L, a, x)
  {
    a :| IsAncestor(P, a, x) && a != x && !Before(L, x, a);
    var n: nat :| n > 0 && Ancestor(P, x, n) == Some(a);
    AncestorListed(P, L, x, n);
    BeforeTotal(L, x, a);
  }

  lemma {:induction false} AncestorListed(P: Parents, L: seq<Id>, x: Id, n: nat)
    requires Known(P, L) && x in L
    ensures Ancestor(P, x, n).Some? ==> Ancestor(P, x, n).value in L
  {
    if n > 0 {
      AncestorListed(P, L, x, n - 1);
    }
  }

  lemma AncestorInList(P: Parents, L: seq<Id>, a: Id, x: Id)
    requires Known(P, L) && x in L && IsAncestor(P, a, x)
    ensures a in L
  {
    var n: nat :| n > 0 && Ancestor(P, x, n) == Some(a);
    AncestorListed(P, L, x, n);
  }

  lemma {:induction false} AncestorsOfAncestor(P: Parents, x: Id, n: nat, a: Id)
    requires Ancestor(P, x, n) == Some(a)
    ensures forall b | IsAncestor(P, b, a) :: IsAncestor(P, b, x)
  {
    forall b | IsAncestor(P, b, a) ensures IsAncestor(P, b, x) {
      var m: nat :| m > 0 && Ancestor(P, a, m) == Some(b);
      AncestorCompose(P, x, n, a, m);
      assert Ancestor(P, x, n + m) == Some(b);
    }
  }

  lemma {:induction false} AncestorCompose(P: Parents, x: Id, n: nat, a: Id, m: nat)
    requires Ancestor(P, x, n) == Some(a)
    ensures Ancestor(P, x, n + m) == Ancestor(P, a, m)
  {
    if m > 0 {
      AncestorCompose(P, x, n, a, m - 1);
    }
  }

  lemma AncestorTransitive(P: Parents, a: Id, x: Id)
    requires IsAncestor(P, a, x)
    ensures forall b | IsAncestor(P, b, a) :: IsAncestor(P, b, x)
  {
    var n: nat :| n > 0 && Ancestor(P, x, n) == Some(a);
    AncestorsOfAncestor(P, x, n, a);
  }

  lemma BeforeThrough(L: seq<Id>, x: Id, y: Id, z: Id)
    requires Before(L, x, y) && Before(L, y, z)
    ensures Before(L, x, z) && x != z
  {}

  /** Moving a folder next to a sibling leaves every folder's role in its cycle as it was. */
  lemma CutsUnmoved(P: Parents, L: seq<Id>, M: seq<Id>, d: Id, t: Id, after: bool, x: Id)
    requires Known(P, L) && Known(P, M) && MovedOrder(L, M, d, t, after) && P[d] == P[t] && x in L
    requires !CutsCycle(P, L, d) && !CutsCycle(P, L, t)
    ensures CutsCycle(P, M, x) <==> CutsCycle(P, L, x)
  {
    if !ReachesTop(P, x) {
      if x == d || x == t {
        MovedStillCutsNot(P, L, M, d, t, after, x);
      } else if CutsCycle(P, L, x) {
        CutsAfterMove(P, L, M, d, t, after, x);
      } else {
        CutsNotAfterMove(P, L, M, d, t, after, x);
      }
    }
  }

  lemma MovedStillCutsNot(P: Parents, L: seq<Id>, M: seq<Id>, d: Id, t: Id, after: bool, x: Id)
    requires Known(P, L) && MovedOrder(L, M, d, t, after) && P[d] == P[t] && (x == d || x == t)
    requires !ReachesTop(P, x) && !CutsCycle(P, L, d) && !CutsCycle(P, L, t)
    ensures !CutsCycle(P, M, x)
  {
    NeverEnding(P, L, x);
    ChainStep(P, t, P[t].value);
    hide IsAncestor, ReachesTop, Before;
    var a := Witness(P, L, d, t);
    assert Before(M, a, x);
    BeforeAsymmetric(M, a, x);
  }

  lemma CutsAfterMove(P: Parents, L: seq<Id>, M: seq<Id>, d: Id, t: Id, after: bool, x: Id)
    requires Known(P, L) && MovedOrder(L, M, d, t, after) && P[d] == P[t] && x in L && x != d && x != t
    requires !CutsCycle(P, L, d) && !CutsCycle(P, L, t) && CutsCycle(P, L, x)
    ensures CutsCycle(P, M, x)
  {
    hide IsAncestor, ReachesTop, Before;
    forall a | IsAncestor(P, a, x) && a != x ensures Before(M, x, a) {
      AncestorInList(P, L, a, x);
      if a == d {
        XBeforeTarget(P, L, d, t, x);
      }
      assert a != d ==> Before(L, x, a);
    }
  }

  /** A cycle-cutting folder below d comes before d's sibling t as well. */
  lemma XBeforeTarget(P: Parents, L: seq<Id>, d: Id, t: Id, x: Id)
    requires Known(P, L) && d in L && t in L && x in L && d != t && x != t && x != d && P[d] == P[t]
    requires IsAncestor(P, d, x) && CutsCycle(P, L, x) && !CutsCycle(P, L, d) && !CutsCycle(P, L, t)
    ensures Before(L, x, t)
  {
    EndsTogether(P, L, d, x);
    NeverEnding(P, L, d);
    ChainStep(P, d, P[d].value);
    ChainStep(P, t, P[t].value);
    AncestorTransitive(P, d, x);
    hide IsAncestor, ReachesTop, Before;
    var a := Witness(P, L, d, t);
    if a != x {
      BeforeThrough(L, x, a, t);
    }
  }

  lemma EndsTogether(P: Parents, L: seq<Id>, a: Id, x: Id)
    requires IsAncestor(P, a, x) && !ReachesTop(P, x)
    ensures !ReachesTop(P, a)
  {
    var n: nat :| n > 0 && Ancestor(P, x, n) == Some(a);
    if ReachesTop(P, a) {
      var m: nat :| Ancestor(P, a, m) == None;
      AncestorCompose(P, x, n, a, m);
    }
  }

  lemma CutsNotAfterMove(P: Parents, L: seq<Id>, M: seq<Id>, d: Id, t: Id, after: bool, x: Id)
    requires Known(P, L) && MovedOrder(L, M, d, t, after) && P[d] == P[t] && x in L && x != d && x != t
    requires !ReachesTop(P, x) && !CutsCycle(P, L, d) && !CutsCycle(P, L, x)
    ensures !CutsCycle(P, M, x)
  {
    var a := EarlierAncestor(P, L, x);
    if a == d {
      EndsTogether(P, L, d, x);
      a := EarlierAncestor(P, L, d);
      AncestorTransitive(P, d, x);
      BeforeThrough(L, a, d, x);
    }
    hide IsAncestor, ReachesTop, Before;
    assert Before(M, a, x);
    BeforeAsymmetric(M, a, x);
  }

  // -- The whole drawing after the move ----------------------------------------------------

  /** d moved next to t where the list holds it, the list unchanged elsewhere. */
  function MovedList(s: seq<Id>, d: Id, t: Id, after: bool): seq<Id>
    requires d != t && (d in s <==> t in s)
  {
    if d in s then MoveNext(s, d, t, after) else s
  }

  lemma ChildrenOfNode(P: Parents, L: seq<Id>, x: Id)
    requires Known(P, L) && x in L
    ensures var D := Forest(P, L);
      && Follows(L, ChildrenIn(D.tops + D.extras, x))
      && forall y :: y in ChildrenIn(D.tops + D.extras, x) <==> y in L && P[y] == Some(x) && !CutsCycle(P, L, y)
  {
    hide CutsCycle, Forest;
    var listed := CutFree(P, L, L, x);
    FollowsOwn(P, L);
    CutFreeFollows(P, L, L, x);
    ChildrenList(P, L, x, listed);
  }

  ghost function CutFree(P: Parents, L: seq<Id>, s: seq<Id>, x: Id): (kids: seq<Id>)
    requires Known(P, L) && forall y | y in s :: y in L
    ensures forall y :: y in kids <==> y in s && P[y] == Some(x) && !CutsCycle(P, L, y)
  {
    if |s| == 0 then []
    else
      var y := s[0];
      assert y in s;
      (if P[y] == Some(x) && !CutsCycle(P, L, y) then [y] else []) + CutFree(P, L, s[1..], x)
  }

  lemma {:induction false} CutFreeFollows(P: Parents, L: seq<Id>, s: seq<Id>, x: Id)
    requires Known(P, L) && Follows(L, s)
    ensures Follows(L, CutFree(P, L, s, x))
  {
    hide CutsCycle;
    if |s| > 0 {
      FollowsTail(L, s);
      CutFreeFollows(P, L, s[1..], x);
      var y := s[0];
      assert y in s;
      if P[y] == Some(x) && !CutsCycle(P, L, y) {
        forall z | z in CutFree(P, L, s[1..], x) ensures Before(L, y, z) {
          FirstBefore(L, s, z);
        }
        FollowsCons(L, y, CutFree(P, L, s[1..], x));
      }
    }
  }

  lemma ForestExtras(P: Parents, L: seq<Id>)
    requires Known(P, L)
    ensures var D := Forest(P, L);
      && IsDrawing(P, L, D) && Breaks(P, L, D.extras) && Distinct(Flat(D.extras))
      && forall x | x in Ids(D.extras) :: x in L
  {
    hide Forest, Edges, Sorted, Flat, Distinct, Known;
    ForestIsDrawing(P, L);
    Halves(P, L, Forest(P, L));
    IdsInFlat(Forest(P, L).extras);
  }

  lemma ExtrasBefore(P: Parents, L: seq<Id>, extras: seq<Tree>, i: nat, j: nat)
    requires Breaks(P, L, extras) && Distinct(Flat(extras)) && i < j < |extras|
    ensures Before(L, extras[i].id, extras[j].id)
  {
    LaterRoot(extras, i, j);
    DistinctRoots(extras, i, j);
    hide Flat, Distinct, Before;
  }

  /** The roots of the second kind, in order. */
  lemma ExtrasInOrder(P: Parents, L: seq<Id>)
    requires Known(P, L)
    ensures var extras := Ids(Forest(P, L).extras);
      Follows(L, extras) && forall x :: x in extras <==> x in L && CutsCycle(P, L, x)
  {
    hide Forest, CutsCycle, IsDrawing, Breaks, Distinct, Flat, Known, Before;
    var D := Forest(P, L);
    ForestExtras(P, L);
    forall x ensures x in Ids(D.extras) <==> x in L && CutsCycle(P, L, x) {
      if x in L { ExtrasCut(P, L, D, x); }
    }
    forall i, j | 0 <= i < j < |D.extras| ensures Before(L, Ids(D.extras)[i], Ids(D.extras)[j]) {
      ExtrasBefore(P, L, D.extras, i, j);
    }
  }

  lemma LaterRoot(extras: seq<Tree>, i: nat, j: nat)
    requires i < j < |extras|
    ensures extras[j].id in Flat(extras[i..])
  {
    assert extras[i..] == extras[i..j] + extras[j..];
    FlatConcat(extras[i..j], extras[j..]);
    HeadOfTail(extras, j);
    var x := Flat(extras[j..])[0];
    assert x in Flat(extras[j..]);
  }

  lemma {:induction false} DistinctRoots(trees: seq<Tree>, i: nat, j: nat)
    requires Distinct(Flat(trees)) && i < j < |trees|
    ensures trees[i].id != trees[j].id
    decreases i
  {
    FlatParts(trees);
    if i == 0 {
      IdsInFlat(trees[1..]);
      assert trees[j] == trees[1..][j - 1];
      assert Ids(trees[1..])[j - 1] in Ids(trees[1..]);
    } else {
      DistinctRoots(trees[1..], i - 1, j - 1);
    }
  }

  /**
   * After the move every list of the drawing - the top level, the cycle-cutting roots, the children of each folder -
   * is the old list with d directly before or after t, or the old list itself.
   */
  lemma DrawingMoved(P: Parents, L: seq<Id>, M: seq<Id>, d: Id, t: Id, after: bool)
    requires Known(P, L) && Known(P, M) && MovedOrder(L, M, d, t, after) && P[d] == P[t]
    requires !CutsCycle(P, L, d) && !CutsCycle(P, L, t)
    ensures var D, E := Forest(P, L), Forest(P, M);
      && (d in Ids(D.tops) <==> t in Ids(D.tops)) && Ids(E.tops) == MovedList(Ids(D.tops), d, t, after)
      && Ids(E.extras) == Ids(D.extras)
      && forall x | x in L ::
        var was := ChildrenIn(D.tops + D.extras, x);
        (d in was <==> t in was) && ChildrenIn(E.tops + E.extras, x) == MovedList(was, d, t, after)
  {
    var D, E := Forest(P, L), Forest(P, M);
    assert d in L && t in L && forall x :: x in L <==> x in M;
    TopsMoved(P, L, M, d, t, after);
    ForestIsDrawing(P, L);
    ForestIsDrawing(P, M);
    ExtrasInOrder(P, L);
    ExtrasInOrder(P, M);
    hide Forest, CutsCycle, MovedOrder, IsDrawing, Follows;
    forall x | x in L ensures CutsCycle(P, M, x) <==> CutsCycle(P, L, x) {
      CutsUnmoved(P, L, M, d, t, after, x);
    }
    ListMoved(L, M, d, t, after, Ids(D.extras), Ids(E.extras));
    forall x | x in L
      ensures var was := ChildrenIn(D.tops + D.extras, x);
        (d in was <==> t in was) && ChildrenIn(E.tops + E.extras, x) == MovedList(was, d, t, after)
    {
      ChildrenOfNode(P, L, x);
      ChildrenOfNode(P, M, x);
      ListMoved(L, M, d, t, after, ChildrenIn(D.tops + D.extras, x), ChildrenIn(E.tops + E.extras, x));
    }
  }

  lemma TopsMoved(P: Parents, L: seq<Id>, M: seq<Id>, d: Id, t: Id, after: bool)
    requires Known(P, L) && Known(P, M) && MovedOrder(L, M, d, t, after) && P[d] == P[t]
    ensures var D, E := Forest(P, L), Forest(P, M);
      (d in Ids(D.tops) <==> t in Ids(D.tops)) && Ids(E.tops) == MovedList(Ids(D.tops), d, t, after)
  {
    ForestIsDrawing(P, L);
    ForestIsDrawing(P, M);
    hide Forest;
    FollowsOwn(P, L);
    FollowsOwn(P, M);
    KidsFollow(P, L, L, None);
    KidsFollow(P, M, M, None);
    ListMoved(L, M, d, t, after, Kids(P, L, None), Kids(P, M, None));
  }
}
