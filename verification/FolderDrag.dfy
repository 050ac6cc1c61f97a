/** When a dropped folder ends up beside its target: always, unless the drop itself decides who cuts a cycle. */
module FolderDrag {
  import opened Wrappers
  import opened FolderOrder
  import opened FolderForest
  import opened FolderPlacement
  import opened FolderReorder
  import opened FolderTree

  /** d stands directly after t in s, or directly before it. */
  ghost predicate NextTo(s: seq<Id>, d: Id, t: Id, after: bool) {
    d in s && t in s && if after then Pos(s, d) == Pos(s, t) + 1 else Pos(s, t) == Pos(s, d) + 1
  }

  /** A list of the drawing: the top level, cycle-cutting roots included, or the children of a folder. */
  ghost predicate ListOf(D: Drawing, s: seq<Id>) {
    s == Ids(D.tops + D.extras) || exists x :: s == ChildrenIn(D.tops + D.extras, x)
  }

  ghost predicate DrawnNextTo(D: Drawing, d: Id, t: Id, after: bool) {
    exists s :: ListOf(D, s) && NextTo(s, d, t, after)
  }

  /** The target comes before every other folder on its endless chain, d left aside. */
  ghost predicate Leads(P: Parents, L: seq<Id>, d: Id, t: Id) {
    !ReachesTop(P, t) && forall c | IsAncestor(P, c, t) && c != t && c != d :: Before(L, t, c)
  }

  /**
   * The drop decides between d and t which of them cuts the cycle: the target leads its chain, and either d is on
   * that chain and put before it, or the target is on its own chain and d put after it.
   */
  ghost predicate TornApart(P: Parents, L: seq<Id>, d: Id, t: Id, after: bool) {
    Leads(P, L, d, t) && if after then IsAncestor(P, t, t) else IsAncestor(P, d, t)
  }

  /** The target comes before every other folder on the endless chain of d. */
  ghost predicate LeadsFor(P: Parents, L: seq<Id>, d: Id, t: Id) {
    !ReachesTop(P, d) && forall c | IsAncestor(P, c, d) && c != d && c != t :: Before(L, t, c)
  }

  /** After the drop the target cuts a cycle, told from the order before it. */
  ghost predicate TargetCuts(P: Parents, L: seq<Id>, d: Id, t: Id, after: bool) {
    Leads(P, L, d, t) && (IsAncestor(P, d, t) ==> after)
  }

  /** So does the dropped folder. */
  ghost predicate DroppedCuts(P: Parents, L: seq<Id>, d: Id, t: Id, after: bool) {
    LeadsFor(P, L, d, t) && (IsAncestor(P, t, d) ==> !after)
  }

  /**
   * Of the two, the one to be drawn first has no parent and the other's chain is endless; every other folder without a
   * parent comes before the target, and every other one with an endless chain after it.
   */
  ghost predicate AtBoundary(P: Parents, L: seq<Id>, d: Id, t: Id, after: bool)
    requires d in P && t in P && forall y | y in L :: y in P
  {
    && (if after then P[t] == None && !ReachesTop(P, d) else P[d] == None && !ReachesTop(P, t))
    && forall y | y in L && y != d && y != t ::
         (P[y] == None ==> Before(L, y, t)) && (!ReachesTop(P, y) ==> Before(L, t, y))
  }

  /** Both cut a cycle, or they have one parent and neither does, or they meet where the roots without a parent end. */
  ghost predicate EndsBeside(P: Parents, L: seq<Id>, d: Id, t: Id, after: bool)
    requires d in P && t in P && forall y | y in L :: y in P
  {
    || (DroppedCuts(P, L, d, t, after) && TargetCuts(P, L, d, t, after))
    || (P[d] == P[t] && !DroppedCuts(P, L, d, t, after) && !TargetCuts(P, L, d, t, after))
    || AtBoundary(P, L, d, t, after)
  }

  // -- Lists follow the order --------------------------------------------------------------------

  /** Drawn before, when in one list: roots without a parent come first, otherwise the order decides. */
  ghost predicate Above(P: Parents, L: seq<Id>, x: Id, y: Id)
    requires x in P && y in P
  {
    (P[x] == None && P[y] != None) || ((P[x] == None <==> P[y] == None) && Before(L, x, y))
  }

  ghost predicate Falls(P: Parents, L: seq<Id>, s: seq<Id>) {
    && (forall x | x in s :: x in L && x in P)
    && forall i, j | 0 <= i < j < |s| :: s[i] in P && s[j] in P && Above(P, L, s[i], s[j])
  }

  lemma ListsFall(P: Parents, L: seq<Id>, s: seq<Id>)
    requires Known(P, L) && ListOf(Forest(P, L), s)
    ensures Falls(P, L, s)
  {
    var D := Forest(P, L);
    hide Forest, CutsCycle;
    if s == Ids(D.tops + D.extras) {
      TopLevel(P, L);
      RootsFall(P, L, Ids(D.tops), Ids(D.extras));
    } else {
      var x :| s == ChildrenIn(D.tops + D.extras, x);
      ChildrenFollow(P, L, x);
      KidsFall(P, L, s);
    }
  }

  lemma KidsFall(P: Parents, L: seq<Id>, s: seq<Id>)
    requires Follows(L, s) && (forall x | x in L :: x in P) && forall x | x in s :: P[x] != None
    ensures Falls(P, L, s)
  {
    RootsFall(P, L, [], s);
    assert [] + s == s;
  }

  lemma RootsFall(P: Parents, L: seq<Id>, a: seq<Id>, b: seq<Id>)
    requires Follows(L, a) && Follows(L, b) && (forall x | x in L :: x in P)
    requires (forall x | x in a :: P[x] == None) && forall x | x in b :: P[x] != None
    ensures Falls(P, L, a + b)
  {
    var s := a + b;
    forall i, j | 0 <= i < j < |s| ensures Above(P, L, s[i], s[j]) {
      assert i < |a| ==> s[i] == a[i] && a[i] in a;
      assert j >= |a| ==> s[j] == b[j - |a|] && b[j - |a|] in b;
      assert i >= |a| ==> s[i] == b[i - |a|] && b[i - |a|] in b;
      assert j < |a| ==> s[j] == a[j] && a[j] in a;
    }
  }

  /** The top level: the folders without a parent, then those that cut a cycle. */
  lemma TopLevel(P: Parents, L: seq<Id>)
    requires Known(P, L)
    ensures var D := Forest(P, L);
      && Ids(D.tops + D.extras) == Ids(D.tops) + Ids(D.extras)
      && Follows(L, Ids(D.tops)) && Follows(L, Ids(D.extras))
      && (forall x :: x in Ids(D.tops) <==> x in L && P[x] == None)
      && (forall x :: x in Ids(D.extras) <==> x in L && CutsCycle(P, L, x))
      && forall x | x in L && P[x] == None :: !CutsCycle(P, L, x)
  {
    hide Forest, CutsCycle, Follows, Distinct;
    var D := Forest(P, L);
    IdsOfBoth(D.tops, D.extras);
    TopsFollow(P, L);
    ExtrasInOrder(P, L);
    forall x | x in L && P[x] == None ensures !CutsCycle(P, L, x) {
      RootCutsNot(P, L, x);
    }
  }

  lemma {:induction false} IdsOfBoth(a: seq<Tree>, b: seq<Tree>)
    ensures Ids(a + b) == Ids(a) + Ids(b)
  {
    if |a| > 0 {
      IdsOfBoth(a[1..], b);
      assert (a + b)[1..] == a[1..] + b;
    } else {
      assert a + b == b;
    }
  }

  lemma RootCutsNot(P: Parents, L: seq<Id>, x: Id)
    requires x in P && P[x] == None
    ensures !CutsCycle(P, L, x)
  {
    NoAncestors(P, x);
  }

  lemma OneIsAbove(P: Parents, L: seq<Id>, x: Id, y: Id)
    requires x in P && y in P && x in L && y in L && x != y
    ensures Above(P, L, x, y) <==> !Above(P, L, y, x)
  {
    BeforeTotal(L, x, y);
  }

  lemma FallsDistinct(P: Parents, L: seq<Id>, s: seq<Id>)
    requires Falls(P, L, s)
    ensures Distinct(s)
  {
  }

  /** In a list of the drawing the two stand as Above tells. */
  lemma InList(P: Parents, L: seq<Id>, s: seq<Id>, x: Id, y: Id)
    requires Falls(P, L, s) && x in s && y in s && x != y
    ensures Before(s, x, y) <==> Above(P, L, x, y)
  {
    FallsDistinct(P, L, s);
    var i, j := Pos(s, x), Pos(s, y);
    OneIsAbove(P, L, x, y);
    assert s[i] == x && s[j] == y;
    assert i < j ==> Above(P, L, s[i], s[j]);
    assert j < i ==> Above(P, L, s[j], s[i]);
  }

  lemma TopsFollow(P: Parents, L: seq<Id>)
    requires Known(P, L)
    ensures Follows(L, Ids(Forest(P, L).tops))
    ensures forall x :: x in Ids(Forest(P, L).tops) <==> x in L && P[x] == None
  {
    ForestIsDrawing(P, L);
    hide Forest, Flat, Edges, Sorted, Breaks;
    FollowsOwn(P, L);
    KidsFollow(P, L, L, None);
  }

  lemma ChildrenFollow(P: Parents, L: seq<Id>, x: Id)
    requires Known(P, L)
    ensures var s := ChildrenIn(Forest(P, L).tops + Forest(P, L).extras, x);
      Follows(L, s) && forall y :: y in s <==> y in L && P[y] == Some(x) && !CutsCycle(P, L, y)
  {
    if x in L {
      ChildrenOfNode(P, L, x);
    } else {
      ForestIsDrawing(P, L);
      hide Forest, CutsCycle, Edges, Sorted, Breaks;
      ChildrenNowhere(Forest(P, L).tops + Forest(P, L).extras, x);
    }
  }

  /** With nothing between them in the order, d and t are neighbours in every list that holds both. */
  lemma Neighbours(P: Parents, L: seq<Id>, M: seq<Id>, d: Id, t: Id, after: bool, s: seq<Id>)
    requires MovedOrder(L, M, d, t, after) && Falls(P, M, s) && d in s && t in s && (P[d] == None <==> P[t] == None)
    ensures NextTo(s, d, t, after)
  {
    var i, j := Pos(s, t), Pos(s, d);
    assert s[i] == t && s[j] == d;
    if i < j {
      assert Above(P, M, t, d);
      if j > i + 1 { Between(P, L, M, d, t, after, s, i, j); }
    } else {
      assert i != j && Above(P, M, d, t);
      if i > j + 1 { Between(P, L, M, d, t, after, s, j, i); }
    }
  }

  /** A folder between the two would stand on different sides of them in the order. */
  lemma Between(P: Parents, L: seq<Id>, M: seq<Id>, d: Id, t: Id, after: bool, s: seq<Id>, i: nat, j: nat)
    requires MovedOrder(L, M, d, t, after) && Falls(P, M, s) && i + 1 < j < |s|
    requires d in P && t in P && (P[d] == None <==> P[t] == None)
    ensures !(s[i] == t && s[j] == d) && !(s[i] == d && s[j] == t)
  {
    var y := s[i + 1];
    assert s[i] in P && y in P && s[j] in P;
    assert Above(P, M, s[i], y) && Above(P, M, y, s[j]);
    assert y in s;
  }

  // -- Who cuts after the drop ---------------------------------------------------------------------

  lemma SameChain(P: Parents, L: seq<Id>, d: Id, t: Id)
    requires Known(P, L) && d in L && t in L && P[d] == P[t]
    ensures ReachesTop(P, d) <==> ReachesTop(P, t)
    ensures forall a :: IsAncestor(P, a, d) <==> IsAncestor(P, a, t)
  {
    if P[d].Some? {
      ChainStep(P, d, P[d].value);
      ChainStep(P, t, P[t].value);
    } else {
      NoAncestors(P, d);
      NoAncestors(P, t);
    }
  }

  lemma NoAncestors(P: Parents, x: Id)
    requires x in P && P[x] == None
    ensures ReachesTop(P, x) && forall a :: !IsAncestor(P, a, x)
  {
    TopsDoNotCut(P, x);
    forall a ensures !IsAncestor(P, a, x) {
      forall n: nat | n > 0 ensures Ancestor(P, x, n) == None {
        NothingAbove(P, x, n);
      }
    }
  }

  lemma {:induction false} NothingAbove(P: Parents, x: Id, n: nat)
    requires x in P && P[x] == None && n > 0
    ensures Ancestor(P, x, n) == None
  {
    assert Ancestor(P, x, 0) == Some(x);
    if n > 1 { NothingAbove(P, x, n - 1); }
  }

  /** In the new order the target comes before the rest of the chain exactly if it did, and so does d. */
  lemma SidesKept(L: seq<Id>, M: seq<Id>, d: Id, t: Id, after: bool, c: Id)
    requires MovedOrder(L, M, d, t, after) && c in L && c != d && c != t
    ensures Before(M, t, c) <==> Before(L, t, c)
    ensures Before(M, d, c) <==> Before(L, t, c)
  {
    BeforeTotal(M, d, c);
    BeforeTotal(L, t, c);
  }

  /** Who cuts in the new order, told from the order before. */
  lemma CutsInNew(P: Parents, L: seq<Id>, M: seq<Id>, d: Id, t: Id, after: bool)
    requires Known(P, L) && Known(P, M) && MovedOrder(L, M, d, t, after)
    ensures CutsCycle(P, M, t) <==> TargetCuts(P, L, d, t, after)
    ensures CutsCycle(P, M, d) <==> DroppedCuts(P, L, d, t, after)
  {
    hide IsAncestor, ReachesTop, Known;
    BeforeTotal(M, t, d);
    forall c | (IsAncestor(P, c, t) || IsAncestor(P, c, d)) && c != t && c != d
      ensures (Before(M, t, c) <==> Before(L, t, c)) && (Before(M, d, c) <==> Before(L, t, c))
    {
      if IsAncestor(P, c, t) { AncestorInList(P, L, c, t); } else { AncestorInList(P, L, c, d); }
      SidesKept(L, M, d, t, after, c);
    }
    hide Before;
  }

  /** After the drop both cut or neither does, unless the drop tore them apart. */
  lemma SameRole(P: Parents, L: seq<Id>, M: seq<Id>, d: Id, t: Id, after: bool)
    requires Known(P, L) && Known(P, M) && MovedOrder(L, M, d, t, after) && P[d] == P[t]
    ensures (CutsCycle(P, M, d) <==> CutsCycle(P, M, t)) <==> !TornApart(P, L, d, t, after)
  {
    CutsInNew(P, L, M, d, t, after);
    SameChain(P, L, d, t);
    hide CutsCycle, IsAncestor, ReachesTop;
  }

  /** The dropped folder is drawn directly beside its target exactly when the drop did not tear them apart. */
  lemma DrawnBeside(P: Parents, L: seq<Id>, M: seq<Id>, d: Id, t: Id, after: bool)
    requires Known(P, L) && Known(P, M) && MovedOrder(L, M, d, t, after) && P[d] == P[t]
    ensures DrawnNextTo(Forest(P, M), d, t, after) <==> !TornApart(P, L, d, t, after)
  {
    hide Forest, CutsCycle, TornApart, NextTo, Before, Distinct, ListOf, Falls;
    SameRole(P, L, M, d, t, after);
    if CutsCycle(P, M, d) <==> CutsCycle(P, M, t) {
      var s := Together(P, M, d, t);
      Neighbours(P, L, M, d, t, after, s);
    } else {
      forall s | ListOf(Forest(P, M), s) ensures !(d in s && t in s) {
        Apart(P, M, d, t, s);
      }
      NotNextTo(d, t, after);
    }
  }

  lemma NotNextTo(d: Id, t: Id, after: bool)
    ensures forall s | !(d in s && t in s) :: !NextTo(s, d, t, after)
  {
  }

  /** Folders with one parent and one role are drawn in one list. */
  lemma Together(P: Parents, M: seq<Id>, d: Id, t: Id) returns (s: seq<Id>)
    requires Known(P, M) && d in M && t in M
    requires
      || (P[d] == P[t] && (CutsCycle(P, M, d) <==> CutsCycle(P, M, t)))
      || (CutsCycle(P, M, d) && CutsCycle(P, M, t))
    ensures ListOf(Forest(P, M), s) && Falls(P, M, s) && d in s && t in s && (P[d] == None <==> P[t] == None)
  {
    hide Forest, CutsCycle, Follows, Falls;
    var D := Forest(P, M);
    TopLevel(P, M);
    if CutsCycle(P, M, d) || P[d] == None {
      s := Ids(D.tops + D.extras);
    } else {
      s := ChildrenIn(D.tops + D.extras, P[d].value);
      ChildrenFollow(P, M, P[d].value);
    }
    ListsFall(P, M, s);
  }

  /** Two folders in one list have one parent and cut nothing, or both cut, or one has no parent and the other cuts. */
  lemma InOneList(P: Parents, M: seq<Id>, d: Id, t: Id, s: seq<Id>)
    requires Known(P, M) && d in M && t in M && ListOf(Forest(P, M), s) && d in s && t in s
    ensures || (P[d] == P[t] && !CutsCycle(P, M, d) && !CutsCycle(P, M, t))
            || (CutsCycle(P, M, d) && CutsCycle(P, M, t))
            || (s == Ids(Forest(P, M).tops + Forest(P, M).extras)
                && ((P[d] == None && CutsCycle(P, M, t)) || (P[t] == None && CutsCycle(P, M, d))))
  {
    hide Forest, CutsCycle, Follows, Known;
    var D := Forest(P, M);
    TopLevel(P, M);
    if s != Ids(D.tops + D.extras) {
      var x :| s == ChildrenIn(D.tops + D.extras, x);
      ChildrenFollow(P, M, x);
    }
  }

  /** A folder that cuts and one with the same parent that does not are in no list together. */
  lemma Apart(P: Parents, M: seq<Id>, d: Id, t: Id, s: seq<Id>)
    requires Known(P, M) && d in M && t in M && P[d] == P[t]
    requires !(CutsCycle(P, M, d) <==> CutsCycle(P, M, t)) && ListOf(Forest(P, M), s)
    ensures !(d in s && t in s)
  {
    TopLevel(P, M);
    hide Forest, CutsCycle, Follows, Known, ListOf;
    if d in s && t in s { InOneList(P, M, d, t, s); }
  }

  // -- Where the roots without a parent end ----------------------------------------------------------

  /** Some folder that cuts a cycle comes no later than a folder with an endless chain. */
  lemma {:induction false} CutterNoLater(P: Parents, M: seq<Id>, c: Id) returns (e: Id)
    requires Known(P, M) && c in M && !ReachesTop(P, c)
    ensures e in M && CutsCycle(P, M, e) && (e == c || Before(M, e, c))
    decreases Pos(M, c)
  {
    if CutsCycle(P, M, c) {
      e := c;
    } else {
      var a := EarlierAncestor(P, M, c);
      EndlessAncestor(P, M, a, c);
      e := CutterNoLater(P, M, a);
    }
  }

  lemma EndlessAncestor(P: Parents, M: seq<Id>, a: Id, c: Id)
    requires Known(P, M) && c in M && !ReachesTop(P, c) && IsAncestor(P, a, c)
    ensures !ReachesTop(P, a)
  {
    var n: nat :| n > 0 && Ancestor(P, c, n) == Some(a);
    EndlessAbove(P, M, c, n);
  }

  lemma {:induction false} EndlessAbove(P: Parents, M: seq<Id>, c: Id, n: nat)
    requires Known(P, M) && c in M && !ReachesTop(P, c)
    ensures Ancestor(P, c, n).Some? && Ancestor(P, c, n).value in M && !ReachesTop(P, Ancestor(P, c, n).value)
  {
    hide ReachesTop, Distinct;
    if n > 0 {
      EndlessAbove(P, M, c, n - 1);
      NeverEnding(P, M, Ancestor(P, c, n - 1).value);
    }
  }

  /** Of the folders with endless chains the first in the order is the first that cuts. */
  lemma FirstCutter(P: Parents, M: seq<Id>, q: Id)
    requires Known(P, M) && q in M && !ReachesTop(P, q)
    ensures (CutsCycle(P, M, q) && forall c | c in M && CutsCycle(P, M, c) && c != q :: Before(M, q, c))
       <==> forall c | c in M && !ReachesTop(P, c) && c != q :: Before(M, q, c)
  {
    if forall c | c in M && !ReachesTop(P, c) && c != q :: Before(M, q, c) {
      forall a | IsAncestor(P, a, q) && a != q ensures Before(M, q, a) {
        AncestorInList(P, M, a, q);
        EndlessAncestor(P, M, a, q);
      }
    }
    if CutsCycle(P, M, q) && forall c | c in M && CutsCycle(P, M, c) && c != q :: Before(M, q, c) {
      forall c | c in M && !ReachesTop(P, c) && c != q ensures Before(M, q, c) {
        var e := CutterNoLater(P, M, c);
        BeforeTotal(M, q, c);
      }
    }
  }

  /** The root r is the last without a parent and q the first that cuts. */
  ghost predicate Meet(P: Parents, M: seq<Id>, r: Id, q: Id)
    requires forall y | y in M :: y in P
  {
    && r in M && q in M && P[r] == None && CutsCycle(P, M, q)
    && (forall y | y in M && P[y] == None && y != r :: Before(M, y, r))
    && (forall c | c in M && CutsCycle(P, M, c) && c != q :: Before(M, q, c))
  }

  /** Where they meet they are neighbours. */
  lemma NeighboursWhereTheyMeet(P: Parents, M: seq<Id>, r: Id, q: Id)
    requires Known(P, M) && r in M && q in M && P[r] == None && P[q] != None
    ensures var s := Ids(Forest(P, M).tops + Forest(P, M).extras);
      r in s && q in s && Pos(s, q) == Pos(s, r) + 1 <==> Meet(P, M, r, q)
  {
    hide Forest, CutsCycle, Follows, Distinct, Falls;
    TopLevel(P, M);
    var D := Forest(P, M);
    var s, a, b := Ids(D.tops + D.extras), Ids(D.tops), Ids(D.extras);
    assert s == a + b;
    RootsFall(P, M, a, b);
    FallsDistinct(P, M, s);
    FollowsDistinct(M, a);
    FollowsDistinct(M, b);
    if r in s && q in s {
      MeetAtEnds(M, a, b, r, q);
      LastFollows(M, a, r);
      FirstFollows(M, b, q);
    }
  }

  lemma MeetAtEnds(M: seq<Id>, a: seq<Id>, b: seq<Id>, r: Id, q: Id)
    requires Distinct(a + b) && r in a && q in b
    ensures Pos(a + b, q) == Pos(a + b, r) + 1 <==> a[|a| - 1] == r && b[0] == q
  {
    var s := a + b;
    var i :| 0 <= i < |a| && a[i] == r;
    var j :| 0 <= j < |b| && b[j] == q;
    assert s[i] == r && s[|a| + j] == q;
    PosAt(s, i);
    PosAt(s, |a| + j);
    assert a[|a| - 1] == s[|a| - 1] && b[0] == s[|a|];
  }

  lemma LastFollows(M: seq<Id>, a: seq<Id>, r: Id)
    requires Follows(M, a) && r in a
    ensures a[|a| - 1] == r <==> forall y | y in a && y != r :: Before(M, y, r)
  {
    var z := a[|a| - 1];
    if z == r {
      forall y | y in a && y != r ensures Before(M, y, r) {
        var i :| 0 <= i < |a| && a[i] == y;
        assert Before(M, a[i], a[|a| - 1]);
      }
    } else {
      var i :| 0 <= i < |a| && a[i] == r;
      assert z in a && Before(M, a[i], a[|a| - 1]);
    }
  }

  lemma FirstFollows(M: seq<Id>, b: seq<Id>, q: Id)
    requires Follows(M, b) && q in b
    ensures b[0] == q <==> forall y | y in b && y != q :: Before(M, q, y)
  {
    if b[0] == q {
      forall y | y in b && y != q ensures Before(M, q, y) {
        var i :| 0 <= i < |b| && b[i] == y;
        assert Before(M, b[0], b[i]);
      }
    } else {
      var i :| 0 <= i < |b| && b[i] == q;
      assert b[0] in b && Before(M, b[0], b[i]);
    }
  }

  /** After the drop the two meet exactly if the order before it says so. */
  lemma MeetAfterDrop(P: Parents, L: seq<Id>, M: seq<Id>, d: Id, t: Id, after: bool)
    requires Known(P, L) && Known(P, M) && MovedOrder(L, M, d, t, after)
    ensures AtBoundary(P, L, d, t, after) <==> if after then Meet(P, M, t, d) else Meet(P, M, d, t)
  {
    var r, q := if after then t else d, if after then d else t;
    forall y | y in L && y != d && y != t
      ensures Before(M, r, y) <==> Before(L, t, y)
      ensures Before(M, q, y) <==> Before(L, t, y)
      ensures Before(M, y, r) <==> Before(L, y, t)
    {
      SidesKept(L, M, d, t, after, y);
      BeforeTotal(M, r, y);
      BeforeTotal(L, t, y);
    }
    if P[r] == None {
      TopsDoNotCut(P, r);
      if !ReachesTop(P, q) {
        FirstCutter(P, M, q);
        if P[q] == None { TopsDoNotCut(P, q); }
      }
    }
    forall y | y in L && P[y] == None ensures ReachesTop(P, y) {
      TopsDoNotCut(P, y);
    }
    hide Before, IsAncestor, Known;
  }

  /** The dropped folder is drawn directly beside its target exactly when the order before the drop says so. */
  lemma BesideExactly(P: Parents, L: seq<Id>, M: seq<Id>, d: Id, t: Id, after: bool)
    requires Known(P, L) && Known(P, M) && MovedOrder(L, M, d, t, after)
    ensures DrawnNextTo(Forest(P, M), d, t, after) <==> EndsBeside(P, L, d, t, after)
  {
    assert d in M && t in M;
    CutsInNew(P, L, M, d, t, after);
    MeetAfterDrop(P, L, M, d, t, after);
    if P[d] == None { RootCutsNot(P, M, d); }
    if P[t] == None { RootCutsNot(P, M, t); }
    hide Forest, CutsCycle, AtBoundary, TargetCuts, DroppedCuts, Before, ListOf, Distinct, Falls;
    if (CutsCycle(P, M, d) && CutsCycle(P, M, t)) || (P[d] == P[t] && !CutsCycle(P, M, d) && !CutsCycle(P, M, t)) {
      var s := Together(P, M, d, t);
      Neighbours(P, L, M, d, t, after, s);
    } else {
      BesideAtTop(P, M, d, t, after);
    }
  }

  /** Folders of different kinds can only be neighbours where the roots without a parent end. */
  lemma BesideAtTop(P: Parents, M: seq<Id>, d: Id, t: Id, after: bool)
    requires Known(P, M) && d in M && t in M && d != t
    requires !(CutsCycle(P, M, d) && CutsCycle(P, M, t))
    requires !(P[d] == P[t] && !CutsCycle(P, M, d) && !CutsCycle(P, M, t))
    ensures DrawnNextTo(Forest(P, M), d, t, after) <==> if after then Meet(P, M, t, d) else Meet(P, M, d, t)
  {
    var r, q := if after then t else d, if after then d else t;
    var top := Ids(Forest(P, M).tops + Forest(P, M).extras);
    hide Forest, CutsCycle;
    forall s | ListOf(Forest(P, M), s) && d in s && t in s
      ensures s == top && ((P[d] == None && P[t] != None) || (P[t] == None && P[d] != None))
    {
      hide ListOf;
      InOneList(P, M, d, t, s);
      if P[d] == None { RootCutsNot(P, M, d); }
      if P[t] == None { RootCutsNot(P, M, t); }
    }
    assert ListOf(Forest(P, M), top);
    if P[r] == None && P[q] != None {
      NeighboursWhereTheyMeet(P, M, r, q);
    } else {
      if P[q] == None { RootCutsNot(P, M, q); }
      if P[q] == None && P[r] != None { NotReversed(P, M, q, r); }
    }
  }

  lemma NotReversed(P: Parents, M: seq<Id>, x: Id, y: Id)
    requires Known(P, M) && x in M && y in M && P[x] == None && P[y] != None
    ensures var s := Ids(Forest(P, M).tops + Forest(P, M).extras); x in s && y in s ==> Pos(s, x) < Pos(s, y)
  {
    var s := Ids(Forest(P, M).tops + Forest(P, M).extras);
    ListsFall(P, M, s);
    hide Forest;
    if x in s && y in s { InList(P, M, s, x, y); }
  }

  // -- Where the roots without a parent end -----------------------------------------------------------------

  /** A folder without a parent, and two that are each other's parent. */
  const MEETING: Parents := map[1 := None, 2 := Some(3), 3 := Some(2)]

  lemma {:induction false} MeetingGoesRound(x: Id, n: nat)
    requires x == 2 || x == 3
    ensures Ancestor(MEETING, x, n) == Some(2) || Ancestor(MEETING, x, n) == Some(3)
  {
    if n > 0 { MeetingGoesRound(x, n - 1); }
  }

  /**
   * Two folders with different parents may end side by side: the one has no parent, the other cuts a cycle, and the
   * drop changes nothing.
   */
  lemma MeetWithDifferentParents()
    ensures Known(MEETING, [1, 2, 3]) && MovedOrder([1, 2, 3], [1, 2, 3], 2, 1, true)
    ensures MEETING[2] != MEETING[1] && DrawnNextTo(Forest(MEETING, [1, 2, 3]), 2, 1, true)
  {
    var L: seq<Id> := [1, 2, 3];
    assert L[0] == 1 && L[1] == 2 && L[2] == 3;
    BeforeByIndex(L, 0, 1);
    BeforeByIndex(L, 0, 2);
    BeforeByIndex(L, 1, 2);
    forall x, n: nat | x == 2 || x == 3 ensures Ancestor(MEETING, x, n) != None { MeetingGoesRound(x, n); }
    assert !ReachesTop(MEETING, 2) && !ReachesTop(MEETING, 3);
    assert AtBoundary(MEETING, L, 2, 1, true);
    hide Forest, AtBoundary, DrawnNextTo, Before;
    BesideExactly(MEETING, L, L, 2, 1, true);
  }

  // -- Drops in the pane -----------------------------------------------------------------------------

  /**
   * Drag reorder, exactly: after dropping a custom folder before or after a custom folder with the same parent, the
   * redraw puts it directly before or after it if and only if the drop did not tear them apart.
   */
  lemma DropIsBeside(F: seq<Folder>, order: seq<Id>, d: Id, t: Id, after: bool)
    requires WellFormed(F) && IsCustom(F, d) && IsCustom(F, t) && d != t
    requires d in ParentsOf(F) && t in ParentsOf(F) && ParentsOf(F)[d] == ParentsOf(F)[t]
    ensures DrawnNextTo(ForestOf(F, DroppedOrder(F, order, d, t, after)), d, t, after)
       <==> !TornApart(ParentsOf(F), Order(F, DrawnOrder(F, order)), d, t, after)
  {
    hide DrawnOrder, DroppedOrder, Order, ParentsOf, DrawnNextTo, TornApart, Forest, Known, MovedOrder;
    KnownForest(F, DrawnOrder(F, order));
    KnownForest(F, DroppedOrder(F, order, d, t, after));
    DropMovesOrder(F, order, d, t, after);
    DrawnBeside(
      ParentsOf(F), Order(F, DrawnOrder(F, order)), Order(F, DroppedOrder(F, order, d, t, after)), d, t, after);
  }

  /** Whatever the drop does, two other folders that share a list before and after it keep their order. */
  lemma OthersKeepOrder(
    F: seq<Folder>, order: seq<Id>, d: Id, t: Id, after: bool, was: seq<Id>, now: seq<Id>, x: Id, y: Id)
    requires WellFormed(F) && IsCustom(F, d) && IsCustom(F, t) && d != t
    requires ListOf(ForestOf(F, order), was) && ListOf(ForestOf(F, DroppedOrder(F, order, d, t, after)), now)
    requires x in was && y in was && x in now && y in now && x != y && x != d && y != d
    ensures Before(now, x, y) <==> Before(was, x, y)
  {
    var stored, moved := DrawnOrder(F, order), DroppedOrder(F, order, d, t, after);
    hide DrawnOrder, DroppedOrder, Order, ParentsOf, Forest, Known, Before, ListOf;
    RedrawStable(F, order);
    KnownForest(F, stored);
    KnownForest(F, moved);
    DropMovesOrder(F, order, d, t, after);
    ListsFall(ParentsOf(F), Order(F, stored), was);
    ListsFall(ParentsOf(F), Order(F, moved), now);
    InList(ParentsOf(F), Order(F, stored), was, x, y);
    InList(ParentsOf(F), Order(F, moved), now, x, y);
  }
}
