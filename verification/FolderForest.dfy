/** The folder forest: built with one shared set of attached folders, and what any correct drawing looks like. */
module FolderForest {
  import opened Wrappers
  import opened FolderOrder

  datatype Tree = Tree(id: Id, children: seq<Tree>)

  /** Trees whose root has no parent, then the trees that break a parent cycle. */
  datatype Drawing = Drawing(tops: seq<Tree>, extras: seq<Tree>)

  type Parents = map<Id, Option<Id>>

  /** Every listed folder has an entry, and every named parent is a listed folder. */
  predicate Known(P: Parents, L: seq<Id>) {
    Distinct(L) && forall x | x in L :: x in P && (P[x].Some? ==> P[x].value in L)
  }

  function Elems(s: seq<Id>): set<Id> {
    set x | x in s
  }

  /** The folders of s whose parent is p, in the order of s. */
  function Kids(P: Parents, s: seq<Id>, p: Option<Id>): (kids: seq<Id>)
    requires forall x | x in s :: x in P
    ensures forall x :: x in kids <==> x in s && P[x] == p
  {
    if |s| == 0 then []
    else
      var x := s[0];
      assert x in s;
      (if P[x] == p then [x] else []) + Kids(P, s[1..], p)
  }

  lemma {:induction false} KidsFollow(P: Parents, L: seq<Id>, s: seq<Id>, p: Option<Id>)
    requires Follows(L, s) && forall x | x in s :: x in P
    ensures Follows(L, Kids(P, s, p))
  {
    if |s| > 0 {
      FollowsTail(L, s);
      KidsFollow(P, L, s[1..], p);
      var x := s[0];
      assert x in s;
      if P[x] == p {
        forall y | y in Kids(P, s[1..], p) ensures Before(L, s[0], y) {
          FirstBefore(L, s, y);
        }
        FollowsCons(L, s[0], Kids(P, s[1..], p));
      }
    }
  }

  /** All ids in drawing order. */
  function Flat(trees: seq<Tree>): seq<Id> {
    if |trees| == 0 then [] else FlatTree(trees[0]) + Flat(trees[1..])
  }

  function FlatTree(tree: Tree): seq<Id> {
    [tree.id] + Flat(tree.children)
  }

  function Ids(trees: seq<Tree>): (ids: seq<Id>)
    ensures |ids| == |trees|
    ensures forall i | 0 <= i < |ids| :: ids[i] == trees[i].id
  {
    if |trees| == 0 then [] else [trees[0].id] + Ids(trees[1..])
  }

  datatype Built = Built(trees: seq<Tree>, attached: set<Id>)

  /** Attach the pending folders that are not attached yet, each with its own subtree, one after the other. */
  function Build(P: Parents, L: seq<Id>, pending: seq<Id>, attached: set<Id>): (r: Built)
    requires Known(P, L) && attached <= Elems(L) && (forall x | x in pending :: x in L)
    ensures attached <= r.attached <= Elems(L)
    decreases Elems(L) - attached, |pending|
  {
    if |pending| == 0 then Built([], attached)
    else
      var x := pending[0];
      assert x in pending;
      if x in attached then Build(P, L, pending[1..], attached)
      else
        var kids := Build(P, L, Kids(P, L, Some(x)), attached + {x});
        var rest := Build(P, L, pending[1..], kids.attached);
        Built([Tree(x, kids.trees)] + rest.trees, rest.attached)
  }

  function Forest(P: Parents, L: seq<Id>): Drawing
    requires Known(P, L)
  {
    var tops := Build(P, L, Kids(P, L, None), {});
    var extras := Build(P, L, L, tops.attached);
    Drawing(tops.trees, extras.trees)
  }

  // -- What a correct drawing is ---------------------------------------------------

  /** Every folder drawn inside another is drawn inside its own parent. */
  predicate Edges(P: Parents, trees: seq<Tree>) {
    |trees| == 0 ||
      (&& (forall c | c in Ids(trees[0].children) :: c in P && P[c] == Some(trees[0].id))
       && Edges(P, trees[0].children)
       && Edges(P, trees[1..]))
  }

  /** The children of every node follow the order L. */
  predicate Sorted(L: seq<Id>, trees: seq<Tree>) {
    |trees| == 0 ||
      (&& Follows(L, Ids(trees[0].children))
       && Sorted(L, trees[0].children)
       && Sorted(L, trees[1..]))
  }

  /** x stands before every other folder of s. */
  predicate First(L: seq<Id>, x: Id, s: seq<Id>) {
    forall y | y in s && y != x :: Before(L, x, y)
  }

  /**
   * Each cycle-breaking root comes first, in the order L, among everything drawn from it on, and its parent is
   * drawn no earlier than itself.
   */
  predicate Breaks(P: Parents, L: seq<Id>, extras: seq<Tree>) {
    forall i | 0 <= i < |extras| ::
      && extras[i].id in P && P[extras[i].id].Some?
      && P[extras[i].id].value in Flat(extras[i..])
      && First(L, extras[i].id, Flat(extras[i..]))
  }

  ghost predicate IsDrawing(P: Parents, L: seq<Id>, D: Drawing)
    requires Known(P, L)
  {
    var roots := D.tops + D.extras;
    && Distinct(Flat(roots)) && (forall x :: x in Flat(roots) <==> x in L)
    && Edges(P, roots) && Sorted(L, roots)
    && Ids(D.tops) == Kids(P, L, None)
    && Breaks(P, L, D.extras)
  }

  lemma {:induction false} FlatConcat(a: seq<Tree>, b: seq<Tree>)
    ensures Flat(a + b) == Flat(a) + Flat(b)
  {
    hide Flat, FlatTree;
    if |a| == 0 {
      FlatNothing();
      assert a + b == b;
    } else {
      FlatConcat(a[1..], b);
      FlatDef(a);
      FlatDef(a + b);
      assert (a + b)[1..] == a[1..] + b;
    }
  }

  lemma {:induction false} ShapeConcat(P: Parents, L: seq<Id>, a: seq<Tree>, b: seq<Tree>)
    ensures Edges(P, a + b) <==> Edges(P, a) && Edges(P, b)
    ensures Sorted(L, a + b) <==> Sorted(L, a) && Sorted(L, b)
  {
    if |a| == 0 {
      assert a + b == b;
    } else {
      ShapeConcat(P, L, a[1..], b);
      assert (a + b)[1..] == a[1..] + b;
    }
  }

  lemma {:induction false} IdsInFlat(trees: seq<Tree>)
    ensures forall x | x in Ids(trees) :: x in Flat(trees)
  {
    if |trees| > 0 {
      IdsInFlat(trees[1..]);
    }
  }

  /** y is drawn directly inside x. */
  predicate DrawnUnder(trees: seq<Tree>, x: Id, y: Id) {
    |trees| > 0 &&
      (|| (trees[0].id == x && y in Ids(trees[0].children))
       || DrawnUnder(trees[0].children, x, y)
       || DrawnUnder(trees[1..], x, y))
  }

  lemma {:induction false} DrawnUnderInFlat(trees: seq<Tree>, x: Id, y: Id)
    requires DrawnUnder(trees, x, y)
    ensures x in Flat(trees) && y in Flat(trees)
  {
    if trees[0].id == x && y in Ids(trees[0].children) {
      IdsInFlat(trees[0].children);
    } else if DrawnUnder(trees[0].children, x, y) {
      DrawnUnderInFlat(trees[0].children, x, y);
    } else {
      DrawnUnderInFlat(trees[1..], x, y);
    }
  }

  /** A drawn folder is a root of the list or stands directly inside its parent. */
  lemma {:induction false} RootOrUnder(P: Parents, trees: seq<Tree>, y: Id)
    requires Edges(P, trees) && y in Flat(trees) && y !in Ids(trees)
    ensures y in P && P[y].Some? && DrawnUnder(trees, P[y].value, y)
  {
    if y in Flat(trees[0].children) {
      if y !in Ids(trees[0].children) {
        RootOrUnder(P, trees[0].children, y);
      }
    } else {
      RootOrUnder(P, trees[1..], y);
    }
  }

  lemma {:induction false} UnderIsParent(P: Parents, trees: seq<Tree>, x: Id, y: Id)
    requires Edges(P, trees) && DrawnUnder(trees, x, y)
    ensures y in P && P[y] == Some(x)
  {
    if trees[0].id == x && y in Ids(trees[0].children) {
    } else if DrawnUnder(trees[0].children, x, y) {
      UnderIsParent(P, trees[0].children, x, y);
    } else {
      UnderIsParent(P, trees[1..], x, y);
    }
  }

  lemma FlatParts(trees: seq<Tree>)
    requires |trees| > 0 && Distinct(Flat(trees))
    ensures var t := trees[0];
      && Flat(trees) == FlatTree(t) + Flat(trees[1..])
      && Distinct(Flat(t.children)) && Distinct(Flat(trees[1..]))
      && t.id !in Flat(t.children) && t.id !in Flat(trees[1..])
      && (forall x | x in Flat(t.children) :: x !in Flat(trees[1..]))
  {
    hide Flat, Distinct;
    var t := trees[0];
    DistinctConcat(FlatTree(t), Flat(trees[1..]));
    DistinctConcat([t.id], Flat(t.children));
    FlatDef(trees);
    assert t.id in FlatTree(t);
  }

  lemma FlatDef(trees: seq<Tree>)
    requires |trees| > 0
    ensures Flat(trees) == FlatTree(trees[0]) + Flat(trees[1..])
  {}

  lemma FlatNothing()
    ensures Flat([]) == []
  {
  }

  lemma FlatElems(trees: seq<Tree>)
    requires |trees| > 0
    ensures Elems(Flat(trees)) == {trees[0].id} + Elems(Flat(trees[0].children)) + Elems(Flat(trees[1..]))
  {
    FlatDef(trees);
    hide Flat, Elems;
    var t := trees[0];
    ElemsConcat(FlatTree(t), Flat(trees[1..]));
    ElemsConcat([t.id], Flat(t.children));
    ElemsOne(t.id);
  }

  lemma ElemsConcat(a: seq<Id>, b: seq<Id>)
    ensures Elems(a + b) == Elems(a) + Elems(b)
  {
  }

  lemma ElemsOne(x: Id)
    ensures Elems([x]) == {x}
  {
  }

  // -- A correct drawing is the one that is built ------------------------------------

  /** Every child of a drawn folder is drawn inside it, unless it is attached elsewhere already. */
  ghost predicate Complete(P: Parents, L: seq<Id>, trees: seq<Tree>, attached: set<Id>)
    requires Known(P, L)
  {
    forall x, y | x in Flat(trees) && y in L && P[y] == Some(x) && y !in attached :: DrawnUnder(trees, x, y)
  }

  ghost predicate Realizable(P: Parents, L: seq<Id>, trees: seq<Tree>, attached: set<Id>)
    requires Known(P, L)
  {
    && Distinct(Flat(trees)) && (forall x | x in Flat(trees) :: x in L && x !in attached)
    && Edges(P, trees) && Sorted(L, trees) && Complete(P, L, trees, attached)
  }

  lemma RealizableParts(P: Parents, L: seq<Id>, trees: seq<Tree>, attached: set<Id>)
    requires Known(P, L) && |trees| > 0 && Realizable(P, L, trees, attached)
    ensures var t := trees[0];
      && Realizable(P, L, t.children, attached + {t.id})
      && Realizable(P, L, trees[1..], attached + {t.id} + Elems(Flat(t.children)))
      && Outside(Kids(P, L, Some(t.id)), attached + {t.id}) == Ids(t.children)
  {
    var t := trees[0];
    FlatParts(trees);
    IdsInFlat(t.children);
    var a := attached + {t.id};
    forall x, y | x in Flat(t.children) && y in L && P[y] == Some(x) && y !in a ensures DrawnUnder(t.children, x, y) {
      assert DrawnUnder(trees, x, y);
      if DrawnUnder(trees[1..], x, y) {
        DrawnUnderInFlat(trees[1..], x, y);
      }
    }
    var b := a + Elems(Flat(t.children));
    forall x, y | x in Flat(trees[1..]) && y in L && P[y] == Some(x) && y !in b ensures DrawnUnder(trees[1..], x, y) {
      assert DrawnUnder(trees, x, y);
      if DrawnUnder(t.children, x, y) {
        DrawnUnderInFlat(t.children, x, y);
      }
    }
    forall y ensures y in Outside(Kids(P, L, Some(t.id)), a) <==> y in Ids(t.children) {
      if y in L && P[y] == Some(t.id) && y !in a {
        assert DrawnUnder(trees, t.id, y);
        if DrawnUnder(t.children, t.id, y) {
          DrawnUnderInFlat(t.children, t.id, y);
        } else if DrawnUnder(trees[1..], t.id, y) {
          DrawnUnderInFlat(trees[1..], t.id, y);
        }
      }
    }
    FollowsSelf(L);
    KidsFollow(P, L, L, Some(t.id));
    OutsideFollows(L, Kids(P, L, Some(t.id)), a);
    FollowsUnique(L, Outside(Kids(P, L, Some(t.id)), a), Ids(t.children));
  }

  lemma {:induction false} OutsideMore(s: seq<Id>, a: set<Id>, b: set<Id>)
    requires a <= b && forall x | x in Outside(s, a) :: x !in b
    ensures Outside(s, b) == Outside(s, a)
  {
    if |s| > 0 {
      var x := s[0];
      assert x !in a ==> x in Outside(s, a);
      OutsideMore(s[1..], a, b);
    }
  }

  /**
   * Building from a pending list whose unattached members are the roots of a correct list of trees gives those trees.
   */
  lemma {:induction false} Realize(P: Parents, L: seq<Id>, trees: seq<Tree>, pending: seq<Id>, attached: set<Id>)
    requires Known(P, L) && attached <= Elems(L) && (forall x | x in pending :: x in L)
    requires Realizable(P, L, trees, attached)
    requires Outside(pending, attached) == Ids(trees)
    ensures Build(P, L, pending, attached) == Built(trees, attached + Elems(Flat(trees)))
    decreases trees, |pending|
  {
    hide Edges, Sorted, Complete, Realizable, Known, Kids, DrawnUnder, Flat;
    if |pending| == 0 {
      assert Flat(trees) == [] by { FlatNothing(); }
      assert attached + Elems(Flat(trees)) == attached;
    } else if pending[0] in attached {
      Realize(P, L, trees, pending[1..], attached);
    } else {
      var t := trees[0];
      assert t.id == pending[0];
      assert t.id in pending;
      KidsListed(P, L, Some(t.id));
      RealizableParts(P, L, trees, attached);
      var a := attached + {t.id};
      var b := a + Elems(Flat(t.children));
      assert a <= Elems(L);
      assert Outside(pending[1..], attached) == Ids(trees[1..]);
      hide Elems, Outside, Ids;
      Realize(P, L, t.children, Kids(P, L, Some(t.id)), a);
      RootsStayOut(P, L, trees, attached);
      OutsideMore(pending[1..], attached, b);
      Realize(P, L, trees[1..], pending[1..], b);
      assert [t] + trees[1..] == trees;
      FlatElems(trees);
    }
  }

  lemma KidsListed(P: Parents, L: seq<Id>, p: Option<Id>)
    requires Known(P, L)
    ensures forall x | x in L :: x in P
    ensures forall x | x in Kids(P, L, p) :: x in L
  {}

  lemma RootsStayOut(P: Parents, L: seq<Id>, trees: seq<Tree>, attached: set<Id>)
    requires Known(P, L) && |trees| > 0 && Realizable(P, L, trees, attached)
    ensures forall x | x in Ids(trees[1..]) :: x !in attached + {trees[0].id} + Elems(Flat(trees[0].children))
  {
    FlatParts(trees);
    IdsInFlat(trees[1..]);
  }

  // -- The cycle-breaking roots ------------------------------------------------------

  /** The part of a drawing from one cycle-breaking root on, given what is attached before it. */
  ghost predicate BreakTail(P: Parents, L: seq<Id>, extras: seq<Tree>, attached: set<Id>)
    requires Known(P, L)
  {
    && Distinct(Flat(extras)) && (forall x | x in Flat(extras) :: x in L && x !in attached)
    && Edges(P, extras) && Sorted(L, extras) && Breaks(P, L, extras)
    && (forall x, y | x in Flat(extras) && y in L && P[y] == Some(x) && y !in attached ::
          y in Ids(extras) || DrawnUnder(extras, x, y))
  }

  /** A child of a folder in the first tree is drawn in that tree, or attached already. */
  lemma FirstTreeKeepsChildren(P: Parents, L: seq<Id>, extras: seq<Tree>, attached: set<Id>, x: Id, y: Id)
    requires Known(P, L) && |extras| > 0 && BreakTail(P, L, extras, attached)
    requires x in FlatTree(extras[0]) && y in L && P[y] == Some(x) && y !in attached + {extras[0].id}
    ensures (x == extras[0].id && y in Ids(extras[0].children)) || DrawnUnder(extras[0].children, x, y)
  {
    hide Breaks, Edges, Sorted, Distinct, Flat;
    var rest := extras[1..];
    FlatParts(extras);
    assert x in Flat(extras);
    if y in Ids(rest) {
      ParentOfLaterRoot(P, L, extras, y);
    } else if DrawnUnder(rest, x, y) {
      DrawnUnderInFlat(rest, x, y);
    }
  }

  lemma FirstTreeRealizable(P: Parents, L: seq<Id>, extras: seq<Tree>, attached: set<Id>)
    requires Known(P, L) && |extras| > 0 && BreakTail(P, L, extras, attached)
    ensures Realizable(P, L, extras[0].children, attached + {extras[0].id})
  {
    var t := extras[0];
    FlatParts(extras);
    IdsInFlat(t.children);
    forall x, y | x in Flat(t.children) && y in L && P[y] == Some(x) && y !in attached + {t.id}
      ensures DrawnUnder(t.children, x, y)
    {
      FirstTreeKeepsChildren(P, L, extras, attached, x, y);
    }
  }

  lemma FirstTreeKids(P: Parents, L: seq<Id>, extras: seq<Tree>, attached: set<Id>)
    requires Known(P, L) && |extras| > 0 && BreakTail(P, L, extras, attached)
    ensures Outside(Kids(P, L, Some(extras[0].id)), attached + {extras[0].id}) == Ids(extras[0].children)
  {
    var t := extras[0];
    var a := attached + {t.id};
    FlatParts(extras);
    IdsInFlat(t.children);
    forall y ensures y in Outside(Kids(P, L, Some(t.id)), a) <==> y in Ids(t.children) {
      if y in L && P[y] == Some(t.id) && y !in a {
        assert t.id in FlatTree(t);
        FirstTreeKeepsChildren(P, L, extras, attached, t.id, y);
        if DrawnUnder(t.children, t.id, y) {
          DrawnUnderInFlat(t.children, t.id, y);
        }
      }
    }
    FollowsSelf(L);
    KidsFollow(P, L, L, Some(t.id));
    OutsideFollows(L, Kids(P, L, Some(t.id)), a);
    FollowsUnique(L, Outside(Kids(P, L, Some(t.id)), a), Ids(t.children));
  }

  lemma RestShape(P: Parents, L: seq<Id>, trees: seq<Tree>)
    requires |trees| > 0 && Edges(P, trees) && Sorted(L, trees)
    ensures Edges(P, trees[1..]) && Sorted(L, trees[1..])
  {}

  lemma LaterTreesTail(P: Parents, L: seq<Id>, extras: seq<Tree>, attached: set<Id>)
    requires Known(P, L) && |extras| > 0 && BreakTail(P, L, extras, attached)
    ensures BreakTail(P, L, extras[1..], attached + {extras[0].id} + Elems(Flat(extras[0].children)))
  {
    hide Breaks, Edges, Sorted, Distinct, Flat;
    var t, rest := extras[0], extras[1..];
    FlatParts(extras);
    RestShape(P, L, extras);
    RestBreaks(P, L, extras);
    forall x, y | x in Flat(rest) && y in L && P[y] == Some(x) && y !in attached + {t.id} + Elems(Flat(t.children))
      ensures y in Ids(rest) || DrawnUnder(rest, x, y)
    {
      assert x in Flat(extras);
      IdsInFlat(t.children);
      if DrawnUnder(t.children, x, y) {
        DrawnUnderInFlat(t.children, x, y);
      }
    }
  }

  lemma RestBreaks(P: Parents, L: seq<Id>, extras: seq<Tree>)
    requires |extras| > 0 && Breaks(P, L, extras)
    ensures Breaks(P, L, extras[1..])
  {
    hide Flat, First;
    var rest := extras[1..];
    forall i | 0 <= i < |rest|
      ensures rest[i].id in P && P[rest[i].id].Some? && P[rest[i].id].value in Flat(rest[i..])
      ensures First(L, rest[i].id, Flat(rest[i..]))
    {
      assert rest[i..] == extras[i + 1..];
      assert extras[i + 1].id in P;
    }
  }

  /** The parent of a later root is drawn after the first tree. */
  lemma ParentOfLaterRoot(P: Parents, L: seq<Id>, extras: seq<Tree>, y: Id)
    requires |extras| > 0 && Breaks(P, L, extras) && y in Ids(extras[1..])
    ensures y in P && P[y].Some? && P[y].value in Flat(extras[1..])
  {
    RestBreaks(P, L, extras);
    ParentOfBreak(P, L, extras[1..], y);
  }

  /** The second pass, over all folders in order, picks exactly the cycle-breaking roots. */
  lemma {:induction false} RealizeBreaks(P: Parents, L: seq<Id>, extras: seq<Tree>, pending: seq<Id>, attached: set<Id>)
    requires Known(P, L) && attached <= Elems(L) && Follows(L, pending)
    requires BreakTail(P, L, extras, attached)
    requires forall x :: x in pending && x !in attached <==> x in Flat(extras)
    ensures Build(P, L, pending, attached) == Built(extras, attached + Elems(Flat(extras)))
    decreases |pending|
  {
    hide Edges, Sorted, Breaks, BreakTail, Realizable, Known, Kids, DrawnUnder, Distinct, Flat;
    if |pending| == 0 {
      if |extras| > 0 {
        IdsInFlat(extras);
        HasMember(Ids(extras));
      } else {
        FlatNothing();
      }
      assert attached + Elems(Flat(extras)) == attached;
    } else {
      FollowsTail(L, pending);
      var x := pending[0];
      assert x in pending;
      if x in attached {
        RealizeBreaks(P, L, extras, pending[1..], attached);
      } else {
        FlatNothing();
        assert x in Flat(extras);
        var t := extras[0];
        FirstIsPicked(P, L, extras, pending, attached);
        FirstTreeRealizable(P, L, extras, attached);
        FirstTreeKids(P, L, extras, attached);
        LaterTreesTail(P, L, extras, attached);
        KidsListed(P, L, Some(t.id));
        var a := attached + {t.id};
        var b := a + Elems(Flat(t.children));
        Realize(P, L, t.children, Kids(P, L, Some(t.id)), a);
        BreakTailDisjoint(P, L, extras, attached);
        RealizeBreaks(P, L, extras[1..], pending[1..], b);
        assert [t] + extras[1..] == extras;
        FlatElems(extras);
      }
    }
  }

  lemma BreakTailDisjoint(P: Parents, L: seq<Id>, extras: seq<Tree>, attached: set<Id>)
    requires Known(P, L) && |extras| > 0 && BreakTail(P, L, extras, attached)
    ensures forall x :: x in Flat(extras) <==> x in FlatTree(extras[0]) || x in Flat(extras[1..])
    ensures forall x | x in FlatTree(extras[0]) :: x !in Flat(extras[1..])
    ensures forall x :: x in FlatTree(extras[0]) <==> x == extras[0].id || x in Flat(extras[0].children)
  {
    FlatParts(extras);
  }

  lemma FirstIsPicked(P: Parents, L: seq<Id>, extras: seq<Tree>, pending: seq<Id>, attached: set<Id>)
    requires Known(P, L) && Follows(L, pending) && |pending| > 0 && pending[0] !in attached && |extras| > 0
    requires BreakTail(P, L, extras, attached)
    requires forall x :: x in pending && x !in attached <==> x in Flat(extras)
    ensures extras[0].id == pending[0]
  {
    var t, x := extras[0], pending[0];
    assert x in pending;
    IdsInFlat(extras);
    assert t.id in Ids(extras);
    assert extras[0..] == extras;
    if t.id != x {
      FirstBefore(L, pending, t.id);
      BeforeTotal(L, x, t.id);
    }
  }

  /** Uniqueness: any correct drawing is the one that is built. */
  lemma DrawingIsForest(P: Parents, L: seq<Id>, D: Drawing)
    requires Known(P, L) && IsDrawing(P, L, D)
    ensures Forest(P, L) == D
  {
    FlatConcat(D.tops, D.extras);
    ShapeConcat(P, L, D.tops, D.extras);
    DistinctConcat(Flat(D.tops), Flat(D.extras));
    TopsRealizable(P, L, D);
    OutsideNothing(Kids(P, L, None));
    Realize(P, L, D.tops, Kids(P, L, None), {});
    ExtrasTail(P, L, D);
    FollowsSelf(L);
    RealizeBreaks(P, L, D.extras, L, Elems(Flat(D.tops)));
    assert {} + Elems(Flat(D.tops)) == Elems(Flat(D.tops));
  }

  lemma {:induction false} OutsideNothing(s: seq<Id>)
    ensures Outside(s, {}) == s
  {
    if |s| > 0 {
      OutsideNothing(s[1..]);
    }
  }

  lemma TopsRealizable(P: Parents, L: seq<Id>, D: Drawing)
    requires Known(P, L) && IsDrawing(P, L, D)
    ensures Realizable(P, L, D.tops, {})
  {
    FlatConcat(D.tops, D.extras);
    ShapeConcat(P, L, D.tops, D.extras);
    DistinctConcat(Flat(D.tops), Flat(D.extras));
    forall x, y | x in Flat(D.tops) && y in L && P[y] == Some(x) ensures DrawnUnder(D.tops, x, y) {
      WhereDrawn(P, L, D, y);
      if y in Ids(D.extras) {
        ParentOfBreak(P, L, D.extras, y);
      } else if DrawnUnder(D.extras, x, y) {
        DrawnUnderInFlat(D.extras, x, y);
      }
    }
  }

  lemma ExtrasTail(P: Parents, L: seq<Id>, D: Drawing)
    requires Known(P, L) && IsDrawing(P, L, D)
    ensures BreakTail(P, L, D.extras, Elems(Flat(D.tops)))
  {
    FlatConcat(D.tops, D.extras);
    ShapeConcat(P, L, D.tops, D.extras);
    DistinctConcat(Flat(D.tops), Flat(D.extras));
    forall x, y | x in Flat(D.extras) && y in L && P[y] == Some(x) && y !in Elems(Flat(D.tops))
      ensures y in Ids(D.extras) || DrawnUnder(D.extras, x, y)
    {
      WhereDrawn(P, L, D, y);
      if DrawnUnder(D.tops, x, y) {
        DrawnUnderInFlat(D.tops, x, y);
      }
    }
  }

  /** A folder with a parent is a cycle-breaking root or stands directly inside that parent. */
  lemma WhereDrawn(P: Parents, L: seq<Id>, D: Drawing, y: Id)
    requires Known(P, L) && IsDrawing(P, L, D) && y in L && P[y].Some?
    ensures y in Ids(D.extras) || DrawnUnder(D.tops, P[y].value, y) || DrawnUnder(D.extras, P[y].value, y)
  {
    FlatConcat(D.tops, D.extras);
    ShapeConcat(P, L, D.tops, D.extras);
    if y in Flat(D.tops) {
      RootOrUnder(P, D.tops, y);
    } else if y !in Ids(D.extras) {
      RootOrUnder(P, D.extras, y);
    }
  }

  lemma ParentOfBreak(P: Parents, L: seq<Id>, extras: seq<Tree>, y: Id)
    requires Breaks(P, L, extras) && y in Ids(extras)
    ensures y in P && P[y].Some? && P[y].value in Flat(extras)
  {
    hide First, Flat, Ids;
    var i :| 0 <= i < |extras| && Ids(extras)[i] == y;
    assert P[y].value in Flat(extras[i..]);
    FlatConcat(extras[..i], extras[i..]);
    assert extras == extras[..i] + extras[i..];
  }

  // -- What is built is a correct drawing ----------------------------------------------

  /** What one pass attaches: each folder once, and every child along with its parent. */
  ghost predicate Collects(P: Parents, L: seq<Id>, pending: seq<Id>, attached: set<Id>, r: Built)
    requires Known(P, L)
  {
    && r.attached == attached + Elems(Flat(r.trees))
    && Distinct(Flat(r.trees)) && (forall x | x in Flat(r.trees) :: x in L && x !in attached)
    && (forall x | x in pending :: x in r.attached)
    && (forall x, y | x in Flat(r.trees) && y in L && P[y] == Some(x) :: y in r.attached)
  }

  /** The trees it returns: parents and order respected, roots taken from the pending list in its order. */
  ghost predicate Shapes(P: Parents, L: seq<Id>, pending: seq<Id>, trees: seq<Tree>) {
    && Edges(P, trees) && Sorted(L, trees)
    && Follows(L, Ids(trees)) && (forall x | x in Ids(trees) :: x in pending)
  }

  ghost predicate Attaches(P: Parents, L: seq<Id>, pending: seq<Id>, attached: set<Id>, r: Built)
    requires Known(P, L)
  {
    Collects(P, L, pending, attached, r) && Shapes(P, L, pending, r.trees)
  }

  lemma {:induction false} BuildAttaches(P: Parents, L: seq<Id>, pending: seq<Id>, attached: set<Id>)
    requires Known(P, L) && attached <= Elems(L) && Follows(L, pending)
    ensures Attaches(P, L, pending, attached, Build(P, L, pending, attached))
    decreases Elems(L) - attached, |pending|
  {
    hide Known, Attaches, Collects, Shapes, Kids;
    if |pending| == 0 {
      AttachesNothing(P, L, attached);
    } else {
      FollowsTail(L, pending);
      var x := pending[0];
      assert x in pending;
      if x in attached {
        BuildAttaches(P, L, pending[1..], attached);
        AttachesSkip(P, L, pending, attached, Build(P, L, pending, attached));
      } else {
        KidsListed(P, L, Some(x));
        FollowsOwn(P, L);
        KidsFollow(P, L, L, Some(x));
        var kids := Build(P, L, Kids(P, L, Some(x)), attached + {x});
        var rest := Build(P, L, pending[1..], kids.attached);
        BuildAttaches(P, L, Kids(P, L, Some(x)), attached + {x});
        BuildAttaches(P, L, pending[1..], kids.attached);
        AttachesPick(P, L, pending, attached, kids, rest);
      }
    }
  }

  lemma FollowsOwn(P: Parents, L: seq<Id>)
    requires Known(P, L)
    ensures Follows(L, L)
  {
    FollowsSelf(L);
  }

  lemma AttachesNothing(P: Parents, L: seq<Id>, attached: set<Id>)
    requires Known(P, L)
    ensures Attaches(P, L, [], attached, Built([], attached))
  {
    assert attached + Elems([]) == attached;
  }

  lemma AttachesSkip(P: Parents, L: seq<Id>, pending: seq<Id>, attached: set<Id>, r: Built)
    requires Known(P, L) && |pending| > 0 && pending[0] in attached
    requires Attaches(P, L, pending[1..], attached, r)
    ensures Attaches(P, L, pending, attached, r)
  {
    hide Edges, Sorted, Distinct, Follows;
  }

  lemma AttachesPick(P: Parents, L: seq<Id>, pending: seq<Id>, attached: set<Id>, kids: Built, rest: Built)
    requires Known(P, L) && Follows(L, pending) && |pending| > 0 && pending[0] !in attached
    requires Attaches(P, L, Kids(P, L, Some(pending[0])), attached + {pending[0]}, kids)
    requires Attaches(P, L, pending[1..], kids.attached, rest)
    ensures Attaches(P, L, pending, attached, Built([Tree(pending[0], kids.trees)] + rest.trees, rest.attached))
  {
    hide Collects, Shapes, Known, Kids, Follows;
    CollectsPick(P, L, pending, attached, kids, rest);
    ShapesPick(P, L, pending, kids.trees, rest.trees);
  }

  lemma CollectsPick(P: Parents, L: seq<Id>, pending: seq<Id>, attached: set<Id>, kids: Built, rest: Built)
    requires Known(P, L) && Follows(L, pending) && |pending| > 0 && pending[0] !in attached
    requires Collects(P, L, Kids(P, L, Some(pending[0])), attached + {pending[0]}, kids)
    requires Collects(P, L, pending[1..], kids.attached, rest)
    ensures Collects(P, L, pending, attached, Built([Tree(pending[0], kids.trees)] + rest.trees, rest.attached))
  {
    var x := pending[0];
    assert x in pending;
    var trees := [Tree(x, kids.trees)] + rest.trees;
    assert trees[1..] == rest.trees;
    hide Distinct, Flat, Follows, Known, Kids;
    KidsListed(P, L, Some(x));
    FlatDef(trees);
    FlatElems(trees);
    PickDistinct(x, kids.trees, rest.trees);
    forall y, z | y in Flat(trees) && z in L && P[z] == Some(y) ensures z in rest.attached {
      if y == x {
        assert z in Kids(P, L, Some(x));
      }
    }
  }

  lemma ShapesPick(P: Parents, L: seq<Id>, pending: seq<Id>, kids: seq<Tree>, rest: seq<Tree>)
    requires Known(P, L) && Follows(L, pending) && |pending| > 0
    requires Shapes(P, L, Kids(P, L, Some(pending[0])), kids) && Shapes(P, L, pending[1..], rest)
    ensures Shapes(P, L, pending, [Tree(pending[0], kids)] + rest)
  {
    hide Edges, Sorted, Follows, Ids;
    PickShape(P, L, pending[0], kids, rest);
    PickRoots(L, pending, kids, rest);
  }

  lemma PickRoots(L: seq<Id>, pending: seq<Id>, kids: seq<Tree>, rest: seq<Tree>)
    requires Follows(L, pending) && |pending| > 0
    requires Follows(L, Ids(rest)) && forall x | x in Ids(rest) :: x in pending[1..]
    ensures Follows(L, Ids([Tree(pending[0], kids)] + rest))
    ensures forall x | x in Ids([Tree(pending[0], kids)] + rest) :: x in pending
  {
    var x := pending[0];
    assert x in pending;
    FollowsTail(L, pending);
    forall y | y in Ids(rest) ensures Before(L, x, y) {
      FirstBefore(L, pending, y);
    }
    FollowsCons(L, x, Ids(rest));
    assert Ids([Tree(x, kids)] + rest) == [x] + Ids(rest);
  }

  lemma PickShape(P: Parents, L: seq<Id>, x: Id, kids: seq<Tree>, rest: seq<Tree>)
    requires Edges(P, kids) && Sorted(L, kids) && Edges(P, rest) && Sorted(L, rest)
    requires Follows(L, Ids(kids)) && forall c | c in Ids(kids) :: c in P && P[c] == Some(x)
    ensures Edges(P, [Tree(x, kids)] + rest) && Sorted(L, [Tree(x, kids)] + rest)
  {
    assert ([Tree(x, kids)] + rest)[1..] == rest;
  }

  lemma PickDistinct(x: Id, kids: seq<Tree>, rest: seq<Tree>)
    requires Distinct(Flat(kids)) && Distinct(Flat(rest)) && x !in Flat(kids) && x !in Flat(rest)
    requires forall y | y in Flat(kids) :: y !in Flat(rest)
    ensures Distinct(FlatTree(Tree(x, kids)) + Flat(rest))
  {
    DistinctConcat([x], Flat(kids));
    DistinctConcat(FlatTree(Tree(x, kids)), Flat(rest));
  }

  /** Children of attached folders are attached, and so is every folder without a parent. */
  ghost predicate Closed(P: Parents, L: seq<Id>, attached: set<Id>)
    requires Known(P, L)
  {
    forall y | y in L && (P[y].Some? ==> P[y].value in attached) :: y in attached
  }

  lemma {:induction false} BuildBreaks(P: Parents, L: seq<Id>, pending: seq<Id>, attached: set<Id>)
    requires Known(P, L) && attached <= Elems(L) && Follows(L, pending) && Closed(P, L, attached)
    requires forall x | x in L && x !in attached :: x in pending
    ensures Breaks(P, L, Build(P, L, pending, attached).trees)
    decreases |pending|
  {
    hide Known, Kids, Closed, Attaches, Breaks;
    if |pending| == 0 {
      NoBreaks(P, L);
    } else {
      FollowsTail(L, pending);
      var x := pending[0];
      assert x in pending;
      if x in attached {
        BuildBreaks(P, L, pending[1..], attached);
      } else {
        KidsListed(P, L, Some(x));
        FollowsOwn(P, L);
        KidsFollow(P, L, L, Some(x));
        var kids := Build(P, L, Kids(P, L, Some(x)), attached + {x});
        BuildAttaches(P, L, Kids(P, L, Some(x)), attached + {x});
        BuildAttaches(P, L, pending, attached);
        StillClosed(P, L, x, attached, kids);
        BuildBreaks(P, L, pending[1..], kids.attached);
        FirstBreaks(P, L, pending, attached, Build(P, L, pending, attached));
      }
    }
  }

  lemma NoBreaks(P: Parents, L: seq<Id>)
    ensures Breaks(P, L, [])
  {}

  lemma StillClosed(P: Parents, L: seq<Id>, x: Id, attached: set<Id>, kids: Built)
    requires Known(P, L) && Closed(P, L, attached) && x in L
    requires Attaches(P, L, Kids(P, L, Some(x)), attached + {x}, kids)
    ensures Closed(P, L, kids.attached)
  {
    hide Edges, Sorted, Distinct, Follows, Flat;
    forall y | y in L && (P[y].Some? ==> P[y].value in kids.attached) ensures y in kids.attached {
      if P[y].Some? && P[y].value !in attached {
        if P[y].value == x {
          assert y in Kids(P, L, Some(x));
        } else {
          assert P[y] == Some(P[y].value) && P[y].value in Flat(kids.trees);
        }
      }
    }
  }

  lemma FirstBreaks(P: Parents, L: seq<Id>, pending: seq<Id>, attached: set<Id>, r: Built)
    requires Known(P, L) && Follows(L, pending) && |pending| > 0 && pending[0] !in attached && Closed(P, L, attached)
    requires forall x | x in L && x !in attached :: x in pending
    requires Attaches(P, L, pending, attached, r)
    requires |r.trees| > 0 && r.trees[0].id == pending[0] && Breaks(P, L, r.trees[1..])
    ensures Breaks(P, L, r.trees)
  {
    hide Edges, Sorted, Distinct, Flat;
    var x, trees := pending[0], r.trees;
    assert x in pending;
    assert x in L;
    var p := P[x].value;
    assert p in Flat(trees);
    forall y | y in Flat(trees) && y != x ensures Before(L, x, y) {
      FirstBefore(L, pending, y);
    }
    assert trees[0..] == trees;
    forall i | 0 < i < |trees|
      ensures trees[i].id in P && P[trees[i].id].Some? && P[trees[i].id].value in Flat(trees[i..])
      ensures First(L, trees[i].id, Flat(trees[i..]))
    {
      assert trees[1..][i - 1..] == trees[i..];
      assert trees[1..][i - 1] == trees[i];
    }
  }

  /** Existence: what is built is a correct drawing; with DrawingIsForest, the only one. */
  lemma ForestIsDrawing(P: Parents, L: seq<Id>)
    requires Known(P, L)
    ensures IsDrawing(P, L, Forest(P, L))
  {
    hide Edges, Sorted, Distinct, Breaks, Flat, Build, Kids, Closed;
    FollowsSelf(L);
    KidsFollow(P, L, L, None);
    BuildAttaches(P, L, Kids(P, L, None), {});
    var tops := Build(P, L, Kids(P, L, None), {});
    BuildAttaches(P, L, L, tops.attached);
    var extras := Build(P, L, L, tops.attached);
    TopsAreKids(P, L, tops);
    BuildBreaks(P, L, L, tops.attached);
    FlatConcat(tops.trees, extras.trees);
    ShapeConcat(P, L, tops.trees, extras.trees);
    DistinctConcat(Flat(tops.trees), Flat(extras.trees));
  }

  lemma TopsAreKids(P: Parents, L: seq<Id>, tops: Built)
    requires Known(P, L) && Attaches(P, L, Kids(P, L, None), {}, tops)
    ensures Ids(tops.trees) == Kids(P, L, None)
    ensures Closed(P, L, tops.attached)
  {
    hide Sorted, Distinct, Flat;
    FollowsSelf(L);
    KidsFollow(P, L, L, None);
    forall x | x in Kids(P, L, None) ensures x in Ids(tops.trees) {
      if x !in Ids(tops.trees) {
        RootOrUnder(P, tops.trees, x);
      }
    }
    FollowsUnique(L, Ids(tops.trees), Kids(P, L, None));
    forall y | y in L && (P[y].Some? ==> P[y].value in tops.attached) ensures y in tops.attached {
      if P[y].Some? {
        assert P[y] == Some(P[y].value) && P[y].value in Flat(tops.trees);
      }
    }
  }
}
