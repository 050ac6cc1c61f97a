/** Who stands where in the pane, said of the folders and the stored order alone. */
module FolderShown {
  import opened Wrappers
  import opened FolderOrder
  import opened FolderForest
  import opened FolderPlacement
  import opened FolderReorder
  import opened FolderTree
  import opened FolderDrag

  // -- Parents -----------------------------------------------------------------------------

  /** The server named a parent that is another folder of the mailbox. */
  ghost predicate NamesParent(F: seq<Folder>, f: Folder, p: Id) {
    f.parent == Some(p) && p != f.id && exists g | g in F :: g.id == p
  }

  /** The name of f is that of another folder, a slash, and a last part without one. */
  ghost predicate NamedInside(F: seq<Folder>, f: Folder, p: Id) {
    exists g, last: string | g in F && g.id == p && p != f.id :: Extends(f.name, g.name, last)
  }

  predicate Extends(name: string, front: string, last: string) {
    name == front + "/" + last && front != "" && '/' !in last
  }

  /** The parent of f: what the server named, and without that what the name says. */
  ghost predicate Parented(F: seq<Folder>, f: Folder, p: Id) {
    NamesParent(F, f, p) || ((forall q :: !NamesParent(F, f, q)) && NamedInside(F, f, p))
  }

  lemma NotFrom<T>(s: seq<T>, x: T, k: int, i: int)
    ensures 0 <= k <= i < |s| && x !in s[k..] ==> s[i] != x
  {
    if 0 <= k <= i < |s| { assert s[k..][i - k] == s[i]; }
  }

  lemma LastSlashAt(name: string, front: string, last: string)
    requires Extends(name, front, last)
    ensures LastSlash(name) == |front| && name[..LastSlash(name)] == front
  {
    var i := LastSlash(name);
    assert name[|front|] == '/';
    assert name[|front| + 1..] == last;
    NotFrom(name, '/', i + 1, |front|);
    NotFrom(name, '/', |front| + 1, i);
  }

  lemma SlashExtends(name: string)
    requires LastSlash(name) > 0
    ensures var i := LastSlash(name); Extends(name, name[..i], name[i + 1..])
  {
    var i := LastSlash(name);
    assert name == name[..i] + [name[i]] + name[i + 1..];
  }

  /** The table of parents holds exactly these. */
  lemma ParentMeans(F: seq<Folder>, f: Folder, p: Id)
    requires WellFormed(F) && f in F
    ensures f.id in ParentsOf(F) && (ParentsOf(F)[f.id] == Some(p) <==> Parented(F, f, p))
  {
    ParentsHold(F, f);
    hide ParentsOf, Extends;
    assert forall q :: HasId(F, q) <==> exists g | g in F :: g.id == q;
    if f.parent.Some? && HasId(F, f.parent.value) && f.parent.value != f.id {
      assert NamesParent(F, f, f.parent.value);
    } else {
      NamedMeans(F, f, p);
    }
  }

  lemma NamedMeans(F: seq<Folder>, f: Folder, p: Id)
    requires WellFormed(F) && f in F
    requires !(f.parent.Some? && HasId(F, f.parent.value) && f.parent.value != f.id)
    ensures ParentOf(F, f) == Some(p) <==> NamedInside(F, f, p)
  {
    var slash := LastSlash(f.name);
    if NamedInside(F, f, p) {
      var g, last: string :| g in F && g.id == p && p != f.id && Extends(f.name, g.name, last);
      LastSlashAt(f.name, g.name, last);
      assert ByName(F, g.name) == Some(g);
    }
    if slash > 0 && ByName(F, f.name[..slash]).Some? {
      SlashExtends(f.name);
    }
  }

  // -- The order of siblings ------------------------------------------------------------------

  /** In the stored order f comes last before g does. */
  ghost predicate StoredBefore(order: seq<Id>, f: Id, g: Id) {
    exists j | 0 <= j < |order| :: order[j] == g && f in order[..j] && f !in order[j..] && g !in order[j + 1..]
  }

  /**
   * Special folders by their fixed place, before the others; the others as stored; those not stored after them, the
   * older one first.
   */
  ghost predicate StandsAbove(order: seq<Id>, f: Folder, g: Folder) {
    || f.sortKey < g.sortKey
    || (f.sortKey == g.sortKey
        && (|| StoredBefore(order, f.id, g.id)
            || (f.id in order && g.id !in order)
            || (f.id !in order && g.id !in order && f.id < g.id)))
  }

  lemma {:induction false} LastPlaceMeans(order: seq<Id>, id: Id)
    requires id in order
    ensures LastPlace(order, id) < |order| && order[LastPlace(order, id)] == id
    ensures id !in order[LastPlace(order, id) + 1..]
  {
    var n := |order| - 1;
    if order[n] != id {
      assert order == order[..n] + [order[n]];
      LastPlaceMeans(order[..n], id);
      var i := LastPlace(order[..n], id);
      assert order[i + 1..] == order[..n][i + 1..] + [order[n]];
    }
  }

  lemma LastPlaceIs(order: seq<Id>, id: Id, i: nat)
    requires i < |order| && order[i] == id && id !in order[i + 1..]
    ensures LastPlace(order, id) == i
  {
    LastPlaceMeans(order, id);
    var k := LastPlace(order, id);
    NotFrom(order, id, k + 1, i);
    NotFrom(order, id, i + 1, k);
  }

  lemma StoredPlaces(order: seq<Id>, f: Id, g: Id)
    requires f in order && g in order && f != g
    ensures StoredBefore(order, f, g) <==> LastPlace(order, f) < LastPlace(order, g)
  {
    LastPlaceMeans(order, f);
    LastPlaceMeans(order, g);
    var i, j := LastPlace(order, f), LastPlace(order, g);
    hide LastPlace;
    if i < j {
      assert order[..j][i] == f;
      assert order[i + 1..] == order[i + 1..j] + order[j..];
      assert StoredBefore(order, f, g);
    }
    if StoredBefore(order, f, g) {
      var k :| 0 <= k < |order| && order[k] == g && f in order[..k] && f !in order[k..] && g !in order[k + 1..];
      LastPlaceIs(order, g, k);
      NotFrom(order, f, k, i);
    }
  }

  lemma CompareMeans(order: seq<Id>, f: Folder, g: Folder)
    requires f.id > 0 && g.id > 0 && f.id != g.id
    ensures Compare(order, f, g) < 0 <==> StandsAbove(order, f, g)
  {
    if f.id in order { LastPlaceMeans(order, f.id); }
    if g.id in order { LastPlaceMeans(order, g.id); }
    if f.id in order && g.id in order { StoredPlaces(order, f.id, g.id); }
    hide LastPlace;
    if StoredBefore(order, f.id, g.id) {
      assert f.id in order && g.id in order;
    }
  }

  /** In this list of ids every two folders stand as StandsAbove says. */
  ghost predicate Stands(F: seq<Folder>, order: seq<Id>, s: seq<Id>) {
    forall f, g, i, j | f in F && g in F && 0 <= i < |s| && 0 <= j < |s| && s[i] == f.id && s[j] == g.id && i != j ::
      i < j <==> StandsAbove(order, f, g)
  }

  lemma FollowerStands(F: seq<Folder>, order: seq<Id>, s: seq<Id>)
    requires WellFormed(F) && Follows(Order(F, order), s)
    ensures Stands(F, order, s)
  {
    var L := Order(F, order);
    hide Order, Compare, StandsAbove, Before;
    FollowsDistinct(L, s);
    forall f, g, i, j | f in F && g in F && 0 <= i < |s| && 0 <= j < |s| && s[i] == f.id && s[j] == g.id && i != j
      ensures i < j <==> StandsAbove(order, f, g)
    {
      assert f.id != g.id;
      FollowsBefore(L, s, f.id, g.id);
      OrderBefore(F, order, f, g);
      CompareMeans(order, f, g);
      PosAt(s, i);
      PosAt(s, j);
      BeforeIs(s, f.id, g.id);
    }
  }

  lemma BeforeIs(s: seq<Id>, x: Id, y: Id)
    requires x in s && y in s
    ensures Before(s, x, y) <==> Pos(s, x) < Pos(s, y)
  {
  }

  // -- The whole pane -----------------------------------------------------------------------------

  /**
   * First the folders without a parent, then others; inside each folder only its children; and in each of these
   * lists, special folders in their fixed order, then the others as stored, then by age.
   */
  ghost predicate Arranged(F: seq<Folder>, order: seq<Id>, roots: seq<Tree>) {
    && (exists k: nat | k <= |roots| ::
          && Stands(F, order, Ids(roots[..k])) && Stands(F, order, Ids(roots[k..]))
          && forall f | f in F :: f.id in Ids(roots[..k]) <==> forall p :: !Parented(F, f, p))
    && forall x ::
         && Stands(F, order, ChildrenIn(roots, x))
         && forall f | f in F && f.id in ChildrenIn(roots, x) :: Parented(F, f, x)
  }

  lemma NoParent(F: seq<Folder>, f: Folder)
    requires WellFormed(F) && f in F
    ensures f.id in ParentsOf(F) && (ParentsOf(F)[f.id].None? <==> forall p :: !Parented(F, f, p))
  {
    hide *;
    forall p ensures f.id in ParentsOf(F) && (ParentsOf(F)[f.id] == Some(p) <==> Parented(F, f, p)) {
      ParentMeans(F, f, p);
    }
    ParentMeans(F, f, 0);
    if ParentsOf(F)[f.id].Some? { assert Parented(F, f, ParentsOf(F)[f.id].value); }
  }

  lemma TopIs(F: seq<Folder>, order: seq<Id>, f: Folder)
    requires WellFormed(F) && f in F
    ensures f.id in Ids(ForestOf(F, order).tops) <==> forall p :: !Parented(F, f, p)
  {
    NoParent(F, f);
    KnownForest(F, order);
    ListedIds(F, order);
    var P, L := ParentsOf(F), Order(F, order);
    hide ParentsOf, Order, Forest, Parented, Known;
    TopLevel(P, L);
  }

  lemma TopsStand(F: seq<Folder>, order: seq<Id>)
    requires WellFormed(F)
    ensures Stands(F, order, Ids(ForestOf(F, order).tops)) && Stands(F, order, Ids(ForestOf(F, order).extras))
  {
    KnownForest(F, order);
    ListedIds(F, order);
    var P, L := ParentsOf(F), Order(F, order);
    hide ParentsOf, Order, Forest, Stands, Follows, Known;
    TopLevel(P, L);
    FollowerStands(F, order, Ids(Forest(P, L).tops));
    FollowerStands(F, order, Ids(Forest(P, L).extras));
  }

  lemma TopsArranged(F: seq<Folder>, order: seq<Id>)
    requires WellFormed(F)
    ensures var D := ForestOf(F, order);
      && Stands(F, order, Ids(D.tops)) && Stands(F, order, Ids(D.extras))
      && forall f | f in F :: f.id in Ids(D.tops) <==> forall p :: !Parented(F, f, p)
  {
    hide *;
    TopsStand(F, order);
    forall f | f in F ensures f.id in Ids(ForestOf(F, order).tops) <==> forall p :: !Parented(F, f, p) {
      TopIs(F, order, f);
    }
  }

  lemma ChildrenArranged(F: seq<Folder>, order: seq<Id>, x: Id)
    requires WellFormed(F)
    ensures Stands(F, order, ChildrenIn(Roots(F, order), x))
    ensures forall f | f in F && f.id in ChildrenIn(Roots(F, order), x) :: Parented(F, f, x)
  {
    KnownForest(F, order);
    var P, L := ParentsOf(F), Order(F, order);
    hide ParentsOf, Order, Forest, Stands, Follows, Parented, Known, CutsCycle;
    ChildrenFollow(P, L, x);
    FollowerStands(F, order, ChildrenIn(Roots(F, order), x));
    forall f | f in F && f.id in ChildrenIn(Roots(F, order), x) ensures Parented(F, f, x) {
      ParentMeans(F, f, x);
    }
  }

  lemma ArrangedFrom(F: seq<Folder>, order: seq<Id>, tops: seq<Tree>, extras: seq<Tree>)
    requires Stands(F, order, Ids(tops)) && Stands(F, order, Ids(extras))
    requires forall f | f in F :: f.id in Ids(tops) <==> forall p :: !Parented(F, f, p)
    requires forall x ::
      && Stands(F, order, ChildrenIn(tops + extras, x))
      && forall f | f in F && f.id in ChildrenIn(tops + extras, x) :: Parented(F, f, x)
    ensures Arranged(F, order, tops + extras)
  {
    hide Stands, Parented, ChildrenIn, Ids;
    var roots, k := tops + extras, |tops|;
    assert roots[..k] == tops && roots[k..] == extras;
  }

  lemma RootsAre(F: seq<Folder>, order: seq<Id>)
    requires WellFormed(F)
    ensures Roots(F, order) == ForestOf(F, order).tops + ForestOf(F, order).extras
  {
    hide ForestOf;
  }

  /** The forest of the pane is arranged like this, for any parents and any stored order. */
  lemma ForestArranged(F: seq<Folder>, order: seq<Id>)
    requires WellFormed(F)
    ensures Arranged(F, order, Roots(F, order))
  {
    hide *;
    RootsAre(F, order);
    TopsArranged(F, order);
    forall x ensures
      && Stands(F, order, ChildrenIn(Roots(F, order), x))
      && forall f | f in F && f.id in ChildrenIn(Roots(F, order), x) :: Parented(F, f, x)
    {
      ChildrenArranged(F, order, x);
    }
    ArrangedFrom(F, order, ForestOf(F, order).tops, ForestOf(F, order).extras);
  }
}
