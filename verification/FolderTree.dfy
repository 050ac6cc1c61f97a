/** The folder pane's tree: parents from ids or names, the sibling order, the forest, and the drag that reorders it. */
module FolderTree {
  import opened Wrappers
  import opened FolderOrder
  import opened FolderForest
  import opened FolderPlacement
  import opened FolderReorder

  /** `parent` is the parent field read as a number, None when it is not one. */
  datatype Folder = Folder(id: Id, name: string, parent: Option<int>, special: bool, sortKey: nat)

  /** The place of a custom folder among the special ones: after all six. */
  const CUSTOM_KEY: nat := 6

  /** Positive distinct ids, distinct names, at most one folder per special use. */
  ghost predicate WellFormed(F: seq<Folder>) {
    && (forall f | f in F :: f.id > 0 && (f.special <==> f.sortKey < CUSTOM_KEY) && f.sortKey <= CUSTOM_KEY)
    && (forall f, g | f in F && g in F && f != g :: f.id != g.id && f.name != g.name)
    && (forall f, g | f in F && g in F && f != g && f.special && g.special :: f.sortKey != g.sortKey)
    && (forall i, j | 0 <= i < j < |F| :: F[i] != F[j])
  }

  // -- Parents -------------------------------------------------------------------

  function LastSlash(name: string): (i: int)
    ensures -1 <= i < |name|
    ensures i >= 0 ==> name[i] == '/' && '/' !in name[i + 1..]
    ensures i < 0 ==> '/' !in name
  {
    if |name| == 0 then -1
    else if name[|name| - 1] == '/' then |name| - 1
    else
      var i := LastSlash(name[..|name| - 1]);
      assert i >= 0 ==> name[i + 1..] == name[..|name| - 1][i + 1..] + [name[|name| - 1]];
      assert name == name[..|name| - 1] + [name[|name| - 1]];
      i
  }

  predicate HasId(F: seq<Folder>, id: Id) {
    exists f | f in F :: f.id == id
  }

  /** The last folder of that name, as a map filled from the list holds it. */
  function ByName(F: seq<Folder>, name: string): (r: Option<Folder>)
    ensures r.Some? ==> r.value in F && r.value.name == name
    ensures r.None? ==> forall f | f in F :: f.name != name
  {
    if |F| == 0 then None
    else if F[|F| - 1].name == name then Some(F[|F| - 1])
    else
      assert F == F[..|F| - 1] + [F[|F| - 1]];
      ByName(F[..|F| - 1], name)
  }

  /** The parent by id when the server named one in this mailbox, otherwise by the path in the folder's own name. */
  function ParentOf(F: seq<Folder>, f: Folder): (p: Option<Id>)
    ensures p.Some? ==> HasId(F, p.value) && p.value != f.id
  {
    if f.parent.Some? && HasId(F, f.parent.value) && f.parent.value != f.id then Some(f.parent.value)
    else
      var slash := LastSlash(f.name);
      if slash > 0 then
        var named := ByName(F, f.name[..slash]);
        if named.Some? && named.value.id != f.id then Some(named.value.id) else None
      else None
  }

  /** The parent table filled from the first n folders. */
  function Table(F: seq<Folder>, n: nat): Parents
    requires n <= |F|
  {
    if n == 0 then map[] else Table(F, n - 1)[F[n - 1].id := ParentOf(F, F[n - 1])]
  }

  function ParentsOf(F: seq<Folder>): Parents {
    Table(F, |F|)
  }

  lemma {:induction false} TableHolds(F: seq<Folder>, n: nat, i: nat)
    requires WellFormed(F) && i < n <= |F|
    ensures F[i].id in Table(F, n) && Table(F, n)[F[i].id] == ParentOf(F, F[i])
  {
    hide ParentOf;
    if i < n - 1 {
      TableHolds(F, n - 1, i);
      assert F[i] in F && F[n - 1] in F;
    }
  }

  lemma ParentsHold(F: seq<Folder>, f: Folder)
    requires WellFormed(F) && f in F
    ensures f.id in ParentsOf(F) && ParentsOf(F)[f.id] == ParentOf(F, f)
  {
    var i :| 0 <= i < |F| && F[i] == f;
    TableHolds(F, |F|, i);
  }

  // -- The sibling order -----------------------------------------------------------

  /** The last place of id in the stored order, as a map filled from it holds it. */
  function LastPlace(order: seq<Id>, id: Id): nat
    requires id in order
  {
    if order[|order| - 1] == id then |order| - 1
    else
      assert order == order[..|order| - 1] + [order[|order| - 1]];
      LastPlace(order[..|order| - 1], id)
  }

  function RankOf(order: seq<Id>, id: Id): int {
    if id in order then LastPlace(order, id) else |order| + id
  }

  /** Negative when a is drawn before b. */
  function Compare(order: seq<Id>, a: Folder, b: Folder): int {
    if a.sortKey != b.sortKey then a.sortKey - b.sortKey
    else
      var left, right := RankOf(order, a.id), RankOf(order, b.id);
      if left != right then left - right else a.id - b.id
  }

  /** compare is a strict total order on folders with distinct ids. */
  lemma CompareTotal(order: seq<Id>, a: Folder, b: Folder, c: Folder)
    ensures a.id != b.id ==> (Compare(order, a, b) < 0 <==> Compare(order, b, a) > 0)
    ensures a.id != b.id ==> Compare(order, a, b) != 0
    ensures Compare(order, a, b) < 0 && Compare(order, b, c) < 0 ==> Compare(order, a, c) < 0
  {}

  function Insert(order: seq<Id>, f: Folder, sorted: seq<Folder>): (r: seq<Folder>)
    ensures forall g :: g in r <==> g == f || g in sorted
  {
    if |sorted| == 0 || Compare(order, f, sorted[0]) <= 0 then [f] + sorted
    else
      assert sorted == [sorted[0]] + sorted[1..];
      [sorted[0]] + Insert(order, f, sorted[1..])
  }

  /** The library sort: the one arrangement that compare allows. */
  function SortBy(order: seq<Id>, F: seq<Folder>): (r: seq<Folder>)
    ensures forall g :: g in r <==> g in F
  {
    if |F| == 0 then []
    else
      assert F == [F[0]] + F[1..];
      Insert(order, F[0], SortBy(order, F[1..]))
  }

  predicate Ascending(order: seq<Id>, s: seq<Folder>) {
    forall i, j | 0 <= i < j < |s| :: Compare(order, s[i], s[j]) < 0
  }

  lemma AscendingCons(order: seq<Id>, f: Folder, s: seq<Folder>)
    requires Ascending(order, s) && forall g | g in s :: Compare(order, f, g) < 0
    ensures Ascending(order, [f] + s)
  {
    hide Compare;
    var r := [f] + s;
    forall i, j | 0 <= i < j < |r| ensures Compare(order, r[i], r[j]) < 0 {
      assert s[j - 1] in s;
      if i > 0 {
        assert Compare(order, s[i - 1], s[j - 1]) < 0;
      }
    }
  }

  lemma AscendingParts(order: seq<Id>, s: seq<Folder>)
    requires Ascending(order, s) && |s| > 0
    ensures Ascending(order, s[1..])
    ensures forall g | g in s[1..] :: Compare(order, s[0], g) < 0
  {
    hide Compare;
    var t := s[1..];
    forall i, j | 0 <= i < j < |t| ensures Compare(order, t[i], t[j]) < 0 {
      assert Compare(order, s[i + 1], s[j + 1]) < 0;
    }
    forall g | g in t ensures Compare(order, s[0], g) < 0 {
      var k :| 0 <= k < |t| && t[k] == g;
      assert Compare(order, s[0], s[k + 1]) < 0;
    }
  }

  lemma {:induction false} InsertAscending(order: seq<Id>, f: Folder, s: seq<Folder>)
    requires Ascending(order, s) && forall g | g in s :: g.id != f.id
    ensures Ascending(order, Insert(order, f, s))
  {
    hide Compare, Ascending;
    if |s| > 0 {
      var g, t := s[0], s[1..];
      assert g in s;
      CompareTotal(order, f, g, g);
      AscendingParts(order, s);
      if Compare(order, f, g) <= 0 {
        forall h | h in s ensures Compare(order, f, h) < 0 {
          assert s == [g] + t;
          CompareTotal(order, f, g, h);
        }
        AscendingCons(order, f, s);
      } else {
        assert forall h | h in t :: h in s;
        InsertAscending(order, f, t);
        CompareTotal(order, g, f, f);
        AscendingCons(order, g, Insert(order, f, t));
      }
    } else {
      EmptyAscending(order);
      AscendingCons(order, f, []);
    }
  }

  lemma {:induction false} SortAscending(order: seq<Id>, F: seq<Folder>)
    requires WellFormed(F)
    ensures Ascending(order, SortBy(order, F))
  {
    hide Insert, Ascending;
    if |F| > 0 {
      TailWellFormed(F);
      SortAscending(order, F[1..]);
      forall g | g in SortBy(order, F[1..]) ensures g.id != F[0].id {
        HeadIsNew(F, g);
      }
      InsertAscending(order, F[0], SortBy(order, F[1..]));
    } else {
      EmptyAscending(order);
    }
  }

  lemma EmptyAscending(order: seq<Id>)
    ensures Ascending(order, [])
  {}

  lemma TailWellFormed(F: seq<Folder>)
    requires WellFormed(F) && |F| > 0
    ensures WellFormed(F[1..])
  {
    assert forall f | f in F[1..] :: f in F;
  }

  lemma HeadIsNew(F: seq<Folder>, g: Folder)
    requires WellFormed(F) && |F| > 0 && g in F[1..]
    ensures g.id != F[0].id
  {
    var k :| 0 <= k < |F| - 1 && F[1..][k] == g;
    assert F[0] != F[k + 1];
    assert F[0] in F && g in F;
  }

  function IdList(s: seq<Folder>): (ids: seq<Id>)
    ensures |ids| == |s|
    ensures forall i | 0 <= i < |s| :: ids[i] == s[i].id
  {
    if |s| == 0 then [] else [s[0].id] + IdList(s[1..])
  }

  /** The ids in sibling order. */
  function Order(F: seq<Folder>, order: seq<Id>): seq<Id> {
    IdList(SortBy(order, F))
  }

  lemma ListedIds(F: seq<Folder>, order: seq<Id>)
    ensures forall x :: x in Order(F, order) <==> HasId(F, x)
  {
    var s := SortBy(order, F);
    var L := IdList(s);
    hide SortBy;
    forall x ensures x in L <==> HasId(F, x) {
      if x in L {
        var i :| 0 <= i < |L| && L[i] == x;
        assert s[i] in s;
      }
      if HasId(F, x) {
        var f :| f in F && f.id == x;
        var i :| 0 <= i < |s| && s[i] == f;
        assert L[i] == x;
      }
    }
  }

  lemma OrderDistinct(F: seq<Folder>, order: seq<Id>)
    requires WellFormed(F)
    ensures Distinct(Order(F, order))
  {
    var s := SortBy(order, F);
    SortAscending(order, F);
    hide Compare, SortBy;
    forall i, j | 0 <= i < j < |s| ensures s[i].id != s[j].id {
      var f, g := s[i], s[j];
      CompareSelf(order, f);
      assert f in s && g in s;
      assert Compare(order, s[i], s[j]) < 0;
      assert f in F && g in F;
    }
  }

  lemma PlaceInOrder(F: seq<Folder>, order: seq<Id>, f: Folder) returns (i: nat)
    requires WellFormed(F) && f in F
    ensures var s, L := SortBy(order, F), Order(F, order);
      i < |s| == |L| && s[i] == f && f.id in L && Pos(L, f.id) == i
  {
    OrderDistinct(F, order);
    var s, L := SortBy(order, F), Order(F, order);
    hide SortBy, Distinct;
    i :| 0 <= i < |s| && s[i] == f;
    assert L[i] == f.id;
    PosAt(L, i);
  }

  lemma AscendingPlaces(order: seq<Id>, s: seq<Folder>, i: nat, j: nat)
    requires Ascending(order, s) && i < |s| && j < |s| && s[i].id != s[j].id
    ensures i < j <==> Compare(order, s[i], s[j]) < 0
  {
    hide Compare;
    CompareTotal(order, s[i], s[j], s[i]);
    if i < j {
      assert Compare(order, s[i], s[j]) < 0;
    } else {
      assert Compare(order, s[j], s[i]) < 0;
    }
  }

  lemma OrderBefore(F: seq<Folder>, order: seq<Id>, f: Folder, g: Folder)
    requires WellFormed(F) && f in F && g in F && f != g
    ensures Before(Order(F, order), f.id, g.id) <==> Compare(order, f, g) < 0
  {
    hide Compare, SortBy, Order, Ascending;
    assert f.id != g.id;
    hide WellFormed;
    SortAscending(order, F);
    var i := PlaceInOrder(F, order, f);
    var j := PlaceInOrder(F, order, g);
    AscendingPlaces(order, SortBy(order, F), i, j);
  }

  /** The listing is a listing of all folders, and stands in compare's order. */
  lemma OrderFacts(F: seq<Folder>, order: seq<Id>)
    requires WellFormed(F)
    ensures Distinct(Order(F, order))
    ensures forall x :: x in Order(F, order) <==> HasId(F, x)
    ensures forall f, g | f in F && g in F && f != g ::
              Before(Order(F, order), f.id, g.id) <==> Compare(order, f, g) < 0
  {
    hide Compare, Order, Before;
    OrderDistinct(F, order);
    ListedIds(F, order);
    forall f, g | f in F && g in F && f != g ensures Before(Order(F, order), f.id, g.id) <==> Compare(order, f, g) < 0 {
      OrderBefore(F, order, f, g);
    }
  }

  lemma CompareSelf(order: seq<Id>, f: Folder)
    ensures Compare(order, f, f) == 0
  {}

  lemma KnownForest(F: seq<Folder>, order: seq<Id>)
    requires WellFormed(F)
    ensures Known(ParentsOf(F), Order(F, order))
  {
    OrderFacts(F, order);
    hide ParentOf, ParentsOf, Order, Before;
    forall x | x in Order(F, order)
      ensures x in ParentsOf(F) && (ParentsOf(F)[x].Some? ==> ParentsOf(F)[x].value in Order(F, order))
    {
      var f :| f in F && f.id == x;
      ParentsHold(F, f);
    }
  }

  /** The forest of a folder list under a stored order. */
  function ForestOf(F: seq<Folder>, order: seq<Id>): Drawing
    requires WellFormed(F)
  {
    KnownForest(F, order);
    Forest(ParentsOf(F), Order(F, order))
  }

  function Roots(F: seq<Folder>, order: seq<Id>): seq<Tree>
    requires WellFormed(F)
  {
    ForestOf(F, order).tops + ForestOf(F, order).extras
  }

  /** Completeness: whatever the parents say, every folder is drawn exactly once. */
  lemma EveryFolderOnce(F: seq<Folder>, order: seq<Id>)
    requires WellFormed(F)
    ensures Distinct(Flat(Roots(F, order))) && forall x :: x in Flat(Roots(F, order)) <==> HasId(F, x)
  {
    KnownForest(F, order);
    ForestIsDrawing(ParentsOf(F), Order(F, order));
    ListedIds(F, order);
    hide Edges, Sorted, Breaks, Forest, Order, ParentsOf, Distinct, Flat;
  }

  // -- The list order does not matter ---------------------------------------------------

  lemma {:induction false} AscendingUnique(order: seq<Id>, a: seq<Folder>, b: seq<Folder>)
    requires Ascending(order, a) && Ascending(order, b)
    requires forall f, g | f in a && g in a && f != g :: f.id != g.id
    requires forall f :: f in a <==> f in b
    ensures a == b
  {
    hide Compare, Ascending;
    if |a| == 0 {
      if |b| > 0 {
        FirstFolder(b);
      }
    } else {
      FirstFolder(a);
      if |b| > 0 {
        var f, g := a[0], b[0];
        assert f in a && g in b;
        AscendingParts(order, a);
        AscendingParts(order, b);
        assert a == [f] + a[1..] && b == [g] + b[1..];
        CompareTotal(order, f, g, f);
        CompareSelf(order, f);
        CompareSelf(order, g);
        assert f == g;
        forall h ensures h in a[1..] <==> h in b[1..] {
          assert h in a[1..] ==> h in a && h != f;
          assert h in b[1..] ==> h in b && h != f;
        }
        forall h, k | h in a[1..] && k in a[1..] && h != k ensures h.id != k.id {
          assert h in a && k in a;
        }
        AscendingUnique(order, a[1..], b[1..]);
      }
    }
  }

  lemma FirstFolder(s: seq<Folder>)
    requires |s| > 0
    ensures exists f :: f in s
  {
    var f := s[0];
    assert f in s;
  }

  lemma {:induction false} TableKeys(F: seq<Folder>, n: nat)
    requires n <= |F|
    ensures forall x :: x in Table(F, n) <==> exists i :: 0 <= i < n && F[i].id == x
  {
    if n > 0 {
      TableKeys(F, n - 1);
    }
  }

  /** Permuting the folder list changes nothing. */
  lemma PermutationInvariance(F: seq<Folder>, G: seq<Folder>, order: seq<Id>)
    requires WellFormed(F) && WellFormed(G) && forall f :: f in F <==> f in G
    ensures ForestOf(F, order) == ForestOf(G, order)
  {
    SortAscending(order, F);
    SortAscending(order, G);
    AscendingUnique(order, SortBy(order, F), SortBy(order, G));
    SameParents(F, G);
  }

  lemma SameParents(F: seq<Folder>, G: seq<Folder>)
    requires WellFormed(F) && WellFormed(G) && forall f :: f in F <==> f in G
    ensures ParentsOf(F) == ParentsOf(G)
  {
    hide Table;
    TableKeys(F, |F|);
    TableKeys(G, |G|);
    forall x ensures x in ParentsOf(F) <==> x in ParentsOf(G) {
      if x in ParentsOf(F) {
        var i :| 0 <= i < |F| && F[i].id == x;
        assert F[i] in G;
      }
      if x in ParentsOf(G) {
        var i :| 0 <= i < |G| && G[i].id == x;
        assert G[i] in F;
      }
    }
    forall x | x in ParentsOf(F) ensures ParentsOf(F)[x] == ParentsOf(G)[x] {
      var i :| 0 <= i < |F| && F[i].id == x;
      var f := F[i];
      assert f in F;
      ParentsHold(F, f);
      ParentsHold(G, f);
      SameParent(F, G, f);
    }
  }

  lemma SameParent(F: seq<Folder>, G: seq<Folder>, f: Folder)
    requires WellFormed(F) && WellFormed(G) && forall g :: g in F <==> g in G
    ensures ParentOf(F, f) == ParentOf(G, f)
  {
    assert forall id :: HasId(F, id) <==> HasId(G, id);
    var slash := LastSlash(f.name);
    if slash > 0 {
      var a, b := ByName(F, f.name[..slash]), ByName(G, f.name[..slash]);
      assert a == b;
    }
  }

  // -- The drawn order and redrawing ------------------------------------------------------

  predicate IsCustom(F: seq<Folder>, x: Id) {
    exists f | f in F :: f.id == x && !f.special
  }

  /** The custom folders of a list, in its order. */
  function Customs(F: seq<Folder>, s: seq<Id>): (r: seq<Id>)
    ensures forall x :: x in r <==> x in s && IsCustom(F, x)
  {
    if |s| == 0 then []
    else (if IsCustom(F, s[0]) then [s[0]] else []) + Customs(F, s[1..])
  }

  lemma {:induction false} CustomsFollow(F: seq<Folder>, L: seq<Id>, s: seq<Id>)
    requires Follows(L, s)
    ensures Follows(L, Customs(F, s))
  {
    hide IsCustom;
    if |s| > 0 {
      FollowsTail(L, s);
      CustomsFollow(F, L, s[1..]);
      var x := s[0];
      assert x in s;
      if IsCustom(F, x) {
        forall y | y in Customs(F, s[1..]) ensures Before(L, x, y) {
          FirstBefore(L, s, y);
        }
        FollowsCons(L, x, Customs(F, s[1..]));
      }
    }
  }

  /** A list that follows an order has the same pairs before each other. */
  lemma FollowsBefore(L: seq<Id>, s: seq<Id>, x: Id, y: Id)
    requires Follows(L, s) && x in s && y in s && x != y
    ensures Before(s, x, y) <==> Before(L, x, y)
  {
    FollowsDistinct(L, s);
    var i :| 0 <= i < |s| && s[i] == x;
    var j :| 0 <= j < |s| && s[j] == y;
    PosAt(s, i);
    PosAt(s, j);
    if i < j {
      assert Before(L, s[i], s[j]);
    } else {
      assert Before(L, s[j], s[i]);
    }
  }

  lemma {:induction false} LastPlaceIsPos(s: seq<Id>, x: Id)
    requires Distinct(s) && x in s
    ensures LastPlace(s, x) == Pos(s, x)
  {
    var n := |s| - 1;
    if s[n] == x {
      PosAt(s, n);
    } else {
      assert s == s[..n] + [s[n]];
      LastPlaceIsPos(s[..n], x);
      var i := Pos(s[..n], x);
      assert s[i] == x;
      PosAt(s, i);
    }
  }

  /** Two custom folders of a stored order stand as they do in it. */
  lemma CompareStored(F: seq<Folder>, order: seq<Id>, f: Folder, g: Folder)
    requires WellFormed(F) && f in F && g in F && f != g && !f.special && !g.special
    requires Distinct(order) && f.id in order && g.id in order
    ensures Compare(order, f, g) < 0 <==> Before(order, f.id, g.id)
  {
    LastPlaceIsPos(order, f.id);
    LastPlaceIsPos(order, g.id);
    assert order[Pos(order, f.id)] == f.id && order[Pos(order, g.id)] == g.id;
  }

  /** What the first drag stores: the custom folders in the order they are drawn. */
  function DrawnOrder(F: seq<Folder>, order: seq<Id>): seq<Id>
    requires WellFormed(F)
  {
    Customs(F, Flat(Roots(F, order)))
  }

  lemma DrawnOrderFacts(F: seq<Folder>, order: seq<Id>)
    requires WellFormed(F)
    ensures Follows(Flat(Roots(F, order)), DrawnOrder(F, order)) && Distinct(DrawnOrder(F, order))
    ensures forall x :: x in DrawnOrder(F, order) <==> IsCustom(F, x)
  {
    EveryFolderOnce(F, order);
    hide Roots, Flat;
    FollowsSelf(Flat(Roots(F, order)));
    CustomsFollow(F, Flat(Roots(F, order)), Flat(Roots(F, order)));
    FollowsDistinct(Flat(Roots(F, order)), DrawnOrder(F, order));
  }

  lemma FolderWith(F: seq<Folder>, x: Id) returns (f: Folder)
    requires HasId(F, x)
    ensures f in F && f.id == x
  {
    f :| f in F && f.id == x;
  }

  /** The stored drawn order keeps every pair that compare and the drawing agree on. */
  lemma DrawnAgrees(F: seq<Folder>, order: seq<Id>)
    requires WellFormed(F)
    ensures Agrees(Order(F, order), Flat(Roots(F, order)), Order(F, DrawnOrder(F, order)))
  {
    hide Order, DrawnOrder, Roots, Flat, Before, WellFormed, HasId;
    ListedIds(F, order);
    ListedIds(F, DrawnOrder(F, order));
    forall x, y | Before(Order(F, order), x, y) && Before(Flat(Roots(F, order)), x, y)
      ensures Before(Order(F, DrawnOrder(F, order)), x, y)
    {
      DrawnPair(F, order, x, y);
    }
  }

  lemma BeforeMembers(s: seq<Id>, x: Id, y: Id)
    requires Before(s, x, y)
    ensures x in s && y in s && x != y
  {}

  lemma DrawnPair(F: seq<Folder>, order: seq<Id>, x: Id, y: Id)
    requires WellFormed(F)
    requires Before(Order(F, order), x, y) && Before(Flat(Roots(F, order)), x, y)
    ensures Before(Order(F, DrawnOrder(F, order)), x, y)
  {
    var drawn, stored := Flat(Roots(F, order)), DrawnOrder(F, order);
    ListedIds(F, order);
    DrawnOrderFacts(F, order);
    hide Order, DrawnOrder, Roots, Flat, RankOf, Follows, Before;
    BeforeMembers(Order(F, order), x, y);
    var f := FolderWith(F, x);
    var g := FolderWith(F, y);
    OrderBefore(F, order, f, g);
    OrderBefore(F, stored, f, g);
    if f.sortKey == g.sortKey {
      FollowsBefore(drawn, stored, x, y);
      CompareStored(F, stored, f, g);
    }
  }

  /** Redraw stability: storing the drawn order and rebuilding gives the identical forest, cycles included. */
  lemma RedrawStable(F: seq<Folder>, order: seq<Id>)
    requires WellFormed(F)
    ensures ForestOf(F, DrawnOrder(F, order)) == ForestOf(F, order)
  {
    KnownForest(F, order);
    KnownForest(F, DrawnOrder(F, order));
    DrawnAgrees(F, order);
    hide Order, DrawnOrder, Forest, ParentsOf;
    RedrawAgreeing(ParentsOf(F), Order(F, order), Order(F, DrawnOrder(F, order)));
  }

  // -- Dragging ------------------------------------------------------------------------------

  /** MoveNext takes d out and puts it back beside t. */
  lemma MoveNextParts(s: seq<Id>, d: Id, t: Id, after: bool)
    requires Distinct(s) && d in s && t in s && d != t
    ensures var rest := Without(s, d);
      && Distinct(rest) && d !in rest && t in rest && Follows(s, rest)
      && (forall x :: x in rest <==> x in s && x != d)
      && MoveNext(s, d, t, after) == PutNext(rest, d, t, after)
  {
    FollowsSelf(s);
    OutsideFollows(s, s, {d});
    FollowsDistinct(s, Without(s, d));
  }

  lemma NotBeforeSelf(s: seq<Id>, x: Id)
    ensures !Before(s, x, x)
  {}

  lemma PutNextDistinct(rest: seq<Id>, d: Id, t: Id, after: bool)
    requires Distinct(rest) && d !in rest && t in rest
    ensures Distinct(PutNext(rest, d, t, after))
  {
    var at, r := Pos(rest, t) + if after then 1 else 0, PutNext(rest, d, t, after);
    forall i, j | 0 <= i < j < |r| ensures r[i] != r[j] {
      if i == at {
        var y := rest[j - 1];
        assert y in rest;
      } else if j == at {
        var y := rest[i];
        assert y in rest;
      } else {
        assert rest[if i < at then i else i - 1] != rest[if j < at then j else j - 1];
      }
    }
  }

  /** What stood at or behind the place of d is one place further on. */
  lemma PutNextPlaces(rest: seq<Id>, d: Id, t: Id, after: bool, x: Id)
    requires Distinct(rest) && d !in rest && t in rest && x in rest
    ensures var r, at := PutNext(rest, d, t, after), Pos(rest, t) + if after then 1 else 0;
      && Pos(r, d) == at
      && Pos(r, x) == if Pos(rest, x) < at then Pos(rest, x) else Pos(rest, x) + 1
  {
    var r, at := PutNext(rest, d, t, after), Pos(rest, t) + if after then 1 else 0;
    PutNextDistinct(rest, d, t, after);
    assert r[at] == d;
    PosAt(r, at);
    var k := Pos(rest, x);
    var k' := if k < at then k else k + 1;
    assert r[k'] == x;
    PosAt(r, k');
  }

  lemma SamePlace(s: seq<Id>, x: Id, y: Id)
    requires x in s && y in s && Pos(s, x) == Pos(s, y)
    ensures x == y
  {
    assert s[Pos(s, x)] == x && s[Pos(s, y)] == y;
  }

  /** Pairs without d keep their order, and d compares with any other as t does; with t itself as after says. */
  lemma PutNextOrder(rest: seq<Id>, d: Id, t: Id, after: bool, x: Id, y: Id)
    requires Distinct(rest) && d !in rest && t in rest && x in rest && y in rest
    ensures Before(PutNext(rest, d, t, after), x, y) <==> Before(rest, x, y)
    ensures y != t ==> (Before(PutNext(rest, d, t, after), y, d) <==> Before(rest, y, t))
    ensures Before(PutNext(rest, d, t, after), t, d) <==> after
  {
    PutNextPlaces(rest, d, t, after, x);
    PutNextPlaces(rest, d, t, after, y);
    PutNextPlaces(rest, d, t, after, t);
    hide PutNext, Pos, Distinct;
    if y != t && Pos(rest, y) == Pos(rest, t) { SamePlace(rest, y, t); }
  }

  lemma MoveKeepsPair(s: seq<Id>, d: Id, t: Id, after: bool, x: Id, y: Id)
    requires Distinct(s) && d in s && t in s && d != t
    requires x in s && y in s && x != d && y != d
    ensures Before(MoveNext(s, d, t, after), x, y) <==> Before(s, x, y)
    ensures y != t ==> (Before(MoveNext(s, d, t, after), y, d) <==> Before(s, y, t))
    ensures Before(MoveNext(s, d, t, after), t, d) <==> after
  {
    MoveNextParts(s, d, t, after);
    hide Before, MoveNext, PutNext, Without, Outside, Follows;
    PutNextOrder(Without(s, d), d, t, after, x, y);
    if x != y {
      FollowsBefore(s, Without(s, d), x, y);
    } else {
      NotBeforeSelf(s, x);
      NotBeforeSelf(MoveNext(s, d, t, after), x);
    }
    if y != t { FollowsBefore(s, Without(s, d), y, t); }
  }

  /** Where things stand after MoveNext: the others as before, the moved one beside its target. */
  lemma MoveNextOrder(s: seq<Id>, d: Id, t: Id, after: bool)
    requires Distinct(s) && d in s && t in s && d != t
    ensures MovedOrder(s, MoveNext(s, d, t, after), d, t, after)
  {
    MoveNextParts(s, d, t, after);
    hide Before, MoveNext, PutNext, Without, Outside, Follows, Distinct;
    PutNextDistinct(Without(s, d), d, t, after);
    MoveKeepsPair(s, d, t, after, t, t);
    forall x, y | x in s && y in s && x != d && y != d
      ensures Before(MoveNext(s, d, t, after), x, y) <==> Before(s, x, y)
      ensures y != t ==> (Before(MoveNext(s, d, t, after), y, d) <==> Before(s, y, t))
    {
      MoveKeepsPair(s, d, t, after, x, y);
    }
  }

  /** The stored order after a drop: the drawn one with d taken out and put next to t. */
  function DroppedOrder(F: seq<Folder>, order: seq<Id>, d: Id, t: Id, after: bool): seq<Id>
    requires WellFormed(F) && IsCustom(F, d) && IsCustom(F, t) && d != t
  {
    DrawnOrderFacts(F, order);
    MoveNext(DrawnOrder(F, order), d, t, after)
  }

  lemma ComparePair(F: seq<Folder>, stored: seq<Id>, moved: seq<Id>, d: Id, t: Id, after: bool, f: Folder, g: Folder)
    requires WellFormed(F) && f in F && g in F && f != g
    requires MovedOrder(stored, moved, d, t, after)
    requires forall x :: x in stored <==> IsCustom(F, x)
    ensures f.id != d && g.id != d ==> (Compare(moved, f, g) < 0 <==> Compare(stored, f, g) < 0)
  {
    hide RankOf, Before;
    if f.sortKey == g.sortKey && f.id != d && g.id != d {
      assert IsCustom(F, f.id) && IsCustom(F, g.id);
      CompareStored(F, stored, f, g);
      CompareStored(F, moved, f, g);
    }
  }

  lemma CompareWithMoved(F: seq<Folder>, stored: seq<Id>, moved: seq<Id>, after: bool, d: Folder, t: Folder, g: Folder)
    requires WellFormed(F) && d in F && t in F && g in F && d != t && g != d && !d.special && !t.special
    requires MovedOrder(stored, moved, d.id, t.id, after)
    requires forall x :: x in stored <==> IsCustom(F, x)
    ensures g != t ==> (Compare(moved, g, d) < 0 <==> Compare(stored, g, t) < 0)
    ensures Compare(moved, t, d) < 0 <==> after
  {
    hide RankOf, Before;
    assert IsCustom(F, d.id) && IsCustom(F, t.id);
    CompareStored(F, moved, t, d);
    if g != t && !g.special {
      assert IsCustom(F, g.id);
      CompareStored(F, moved, g, d);
      CompareStored(F, stored, g, t);
    }
  }

  lemma DropPair(F: seq<Folder>, stored: seq<Id>, moved: seq<Id>, d: Id, t: Id, after: bool, x: Id, y: Id)
    requires WellFormed(F) && HasId(F, x) && HasId(F, y) && x != d && y != d
    requires MovedOrder(stored, moved, d, t, after)
    requires forall x :: x in stored <==> IsCustom(F, x)
    ensures Before(Order(F, moved), x, y) <==> Before(Order(F, stored), x, y)
  {
    hide Order, RankOf, Before, Compare;
    if x == y {
      NotBeforeSelf(Order(F, stored), x);
      NotBeforeSelf(Order(F, moved), x);
    } else {
      var f := FolderWith(F, x);
      var g := FolderWith(F, y);
      ComparePair(F, stored, moved, d, t, after, f, g);
      OrderBefore(F, stored, f, g);
      OrderBefore(F, moved, f, g);
    }
  }

  lemma DropBeside(F: seq<Folder>, stored: seq<Id>, moved: seq<Id>, d: Id, t: Id, after: bool, y: Id)
    requires WellFormed(F) && IsCustom(F, d) && IsCustom(F, t) && d != t && HasId(F, y) && y != d
    requires MovedOrder(stored, moved, d, t, after)
    requires forall x :: x in stored <==> IsCustom(F, x)
    ensures y != t ==> (Before(Order(F, moved), y, d) <==> Before(Order(F, stored), y, t))
    ensures Before(Order(F, moved), t, d) <==> after
  {
    hide Order, RankOf, Before, Compare;
    var fd: Folder :| fd in F && fd.id == d && !fd.special;
    var ft: Folder :| ft in F && ft.id == t && !ft.special;
    var g := FolderWith(F, y);
    CompareWithMoved(F, stored, moved, after, fd, ft, g);
    OrderBefore(F, moved, ft, fd);
    OrderBefore(F, moved, g, fd);
    if y != t {
      OrderBefore(F, stored, g, ft);
    }
  }

  /** A drop moves one folder in the sibling order of all folders, too. */
  lemma DropMovesOrder(F: seq<Folder>, order: seq<Id>, d: Id, t: Id, after: bool)
    requires WellFormed(F) && IsCustom(F, d) && IsCustom(F, t) && d != t
    ensures MovedOrder(Order(F, DrawnOrder(F, order)), Order(F, DroppedOrder(F, order, d, t, after)), d, t, after)
  {
    var stored, moved := DrawnOrder(F, order), DroppedOrder(F, order, d, t, after);
    DrawnOrderFacts(F, order);
    MoveNextOrder(stored, d, t, after);
    hide DrawnOrder, DroppedOrder;
    OrderMoved(F, stored, moved, d, t, after);
  }

  lemma OrderMoved(F: seq<Folder>, stored: seq<Id>, moved: seq<Id>, d: Id, t: Id, after: bool)
    requires WellFormed(F) && IsCustom(F, d) && IsCustom(F, t) && d != t
    requires MovedOrder(stored, moved, d, t, after)
    requires forall x :: x in stored <==> IsCustom(F, x)
    ensures MovedOrder(Order(F, stored), Order(F, moved), d, t, after)
  {
    hide MovedOrder, Order, Before, WellFormed, Distinct;
    var L, M := Order(F, stored), Order(F, moved);
    ListedIds(F, stored);
    ListedIds(F, moved);
    OrderDistinct(F, stored);
    OrderDistinct(F, moved);
    assert HasId(F, d) && HasId(F, t);
    DropBeside(F, stored, moved, d, t, after, t);
    forall x, y | x in L && y in L && x != d && y != d ensures Before(M, x, y) <==> Before(L, x, y) {
      DropPair(F, stored, moved, d, t, after, x, y);
    }
    forall y | y in L && y != d && y != t ensures Before(M, y, d) <==> Before(L, y, t) {
      DropBeside(F, stored, moved, d, t, after, y);
    }
    MovedOrderFrom(L, M, d, t, after);
  }

  lemma MovedOrderFrom(L: seq<Id>, M: seq<Id>, d: Id, t: Id, after: bool)
    requires Distinct(L) && Distinct(M) && d in L && t in L && d != t
    requires forall x :: x in L <==> x in M
    requires forall x, y | x in L && y in L && x != d && y != d :: Before(M, x, y) <==> Before(L, x, y)
    requires forall y | y in L && y != d && y != t :: Before(M, y, d) <==> Before(L, y, t)
    requires Before(M, t, d) <==> after
    ensures MovedOrder(L, M, d, t, after)
  {}

  /** d and t are drawn side by side with one parent: both are roots without one, or directly inside the same folder. */
  ghost predicate DrawnSiblings(D: Drawing, d: Id, t: Id) {
    || (d in Ids(D.tops) && t in Ids(D.tops))
    || exists x :: d in ChildrenIn(D.tops + D.extras, x) && t in ChildrenIn(D.tops + D.extras, x)
  }

  lemma SiblingsShareParent(P: Parents, L: seq<Id>, d: Id, t: Id)
    requires Known(P, L) && DrawnSiblings(Forest(P, L), d, t) && d in L && t in L
    ensures P[d] == P[t] && !CutsCycle(P, L, d) && !CutsCycle(P, L, t)
  {
    var D := Forest(P, L);
    ForestIsDrawing(P, L);
    Placement(P, L, d);
    Placement(P, L, t);
    hide Forest, Edges, Sorted, Breaks, Distinct, Flat;
    if d in Ids(D.tops) && t in Ids(D.tops) {
      TopsDoNotCut(P, d);
      TopsDoNotCut(P, t);
    } else {
      var x :| d in ChildrenIn(D.tops + D.extras, x) && t in ChildrenIn(D.tops + D.extras, x);
      if x !in Flat(D.tops + D.extras) {
        ChildrenNowhere(D.tops + D.extras, x);
      }
      ChildrenOfNode(P, L, x);
    }
  }

  lemma TopsDoNotCut(P: Parents, x: Id)
    requires x in P && P[x] == None
    ensures ReachesTop(P, x)
  {
    assert Ancestor(P, x, 0) == Some(x);
    assert Ancestor(P, x, 1) == None;
  }

  lemma CutsSameDrawing(P: Parents, L: seq<Id>, M: seq<Id>, x: Id)
    requires Known(P, L) && Known(P, M) && Forest(P, L) == Forest(P, M) && x in L && x in M
    ensures CutsCycle(P, L, x) <==> CutsCycle(P, M, x)
  {
    Placement(P, L, x);
    Placement(P, M, x);
  }

  /**
   * Drag reorder: dropping a custom folder before or after a drawn custom sibling stores a permutation of the custom
   * folders, and the redraw is the old drawing with the folder taken out of their common list and put directly
   * before or after the sibling; every other list, the roots included, is unchanged.
   */
  lemma DragMoves(F: seq<Folder>, order: seq<Id>, d: Id, t: Id, after: bool)
    requires WellFormed(F) && IsCustom(F, d) && IsCustom(F, t) && d != t
    requires DrawnSiblings(ForestOf(F, order), d, t)
    ensures var stored := DroppedOrder(F, order, d, t, after);
      Distinct(stored) && forall x :: x in stored <==> IsCustom(F, x)
    ensures var D, E := ForestOf(F, order), ForestOf(F, DroppedOrder(F, order, d, t, after));
      && (d in Ids(D.tops) <==> t in Ids(D.tops)) && Ids(E.tops) == MovedList(Ids(D.tops), d, t, after)
      && Ids(E.extras) == Ids(D.extras)
      && forall x | HasId(F, x) ::
        var was := ChildrenIn(D.tops + D.extras, x);
        (d in was <==> t in was) && ChildrenIn(E.tops + E.extras, x) == MovedList(was, d, t, after)
  {
    var stored, moved := DrawnOrder(F, order), DroppedOrder(F, order, d, t, after);
    DrawnOrderFacts(F, order);
    MoveNextOrder(stored, d, t, after);
    RedrawStable(F, order);
    var P, L0, L, M := ParentsOf(F), Order(F, order), Order(F, stored), Order(F, moved);
    KnownForest(F, order);
    KnownForest(F, stored);
    KnownForest(F, moved);
    ListedIds(F, order);
    ListedIds(F, stored);
    DropMovesOrder(F, order, d, t, after);
    hide Order, DrawnOrder, DroppedOrder, Forest, ParentsOf, CutsCycle, DrawnSiblings, WellFormed, Known;
    assert HasId(F, d) && HasId(F, t);
    SiblingsShareParent(P, L0, d, t);
    CutsSameDrawing(P, L0, L, d);
    CutsSameDrawing(P, L0, L, t);
    DrawingMoved(P, L, M, d, t, after);
  }
}
