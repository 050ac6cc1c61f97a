/** A whole drop of a folder on a row: the move if one is needed, the order, and when it ends beside its target. */
module FolderDrop {
  import opened Wrappers
  import opened FolderOrder
  import opened FolderForest
  import opened FolderPlacement
  import opened FolderReorder
  import opened FolderTree
  import opened FolderDrag
  import opened FolderMoves
  import opened FolderPane

  /** What the pane shows: the folders as the server last sent them, and the reader's own order. */
  class Pane {
    var folders: seq<Folder>
    const orders: OrderStore

    constructor (folders: seq<Folder>, orders: OrderStore)
      ensures this.folders == folders && this.orders == orders
    {
      this.folders, this.orders := folders, orders;
    }

    /** Asks the server for a move; if it is made, the folders are read again. */
    method ReparentFolder(answer: Option<seq<Folder>>) returns (moved: bool)
      modifies this`folders
      ensures moved == answer.Some?
      ensures folders == if answer.Some? then answer.value else old(folders)
    {
      moved := answer.Some?;
      if answer.Some? { folders := answer.value; }
    }

    /**
     * A drop inside a row moves; a drop at an edge moves only when the parents the server sent differ, stops when that
     * is refused, and then stores the order. `answer` is what the server sends after the move.
     */
    method DropFolder(dragged: Id, target: Id, zone: Zone, answer: Option<seq<Folder>>)
      requires WellFormed(folders) && dragged != target && (answer.Some? ==> WellFormed(answer.value))
      modifies this`folders, orders
      ensures zone.OnRow? ==>
        orders.order == old(orders.order) && folders == if answer.Some? then answer.value else old(folders)
      ensures !zone.OnRow? && Moves(old(folders), dragged, target) && answer.None? ==>
        orders.order == old(orders.order) && folders == old(folders)
      ensures !zone.OnRow? && !(Moves(old(folders), dragged, target) && answer.None?) ==>
        && folders == (if Moves(old(folders), dragged, target) then answer.value else old(folders))
        && orders.order == if IsCustom(folders, dragged) && IsCustom(folders, target)
           then DroppedOrder(folders, old(orders.order), dragged, target, zone.AfterRow?) else old(orders.order)
    {
      hide WellFormed, IsCustom, DroppedOrder;
      if zone.OnRow? {
        var _ := ReparentFolder(answer);
        return;
      }
      if Moves(folders, dragged, target) {
        var moved := ReparentFolder(answer);
        if !moved { return; }
      }
      orders.ReorderFolder(folders, dragged, target, zone.AfterRow?);
    }
  }

  /** An edge drop needs a move first. */
  predicate Moves(F: seq<Folder>, dragged: Id, target: Id) {
    ParentOfFolder(F, dragged) != ParentOfFolder(F, target)
  }

  /** A move is needed exactly when the two do not name the same positive parent. */
  lemma MovesMeans(F: seq<Folder>, f: Folder, g: Folder)
    requires WellFormed(F) && f in F && g in F
    ensures Moves(F, f.id, g.id) <==> exists p: Id :: p > 0 && (f.parent == Some(p)) != (g.parent == Some(p))
  {
    FindIsTheOne(F, f);
    FindIsTheOne(F, g);
    if Moves(F, f.id, g.id) {
      if f.parent.Some? && f.parent.value > 0 {
        assert (f.parent == Some(f.parent.value)) != (g.parent == Some(f.parent.value));
      } else {
        assert (f.parent == Some(g.parent.value)) != (g.parent == Some(g.parent.value));
      }
    }
  }

  lemma MoveSplits(s: seq<Id>, d: Id, t: Id, after: bool) returns (a: seq<Id>, b: seq<Id>)
    requires Distinct(s) && d in s && t in s && d != t
    ensures MoveNext(s, d, t, after) == if after then a + [t, d] + b else a + [d, t] + b
    ensures Follows(s, a + [t] + b) && forall x :: x in a + [t] + b <==> x in s && x != d
  {
    MoveNextParts(s, d, t, after);
    hide MoveNext, Without, Follows, PutNext;
    a, b := PutSplits(Without(s, d), d, t, after);
  }

  lemma PutSplits(rest: seq<Id>, d: Id, t: Id, after: bool) returns (a: seq<Id>, b: seq<Id>)
    requires t in rest
    ensures rest == a + [t] + b
    ensures PutNext(rest, d, t, after) == if after then a + [t, d] + b else a + [d, t] + b
  {
    hide Pos;
    var at := Pos(rest, t);
    a, b := rest[..at], rest[at + 1..];
    if after {
      assert rest[..at + 1] == a + [t];
      assert a + [t] + [d] + b == a + [t, d] + b;
    } else {
      assert rest[at..] == [t] + b;
      assert a + [d] + ([t] + b) == a + [d, t] + b;
    }
  }

  /** What a drop stores: the custom folders as drawn, the dropped one taken out and put directly beside the other. */
  lemma StoredBeside(F: seq<Folder>, order: seq<Id>, dragged: Folder, target: Folder, after: bool)
    returns (a: seq<Id>, b: seq<Id>)
    requires WellFormed(F) && dragged in F && target in F && dragged != target && !dragged.special && !target.special
    ensures IsCustom(F, dragged.id) && IsCustom(F, target.id) && dragged.id != target.id
    ensures DroppedOrder(F, order, dragged.id, target.id, after)
         == if after then a + [target.id, dragged.id] + b else a + [dragged.id, target.id] + b
    ensures Follows(Flat(Roots(F, order)), a + [target.id] + b)
    ensures forall x :: x in a + [target.id] + b <==> x != dragged.id && exists f | f in F :: f.id == x && !f.special
  {
    var d, t := dragged.id, target.id;
    assert IsCustom(F, d) && IsCustom(F, t);
    assert forall x :: IsCustom(F, x) <==> exists f | f in F :: f.id == x && !f.special;
    DrawnOrderFacts(F, order);
    assert DroppedOrder(F, order, d, t, after) == MoveNext(DrawnOrder(F, order), d, t, after);
    hide DrawnOrder, IsCustom, Follows, MoveNext, Flat, Roots, WellFormed, DroppedOrder, Distinct;
    a, b := MoveSplits(DrawnOrder(F, order), d, t, after);
    FollowsThrough(Flat(Roots(F, order)), DrawnOrder(F, order), a + [t] + b);
  }

  lemma FollowsThrough(l: seq<Id>, s: seq<Id>, r: seq<Id>)
    requires Follows(l, s) && Follows(s, r)
    ensures Follows(l, r)
  {
    forall i, j | 0 <= i < j < |r| ensures Before(l, r[i], r[j]) {
      assert Before(s, r[i], r[j]);
      FollowsBefore(l, s, r[i], r[j]);
    }
  }

  // -- Where an edge drop ends --------------------------------------------------------------------------------

  /**
   * With whatever folders the server sent after the move, an edge drop ends directly beside its target if and only if
   * the order before it says so: both will cut a cycle, or the two have one parent in the tree and neither will, or
   * they meet where the roots without a parent end.
   */
  lemma EdgeDropIsBeside(G: seq<Folder>, order: seq<Id>, d: Id, t: Id, after: bool)
    requires WellFormed(G) && IsCustom(G, d) && IsCustom(G, t) && d != t
    ensures var P, L := ParentsOf(G), Order(G, DrawnOrder(G, order));
      && d in P && t in P && (forall y | y in L :: y in P)
      && (DrawnNextTo(ForestOf(G, DroppedOrder(G, order, d, t, after)), d, t, after) <==> EndsBeside(P, L, d, t, after))
  {
    KnownForest(G, DrawnOrder(G, order));
    KnownForest(G, DroppedOrder(G, order, d, t, after));
    DropMovesOrder(G, order, d, t, after);
    hide DrawnOrder, DroppedOrder, Order, ParentsOf, DrawnNextTo, Forest, EndsBeside;
    BesideExactly(
      ParentsOf(G), Order(G, DrawnOrder(G, order)), Order(G, DroppedOrder(G, order, d, t, after)), d, t, after);
  }

  lemma FindIsTheOne(F: seq<Folder>, f: Folder)
    requires WellFormed(F) && f in F
    ensures Find(F, f.id) == Some(f)
  {
  }

  /** A parent the server named is the parent in the tree, when it is another folder of this mailbox. */
  lemma SentParentCounts(G: seq<Folder>, x: Id, p: Id)
    requires WellFormed(G) && HasId(G, x) && ParentOfFolder(G, x) == Some(p) && HasId(G, p) && p != x
    ensures x in ParentsOf(G) && ParentsOf(G)[x] == Some(p)
  {
    var f :| f in G && f.id == x;
    FindIsTheOne(G, f);
    ParentsHold(G, f);
  }

  /** So after a drop whose target has such a parent, the two have one parent in the tree. */
  lemma SameSentParent(G: seq<Folder>, d: Id, t: Id, p: Id)
    requires WellFormed(G) && HasId(G, d) && HasId(G, t) && HasId(G, p) && p != d && p != t
    requires ParentOfFolder(G, d) == ParentOfFolder(G, t) == Some(p)
    ensures d in ParentsOf(G) && t in ParentsOf(G) && ParentsOf(G)[d] == ParentsOf(G)[t]
  {
    hide ParentsOf, WellFormed, HasId;
    SentParentCounts(G, d, p);
    SentParentCounts(G, t, p);
  }

  // -- A target nested by its name ------------------------------------------------------------------------------

  /** Folder 2 is inside 1 by its name alone; the server sent no parents. */
  const NAMED: seq<Folder> := [Plain(1, "a"), Plain(2, "a/b"), Plain(3, "c")]

  function Plain(id: Id, name: string): Folder {
    Folder(id, name, None, false, CUSTOM_KEY)
  }

  lemma NamedIsWellFormed()
    ensures WellFormed(NAMED) && IsCustom(NAMED, 2) && IsCustom(NAMED, 3)
  {
    var f, g, h := NAMED[0], NAMED[1], NAMED[2];
    assert g in NAMED && h in NAMED && forall x | x in NAMED :: x == f || x == g || x == h;
    assert |f.name| == |h.name| == 1 && |g.name| == 3 && f.name[0] == 'a' && h.name[0] == 'c';
    assert f.name != h.name;
  }

  lemma OnlySlash(name: string, i: nat)
    requires i < |name| && name[i] == '/' && forall j | 0 <= j < |name| && j != i :: name[j] != '/'
    ensures LastSlash(name) == i
  {
    hide LastSlash;
    assert '/' in name;
  }

  lemma NoSlash(name: string)
    requires forall j | 0 <= j < |name| :: name[j] != '/'
    ensures LastSlash(name) < 0
  {
    hide LastSlash;
  }

  lemma NamedParent(f: Folder)
    requires f in NAMED
    ensures ParentOf(NAMED, f) == if f.id == 2 then Some(1) else None
  {
    hide LastSlash, ByName;
    if f.id == 2 {
      assert |f.name| == 3 && f.name[0] == 'a' && f.name[1] == '/' && f.name[2] == 'b' && f.name[..1] == "a";
      OnlySlash(f.name, 1);
      NamedByName();
    } else {
      assert |f.name| == 1 && f.name[0] != '/';
      NoSlash(f.name);
    }
  }

  lemma NamedByName()
    ensures ByName(NAMED, "a") == Some(NAMED[0])
  {
    assert NAMED[..2] == [NAMED[0], NAMED[1]] && [NAMED[0], NAMED[1]][..1] == [NAMED[0]];
    assert |NAMED[1].name| == 3 && NAMED[2].name[0] == 'c' && "a"[0] == 'a';
  }

  lemma NamedParents()
    ensures WellFormed(NAMED) && IsCustom(NAMED, 2) && IsCustom(NAMED, 3)
    ensures var P := ParentsOf(NAMED);
      1 in P && 2 in P && 3 in P && P[1] == None && P[2] == Some(1) && P[3] == None
  {
    NamedIsWellFormed();
    hide WellFormed, IsCustom, ParentOf, ParentsOf;
    assert NAMED[0] in NAMED && NAMED[1] in NAMED && NAMED[2] in NAMED;
    assert NAMED[0].id == 1 && NAMED[1].id == 2 && NAMED[2].id == 3;
    NamedParent(NAMED[0]);
    NamedParent(NAMED[1]);
    NamedParent(NAMED[2]);
    ParentsHold(NAMED, NAMED[0]);
    ParentsHold(NAMED, NAMED[1]);
    ParentsHold(NAMED, NAMED[2]);
  }

  /** Dropping 3 at an edge of 2 moves nothing, since the server sent neither a parent, and does not end beside it. */
  lemma NestedByName(order: seq<Id>, after: bool)
    ensures WellFormed(NAMED) && IsCustom(NAMED, 3) && IsCustom(NAMED, 2) && !Moves(NAMED, 3, 2)
    ensures !DrawnNextTo(ForestOf(NAMED, DroppedOrder(NAMED, order, 3, 2, after)), 3, 2, after)
  {
    NamedParents();
    assert NAMED[1] in NAMED && NAMED[2] in NAMED && NAMED[1].id == 2 && NAMED[2].id == 3;
    FindIsTheOne(NAMED, NAMED[1]);
    FindIsTheOne(NAMED, NAMED[2]);
    hide WellFormed, IsCustom, ParentsOf, Find, Order, DroppedOrder, DrawnOrder, Forest, DrawnNextTo, EndsBeside;
    EdgeDropIsBeside(NAMED, order, 3, 2, after);
    NamedApart(ParentsOf(NAMED), Order(NAMED, DrawnOrder(NAMED, order)), after);
  }

  lemma NamedApart(P: Parents, L: seq<Id>, after: bool)
    requires 1 in P && 2 in P && 3 in P && P[1] == None && P[2] == Some(1) && P[3] == None
    requires forall y | y in L :: y in P
    ensures !EndsBeside(P, L, 3, 2, after)
  {
    TopsDoNotCut(P, 3);
    TopsDoNotCut(P, 1);
    ChainStep(P, 2, 1);
    hide ReachesTop, IsAncestor;
  }

  // -- One parent is not enough -----------------------------------------------------------------------------------

  /** Two folders that are each other's parent, and a third inside the second. */
  const LOOPED: seq<Folder> :=
    [Folder(1, "a", Some(2), false, CUSTOM_KEY), Folder(2, "b", Some(1), false, CUSTOM_KEY),
     Folder(3, "c", Some(2), false, CUSTOM_KEY)]

  const LOOP: Parents := map[1 := Some(2), 2 := Some(1), 3 := Some(2)]

  lemma LoopedIsWellFormed()
    ensures WellFormed(LOOPED)
    ensures forall x :: HasId(LOOPED, x) <==> x == 1 || x == 2 || x == 3
    ensures forall x :: IsCustom(LOOPED, x) <==> x == 1 || x == 2 || x == 3
  {
    var f, g, h := LOOPED[0], LOOPED[1], LOOPED[2];
    assert f in LOOPED && g in LOOPED && h in LOOPED;
    assert f.name[0] == 'a' && g.name[0] == 'b' && h.name[0] == 'c';
  }

  lemma LoopedParents()
    ensures WellFormed(LOOPED) && ParentsOf(LOOPED) == LOOP
    ensures forall x :: HasId(LOOPED, x) <==> x == 1 || x == 2 || x == 3
    ensures forall x :: IsCustom(LOOPED, x) <==> x == 1 || x == 2 || x == 3
  {
    LoopedIsWellFormed();
    hide WellFormed, HasId, IsCustom;
    assert ParentOf(LOOPED, LOOPED[0]) == Some(2);
    assert ParentOf(LOOPED, LOOPED[1]) == Some(1) && ParentOf(LOOPED, LOOPED[2]) == Some(2);
    hide ParentOf;
    assert Table(LOOPED, 0) == map[];
    assert Table(LOOPED, 1) == map[1 := Some(2)];
    assert Table(LOOPED, 2) == map[1 := Some(2), 2 := Some(1)];
  }

  lemma ThreeInOrder(s: seq<Id>, a: Id, b: Id, c: Id)
    requires Distinct(s) && a != b && b != c && a != c && forall x :: x in s <==> x == a || x == b || x == c
    requires Before(s, a, b) && Before(s, b, c)
    ensures s == [a, b, c]
  {
    FollowsSelf(s);
    assert Follows(s, [a, b, c]);
    hide Follows, Before;
    FollowsUnique(s, s, [a, b, c]);
  }

  lemma LoopedOrder(a: Id, b: Id, c: Id)
    requires [a, b, c] == [1, 2, 3] || [a, b, c] == [1, 3, 2]
    ensures Order(LOOPED, [a, b, c]) == [a, b, c]
  {
    LoopedParents();
    var order := [a, b, c];
    assert order[0] == a && order[1] == b && order[2] == c;
    assert [a, b, c] == [1, 2, 3] ==> a == [1, 2, 3][0] && b == [1, 2, 3][1] && c == [1, 2, 3][2];
    assert [a, b, c] == [1, 3, 2] ==> a == [1, 3, 2][0] && b == [1, 3, 2][1] && c == [1, 3, 2][2];
    OrderFacts(LOOPED, order);
    LoopedRanks(order, a, b, c);
    LoopedBefore(order, a, b);
    LoopedBefore(order, b, c);
    hide Order;
    ThreeInOrder(Order(LOOPED, order), a, b, c);
  }

  lemma LoopedRanks(order: seq<Id>, a: Id, b: Id, c: Id)
    requires order == [a, b, c] && a != b && b != c && a != c
    ensures RankOf(order, a) == 0 && RankOf(order, b) == 1 && RankOf(order, c) == 2
  {
    assert order[..2] == [a, b] && [a, b][..1] == [a];
    assert LastPlace([a], a) == 0 && LastPlace([a, b], b) == 1;
    assert LastPlace([a, b], a) == 0;
  }

  lemma LoopedBefore(order: seq<Id>, x: Id, y: Id)
    requires (x == 1 || x == 2 || x == 3) && (y == 1 || y == 2 || y == 3) && RankOf(order, x) < RankOf(order, y)
    ensures Before(Order(LOOPED, order), x, y)
  {
    LoopedParents();
    OrderFacts(LOOPED, order);
    assert LOOPED[x - 1] in LOOPED && LOOPED[y - 1] in LOOPED;
    assert Compare(order, LOOPED[x - 1], LOOPED[y - 1]) < 0;
  }

  lemma ThreeCustoms()
    ensures Customs(LOOPED, [1, 2, 3]) == [1, 2, 3]
  {
    LoopedIsWellFormed();
    hide IsCustom;
    var s: seq<Id> := [1, 2, 3];
    assert s[1..] == [2, 3] && [2, 3][1..] == [3] && [3][1..] == [];
    assert Customs(LOOPED, [3]) == [3];
    assert Customs(LOOPED, [2, 3]) == [2, 3];
  }

  lemma LoopedDrawn()
    ensures WellFormed(LOOPED) && DrawnOrder(LOOPED, [1, 2, 3]) == [1, 2, 3]
  {
    LoopedParents();
    LoopedOrder(1, 2, 3);
    LoopDrawing([1, 2, 3]);
    LoopFlat();
    ThreeCustoms();
    hide WellFormed, HasId, IsCustom, Order, ParentsOf, Forest, Flat, Customs, Known;
    assert Roots(LOOPED, [1, 2, 3]) == [] + [ONE] == [ONE];
  }

  lemma LoopChain()
    ensures IsAncestor(LOOP, 1, 1) && !ReachesTop(LOOP, 1)
    ensures forall c | IsAncestor(LOOP, c, 1) :: c == 1 || c == 2
  {
    assert Ancestor(LOOP, 1, 0) == Some(1) && Ancestor(LOOP, 1, 1) == Some(2) && Ancestor(LOOP, 1, 2) == Some(1);
    forall n: nat ensures Ancestor(LOOP, 1, n) == Some(1) || Ancestor(LOOP, 1, n) == Some(2) {
      LoopGoesRound(n);
    }
  }

  lemma {:induction false} LoopGoesRound(n: nat)
    ensures Ancestor(LOOP, 1, n) == Some(1) || Ancestor(LOOP, 1, n) == Some(2)
  {
    if n > 0 { LoopGoesRound(n - 1); }
  }

  /**
   * Having the same parent is not enough. Folder 1 cuts the cycle 1-2-1 and is drawn at the top, folder 3 is drawn
   * inside 2; dropping 3 after 1 tears them apart, and the redraw is the same forest.
   */
  lemma SameParentIsNotEnough()
    ensures WellFormed(LOOPED) && IsCustom(LOOPED, 1) && IsCustom(LOOPED, 3)
    ensures 1 in ParentsOf(LOOPED) && 3 in ParentsOf(LOOPED) && ParentsOf(LOOPED)[1] == ParentsOf(LOOPED)[3]
    ensures ForestOf(LOOPED, DroppedOrder(LOOPED, [1, 2, 3], 3, 1, true)) == ForestOf(LOOPED, [1, 2, 3])
    ensures TornApart(ParentsOf(LOOPED), Order(LOOPED, DrawnOrder(LOOPED, [1, 2, 3])), 3, 1, true)
    ensures !DrawnNextTo(ForestOf(LOOPED, DroppedOrder(LOOPED, [1, 2, 3], 3, 1, true)), 3, 1, true)
  {
    hide Forest, ParentsOf, DrawnOrder, Order, MoveNext, ReachesTop, IsAncestor, DrawnNextTo, WellFormed, IsCustom,
        Known;
    LoopedParents();
    LoopedDrawn();
    LoopMove();
    LoopedOrder(1, 2, 3);
    LoopedOrder(1, 3, 2);
    LoopDrawing([1, 2, 3]);
    LoopDrawing([1, 3, 2]);
    LoopChain();
    DropIsBeside(LOOPED, [1, 2, 3], 3, 1, true);
    assert Before([1, 2, 3], 1, 2) by {
      var s: seq<Id> := [1, 2, 3];
      assert s[0] == 1 && s[1] == 2 && s[1..][0] == 2;
    }
  }

  const TWO: Tree := Tree(2, [Tree(3, [])])
  const ONE: Tree := Tree(1, [TWO])

  lemma LoopMove()
    ensures MoveNext([1, 2, 3], 3, 1, true) == [1, 3, 2]
  {
    var s: seq<Id> := [1, 2, 3];
    assert s[1..] == [2, 3] && s[2..] == [3] && s[3..] == [];
    assert s[1..][1..] == s[2..] && s[2..][1..] == s[3..];
    assert Outside(s[2..], {3}) == [];
    assert Outside(s[1..], {3}) == [2];
    assert Without(s, 3) == [1, 2];
  }

  lemma LoopDrawing(L: seq<Id>)
    requires L == [1, 2, 3] || L == [1, 3, 2]
    ensures Known(LOOP, L) && Forest(LOOP, L) == Drawing([], [ONE])
  {
    var D := Drawing([], [ONE]);
    assert D.tops + D.extras == [ONE];
    LoopShape(L);
    LoopBreaks(L);
    LoopTops(L);
    LoopMembers(L);
    hide Edges, Sorted, Breaks, Kids, Forest, Flat, First, Known, Distinct;
    assert Ids(D.tops) == [];
    DrawingIsForest(LOOP, L, D);
  }

  lemma LoopMembers(L: seq<Id>)
    requires L == [1, 2, 3] || L == [1, 3, 2]
    ensures var all: seq<Id> := [1, 2, 3]; Distinct(all) && forall x :: x in all <==> x in L
  {
    assert L[0] == 1 && (L[1] == 2 || L[1] == 3) && (L[2] == 2 || L[2] == 3);
  }

  lemma LoopFlat()
    ensures Flat([ONE]) == [1, 2, 3]
  {
    var three := Tree(3, []);
    assert [ONE][1..] == [] && [TWO][1..] == [] && [three][1..] == [];
    assert Flat([three]) == [3];
    assert Flat([TWO]) == [2, 3];
  }

  lemma LoopShape(L: seq<Id>)
    requires L == [1, 2, 3] || L == [1, 3, 2]
    ensures Edges(LOOP, [ONE]) && Sorted(L, [ONE])
  {
    var three := Tree(3, []);
    assert [ONE][1..] == [] && [TWO][1..] == [] && [three][1..] == [];
    assert L[0] == 1 && L[1] in L && L[2] in L;
    assert Edges(LOOP, [three]) && Edges(LOOP, [TWO]);
    assert Sorted(L, [three]) && Sorted(L, [TWO]);
  }

  lemma LoopBreaks(L: seq<Id>)
    requires L == [1, 2, 3] || L == [1, 3, 2]
    ensures Breaks(LOOP, L, [ONE]) && Flat([ONE]) == [1, 2, 3]
  {
    LoopFlat();
    assert [ONE][0..] == [ONE];
    assert L[0] == 1 && L[1] in L && L[2] in L;
    assert First(L, 1, [1, 2, 3]);
    hide Flat, First;
    var all: seq<Id> := [1, 2, 3];
    assert all[1] in all;
  }

  lemma LoopTops(L: seq<Id>)
    requires L == [1, 2, 3] || L == [1, 3, 2]
    ensures Known(LOOP, L) && Kids(LOOP, L, None) == []
  {
    assert forall x | x in L :: LOOP[x] != None;
    if |Kids(LOOP, L, None)| > 0 {
      HasMember(Kids(LOOP, L, None));
    }
  }
}
