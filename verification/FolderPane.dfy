/** The loops and the recursive closure that build the forest, flatten it and store a dragged order. */
module FolderPane {
  import opened Wrappers
  import opened FolderOrder
  import opened FolderForest
  import opened FolderTree
  import FolderShown

  /** Building a list in two parts is building the first, then the second with what the first attached. */
  lemma {:induction false} BuildConcat(P: Parents, L: seq<Id>, a: seq<Id>, b: seq<Id>, attached: set<Id>)
    requires Known(P, L) && attached <= Elems(L) && (forall x | x in a :: x in L) && (forall x | x in b :: x in L)
    ensures var r := Build(P, L, a, attached); var s := Build(P, L, b, r.attached);
      Build(P, L, a + b, attached) == Built(r.trees + s.trees, s.attached)
    decreases Elems(L) - attached, |a|
  {
    hide Known, Kids;
    if |a| == 0 {
      assert a + b == b;
    } else {
      var x := a[0];
      assert x in a;
      assert (a + b)[1..] == a[1..] + b;
      if x in attached {
        BuildConcat(P, L, a[1..], b, attached);
      } else {
        KidsListed(P, L, Some(x));
        var kids := Build(P, L, Kids(P, L, Some(x)), attached + {x});
        BuildConcat(P, L, a[1..], b, kids.attached);
        var r := Build(P, L, a, attached);
        var rest := Build(P, L, a[1..], kids.attached);
        var s := Build(P, L, b, r.attached);
        assert r.trees + s.trees == [Tree(x, kids.trees)] + (rest.trees + s.trees);
      }
    }
  }

  /** The part of s with parent p, for one folder. */
  function Only(P: Parents, x: Id, p: Option<Id>): seq<Id>
    requires x in P
  {
    if P[x] == p then [x] else []
  }

  lemma KidsFirst(P: Parents, x: Id, s: seq<Id>, p: Option<Id>)
    requires x in P && forall y | y in s :: y in P
    ensures (forall y | y in [x] + s :: y in P) && Kids(P, [x] + s, p) == Only(P, x, p) + Kids(P, s, p)
  {
    assert ([x] + s)[1..] == s;
  }

  lemma KidsNone(P: Parents, p: Option<Id>)
    ensures Kids(P, [], p) == []
  {
  }

  lemma {:induction false} KidsAppend(P: Parents, a: seq<Id>, x: Id, p: Option<Id>)
    requires (forall y | y in a :: y in P) && x in P
    ensures forall y | y in a + [x] :: y in P
    ensures Kids(P, a + [x], p) == Kids(P, a, p) + Only(P, x, p)
  {
    hide Kids, Only;
    if |a| == 0 {
      KidsNone(P, p);
      KidsFirst(P, x, [], p);
      assert a + [x] == [x] + [];
    } else {
      var y, rest := a[0], a[1..];
      assert y in a;
      KidsAppend(P, rest, x, p);
      KidsFirst(P, y, rest, p);
      KidsFirst(P, y, rest + [x], p);
      assert a == [y] + rest && a + [x] == [y] + (rest + [x]);
    }
  }

  function ListIn(children: map<Option<Id>, seq<Id>>, p: Option<Id>): seq<Id> {
    if p in children then children[p] else []
  }

  lemma OneMoreChild(P: Parents, sorted: seq<Id>, i: nat, p: Option<Id>)
    requires i < |sorted| && forall x | x in sorted :: x in P
    ensures Kids(P, sorted[..i + 1], p) == Kids(P, sorted[..i], p) + Only(P, sorted[i], p)
  {
    assert sorted[..i + 1] == sorted[..i] + [sorted[i]];
    KidsAppend(P, sorted[..i], sorted[i], p);
  }

  /** The children lists, filled in sibling order. */
  method FillChildren(P: Parents, sorted: seq<Id>) returns (children: map<Option<Id>, seq<Id>>)
    requires forall x | x in sorted :: x in P
    ensures forall p :: ListIn(children, p) == Kids(P, sorted, p)
  {
    children := map[];
    assert sorted[..0] == [];
    for i := 0 to |sorted|
      invariant forall p :: ListIn(children, p) == Kids(P, sorted[..i], p)
    {
      hide Kids;
      var x := sorted[i];
      var parentId := P[x];
      ghost var before := children;
      if parentId !in children {
        children := children[parentId := []];
      }
      children := children[parentId := children[parentId] + [x]];
      forall p ensures ListIn(children, p) == Kids(P, sorted[..i + 1], p) {
        OneMoreChild(P, sorted, i, p);
        assert ListIn(before, p) == Kids(P, sorted[..i], p);
      }
    }
    assert sorted[..|sorted|] == sorted;
  }

  /** What the recursive closure captures: the children lists, and the one set of attached folders. */
  class Forester {
    ghost const parents: Parents
    ghost const listed: seq<Id>
    var children: map<Option<Id>, seq<Id>>
    var attached: set<Id>

    ghost predicate Valid()
      reads this
    {
      && Known(parents, listed) && attached <= Elems(listed)
      && forall p :: ListIn(children, p) == Kids(parents, listed, p)
    }

    constructor (P: Parents, sorted: seq<Id>)
      requires Known(P, sorted)
      ensures Valid() && parents == P && listed == sorted && attached == {}
    {
      parents := P;
      listed := sorted;
      attached := {};
      var lists := FillChildren(P, sorted);
      children := lists;
    }

    /** Attach one folder of a list unless it is attached, then the next: what both passes do. */
    method Attach(pending: seq<Id>) returns (out: seq<Tree>)
      requires Valid() && forall x | x in pending :: x in listed
      modifies this`attached
      ensures Valid()
      ensures Built(out, attached) == FolderForest.Build(parents, listed, pending, old(attached))
      decreases Elems(listed) - attached, 1, |pending|
    {
      hide Known, Kids, FolderForest.Build;
      out := [];
      ghost var before := attached;
      assert pending[..0] == [];
      BuildNothing(parents, listed, before);
      for i := 0 to |pending|
        invariant Valid() && before <= attached
        invariant Built(out, attached) == FolderForest.Build(parents, listed, pending[..i], before)
      {
        var x := pending[i];
        assert x in pending;
        assert pending[..i + 1] == pending[..i] + [x];
        assert forall y | y in pending[..i] :: y in pending;
        BuildConcat(parents, listed, pending[..i], [x], before);
        BuildOne(parents, listed, x, attached);
        if x !in attached {
          attached := attached + {x};
          var kids := Build(Some(x));
          out := out + [Tree(x, kids)];
        } else {
          assert out + [] == out;
        }
      }
      assert pending[..|pending|] == pending;
    }

    method Build(parentId: Option<Id>) returns (out: seq<Tree>)
      requires Valid()
      modifies this`attached
      ensures Valid()
      ensures Built(out, attached)
           == FolderForest.Build(parents, listed, Kids(parents, listed, parentId), old(attached))
      decreases Elems(listed) - attached, 2
    {
      hide Known, FolderForest.Build;
      KidsListed(parents, listed, parentId);
      out := Attach(ListIn(children, parentId));
    }
  }

  lemma BuildNothing(P: Parents, L: seq<Id>, attached: set<Id>)
    requires Known(P, L) && attached <= Elems(L)
    ensures FolderForest.Build(P, L, [], attached) == Built([], attached)
  {}

  lemma BuildOne(P: Parents, L: seq<Id>, x: Id, attached: set<Id>)
    requires Known(P, L) && attached <= Elems(L) && x in L
    ensures x in attached ==> FolderForest.Build(P, L, [x], attached) == Built([], attached)
    ensures x !in attached ==>
      var kids := FolderForest.Build(P, L, Kids(P, L, Some(x)), attached + {x});
      FolderForest.Build(P, L, [x], attached) == Built([Tree(x, kids.trees)], kids.attached)
  {
    hide Kids;
    KidsListed(P, L, Some(x));
    if x in attached {
      BuildNothing(P, L, attached);
    } else {
      BuildNothing(P, L, FolderForest.Build(P, L, Kids(P, L, Some(x)), attached + {x}).attached);
      assert [x][1..] == [];
    }
  }

  /** Build the pane's forest. */
  method BuildForest(F: seq<Folder>, order: seq<Id>) returns (roots: seq<Tree>)
    requires WellFormed(F)
    ensures roots == Roots(F, order)
    ensures FolderShown.Arranged(F, order, roots)
  {
    FolderShown.ForestArranged(F, order);
    hide FolderShown.Arranged;
    var parentOf: Parents := map[];
    for i := 0 to |F|
      invariant parentOf == Table(F, i)
    {
      parentOf := parentOf[F[i].id := ParentOf(F, F[i])];
    }
    KnownForest(F, order);
    var sorted := Order(F, order);
    hide Order, Table, Build, WellFormed, Known;
    var forester := new Forester(parentOf, sorted);
    roots := forester.Build(None);
    var extras := forester.Attach(sorted);
    roots := roots + extras;
  }

  lemma {:induction false} CustomsConcat(F: seq<Folder>, a: seq<Id>, b: seq<Id>)
    ensures Customs(F, a + b) == Customs(F, a) + Customs(F, b)
  {
    hide IsCustom;
    if |a| == 0 {
      assert a + b == b;
    } else {
      assert (a + b)[1..] == a[1..] + b;
      CustomsConcat(F, a[1..], b);
    }
  }

  /** Lists what is drawn from the top down, special folders left out. */
  method FlattenCustomFolders(F: seq<Folder>, nodes: seq<Tree>) returns (out: seq<Id>)
    ensures out == Customs(F, Flat(nodes))
    ensures forall x :: x in out <==> x in Flat(nodes) && exists f | f in F :: f.id == x && !f.special
    decreases nodes
  {
    CustomsAre(F, Flat(nodes));
    hide IsCustom, Customs, Flat;
    out := [];
    assert nodes[..0] == [];
    NothingFlat(F);
    for i := 0 to |nodes|
      invariant out == Customs(F, Flat(nodes[..i]))
    {
      var node := nodes[i];
      FlattenStep(F, nodes, i);
      var kids := FlattenCustomFolders(F, node.children);
      if IsCustom(F, node.id) {
        out := out + [node.id];
      }
      out := out + kids;
    }
    assert nodes[..|nodes|] == nodes;
  }

  lemma CustomsAre(F: seq<Folder>, s: seq<Id>)
    ensures forall x :: x in Customs(F, s) <==> x in s && exists f | f in F :: f.id == x && !f.special
  {
    hide Customs;
  }

  lemma NothingFlat(F: seq<Folder>)
    ensures Customs(F, Flat([])) == []
  {}

  lemma FlattenStep(F: seq<Folder>, nodes: seq<Tree>, i: nat)
    requires i < |nodes|
    ensures Customs(F, Flat(nodes[..i + 1]))
      == Customs(F, Flat(nodes[..i])) + (if IsCustom(F, nodes[i].id) then [nodes[i].id] else [])
         + Customs(F, Flat(nodes[i].children))
  {
    hide IsCustom, Customs, Flat;
    var node := nodes[i];
    assert nodes[..i + 1] == nodes[..i] + [node];
    FlatConcat(nodes[..i], [node]);
    OneTree(node);
    CustomsConcat(F, Flat(nodes[..i]), FlatTree(node));
    CustomsConcat(F, [node.id], Flat(node.children));
    OneCustom(F, node.id);
  }

  lemma OneTree(node: Tree)
    ensures Flat([node]) == FlatTree(node)
  {
    assert [node][1..] == [];
  }

  lemma OneCustom(F: seq<Folder>, x: Id)
    ensures Customs(F, [x]) == if IsCustom(F, x) then [x] else []
  {
    assert [x][1..] == [];
  }

  /** Where the reader's order of one mailbox is kept. */
  class OrderStore {
    var order: seq<Id>

    constructor (order: seq<Id>)
      ensures this.order == order
    {
      this.order := order;
    }

    /** Store the drawn order with the dragged folder next to its target; nothing when either is not a custom folder. */
    method ReorderFolder(F: seq<Folder>, dragged: Id, target: Id, after: bool)
      requires WellFormed(F) && dragged != target
      modifies this
      ensures order ==
        if IsCustom(F, dragged) && IsCustom(F, target) then DroppedOrder(F, old(order), dragged, target, after)
        else old(order)
      ensures (forall f | f in F && f.id == dragged :: f.special) ==> order == old(order)
      ensures (forall f | f in F && f.id == target :: f.special) ==> order == old(order)
    {
      DrawnOrderFacts(F, order);
      assert IsCustom(F, dragged) && IsCustom(F, target) ==>
          DroppedOrder(F, order, dragged, target, after) == MoveNext(DrawnOrder(F, order), dragged, target, after);
      hide Roots, IsCustom, WellFormed, MoveNext, DroppedOrder, Distinct, Follows, Pos;
      var roots := BuildForest(F, order);
      var current := FlattenCustomFolders(F, roots);
      if dragged !in current || target !in current {
        return;
      }
      order := Splice(current, dragged, target, after);
    }
  }

  method SpliceOut(flat: seq<Id>, dragged: Id) returns (current: seq<Id>)
    requires Distinct(flat) && dragged in flat
    ensures current == Without(flat, dragged)
  {
    RemoveAt(flat, dragged);
    hide Pos, Without, Distinct;
    var from := Pos(flat, dragged);
    current := flat[..from] + flat[from + 1..];
  }

  method SpliceIn(flat: seq<Id>, dragged: Id, target: Id, after: bool) returns (current: seq<Id>)
    requires target in flat
    ensures current == PutNext(flat, dragged, target, after)
  {
    hide Pos;
    var at := Pos(flat, target) + if after then 1 else 0;
    current := flat[..at] + [dragged] + flat[at..];
  }

  /** Take the dragged id out and put it back beside the target. */
  method Splice(flat: seq<Id>, dragged: Id, target: Id, after: bool) returns (current: seq<Id>)
    requires Distinct(flat) && dragged in flat && target in flat && dragged != target
    ensures current == MoveNext(flat, dragged, target, after)
  {
    hide Without, PutNext;
    current := SpliceOut(flat, dragged);
    current := SpliceIn(current, dragged, target, after);
  }

  lemma {:induction false} RemoveAt(s: seq<Id>, x: Id)
    requires Distinct(s) && x in s
    ensures s[..Pos(s, x)] + s[Pos(s, x) + 1..] == Without(s, x)
  {
    var t := s[1..];
    if s[0] == x {
      NothingRemoved(t, x);
    } else {
      RemoveAt(t, x);
      var i := Pos(t, x);
      assert s[..i + 1] + s[i + 2..] == [s[0]] + (t[..i] + t[i + 1..]);
    }
  }

  lemma {:induction false} NothingRemoved(s: seq<Id>, x: Id)
    requires x !in s
    ensures Without(s, x) == s
  {
    if |s| > 0 {
      var y := s[0];
      assert y in s;
      NothingRemoved(s[1..], x);
    }
  }
}
