/** Lists without repetition, the order a list induces, and sorting by a total order. */
module FolderOrder {

  type Id = int

  predicate Distinct(s: seq<Id>) {
    forall i, j | 0 <= i < j < |s| :: s[i] != s[j]
  }

  /** Where x first stands in s. */
  function Pos(s: seq<Id>, x: Id): (p: nat)
    requires x in s
    ensures p < |s| && s[p] == x
  {
    if s[0] == x then 0 else 1 + Pos(s[1..], x)
  }

  lemma {:induction false} PosAt(s: seq<Id>, i: nat)
    requires Distinct(s) && i < |s|
    ensures Pos(s, s[i]) == i
  {
    if i > 0 {
      PosAt(s[1..], i - 1);
    }
  }

  lemma DistinctConcat(a: seq<Id>, b: seq<Id>)
    ensures Distinct(a + b) <==> Distinct(a) && Distinct(b) && forall x | x in a :: x !in b
  {
    var all := a + b;
    if Distinct(all) {
      forall i, j | 0 <= i < j < |a| ensures a[i] != a[j] { assert all[i] != all[j]; }
      forall i, j | 0 <= i < j < |b| ensures b[i] != b[j] { assert all[|a| + i] != all[|a| + j]; }
      forall x | x in a ensures x !in b {
        var i :| 0 <= i < |a| && a[i] == x;
        forall j | 0 <= j < |b| ensures b[j] != x { assert all[i] != all[|a| + j]; }
      }
    }
    if Distinct(a) && Distinct(b) && forall x | x in a :: x !in b {
      forall i, j | 0 <= i < j < |all| ensures all[i] != all[j] {
        if i < |a| <= j {
          var x, y := a[i], b[j - |a|];
          assert x in a && y in b;
        }
      }
    }
  }

  /** x stands before y in s. */
  predicate Before(s: seq<Id>, x: Id, y: Id) {
    x in s && y in s && Pos(s, x) < Pos(s, y)
  }

  lemma BeforeTotal(s: seq<Id>, x: Id, y: Id)
    requires x in s && y in s && x != y
    ensures Before(s, x, y) <==> !Before(s, y, x)
  {
    assert s[Pos(s, x)] == x && s[Pos(s, y)] == y;
  }

  /** s follows the order of l. */
  predicate Follows(l: seq<Id>, s: seq<Id>) {
    (forall x | x in s :: x in l) && forall i, j | 0 <= i < j < |s| :: Before(l, s[i], s[j])
  }

  lemma FollowsSelf(l: seq<Id>)
    requires Distinct(l)
    ensures Follows(l, l)
  {
    forall i, j | 0 <= i < j < |l| ensures Before(l, l[i], l[j]) {
      PosAt(l, i);
      PosAt(l, j);
    }
  }

  lemma FollowsTail(l: seq<Id>, s: seq<Id>)
    requires Follows(l, s) && |s| > 0
    ensures Follows(l, s[1..]) && s[0] !in s[1..]
  {
    var t := s[1..];
    forall i, j | 0 <= i < j < |t| ensures Before(l, t[i], t[j]) {
      assert Before(l, s[i + 1], s[j + 1]);
    }
    forall j | 0 <= j < |t| ensures t[j] != s[0] {
      assert Before(l, s[0], s[j + 1]);
    }
  }

  lemma FollowsCons(l: seq<Id>, x: Id, s: seq<Id>)
    requires x in l && Follows(l, s)
    requires forall y | y in s :: Before(l, x, y)
    ensures Follows(l, [x] + s)
  {}

  lemma HasMember(s: seq<Id>)
    requires |s| > 0
    ensures exists x :: x in s
  {
    var x := s[0];
    assert x in s;
  }

  /** A set of ids can follow an order in one way only. */
  lemma {:induction false} FollowsUnique(l: seq<Id>, a: seq<Id>, b: seq<Id>)
    requires Follows(l, a) && Follows(l, b)
    requires forall x :: x in a <==> x in b
    ensures a == b
  {
    if |a| == 0 {
      if |b| > 0 {
        HasMember(b);
      }
    } else {
      var x := a[0];
      assert x in a;
      var y := b[0];
      assert y in b;
      if a[0] != b[0] {
        FirstBefore(l, a, b[0]);
        FirstBefore(l, b, a[0]);
      }
      FollowsTail(l, a);
      FollowsTail(l, b);
      forall x ensures x in a[1..] <==> x in b[1..] {
        if x in a[1..] { assert x in a; assert x in b; }
        if x in b[1..] { assert x in b; assert x in a; }
      }
      FollowsUnique(l, a[1..], b[1..]);
    }
  }

  lemma FirstBefore(l: seq<Id>, s: seq<Id>, x: Id)
    requires Follows(l, s) && x in s && x != s[0]
    ensures Before(l, s[0], x)
  {
    var i :| 0 <= i < |s| && s[i] == x;
  }

  lemma FollowsDistinct(l: seq<Id>, s: seq<Id>)
    requires Follows(l, s)
    ensures Distinct(s)
  {
    forall i, j | 0 <= i < j < |s| ensures s[i] != s[j] {
      assert Before(l, s[i], s[j]);
    }
  }

  /** The elements of s that are not in a. */
  function Outside(s: seq<Id>, a: set<Id>): (r: seq<Id>)
    ensures forall x :: x in r <==> x in s && x !in a
  {
    if |s| == 0 then []
    else if s[0] in a then Outside(s[1..], a)
    else [s[0]] + Outside(s[1..], a)
  }

  lemma {:induction false} OutsideFollows(l: seq<Id>, s: seq<Id>, a: set<Id>)
    requires Follows(l, s)
    ensures Follows(l, Outside(s, a))
  {
    if |s| > 0 {
      FollowsTail(l, s);
      OutsideFollows(l, s[1..], a);
      if s[0] !in a {
        forall y | y in Outside(s[1..], a) ensures Before(l, s[0], y) {
          assert y in s && y != s[0];
          FirstBefore(l, s, y);
        }
        FollowsCons(l, s[0], Outside(s[1..], a));
      }
    }
  }

  // -- Moving one element next to another ----------------------------------------

  function Without(s: seq<Id>, x: Id): (r: seq<Id>)
    ensures forall y :: y in r <==> y in s && y != x
  {
    Outside(s, {x})
  }

  /** Insert x directly before or directly after target. */
  function PutNext(s: seq<Id>, x: Id, target: Id, after: bool): (r: seq<Id>)
    requires target in s
    ensures forall y :: y in r <==> y in s || y == x
  {
    var at := Pos(s, target) + if after then 1 else 0;
    s[..at] + [x] + s[at..]
  }

  /** Take x out and put it directly before or after target. */
  function MoveNext(s: seq<Id>, x: Id, target: Id, after: bool): (r: seq<Id>)
    requires target in s && x in s && x != target
    ensures forall y :: y in r <==> y in s
  {
    PutNext(Without(s, x), x, target, after)
  }
}
