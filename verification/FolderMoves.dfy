/** The guard on moving a folder: never into itself or below itself, and the parent relation stays free of cycles. */
module FolderMoves {
  import opened Wrappers
  import opened FolderOrder
  import opened FolderTree

  datatype Zone = OnRow | BeforeRow | AfterRow

  predicate PositiveIds(F: seq<Folder>) {
    forall f | f in F :: f.id > 0
  }

  /** The first row with that id. */
  function Find(F: seq<Folder>, id: Id): (r: Option<Folder>)
    ensures r.Some? ==> r.value in F && r.value.id == id
    ensures r.None? ==> forall f | f in F :: f.id != id
  {
    if |F| == 0 then None
    else
      assert F == [F[0]] + F[1..];
      if F[0].id == id then Some(F[0]) else Find(F[1..], id)
  }

  /** The parent field of a row, 0 when there is no row or no number in it. */
  function Up(F: seq<Folder>, id: Id): Id {
    var row := Find(F, id);
    if row.Some? && row.value.parent.Some? then row.value.parent.value else 0
  }

  /** n steps up from id. */
  function UpTimes(F: seq<Folder>, id: Id, n: nat): Id {
    if n == 0 then id else Up(F, UpTimes(F, id, n - 1))
  }

  ghost predicate OnChain(F: seq<Folder>, id: Id, start: Id) {
    exists n: nat :: UpTimes(F, start, n) == id
  }

  lemma {:induction false} UpShift(F: seq<Folder>, x: Id, n: nat)
    ensures UpTimes(F, x, n + 1) == UpTimes(F, Up(F, x), n)
  {
    if n > 0 {
      UpShift(F, x, n - 1);
    }
  }

  lemma UpFromZero(F: seq<Folder>)
    requires PositiveIds(F)
    ensures Up(F, 0) == 0
  {}

  /** A set that every step up stays in holds the whole chain. */
  lemma {:induction false} ChainStays(F: seq<Folder>, s: set<Id>, x: Id, n: nat)
    requires x in s && forall y | y in s :: Up(F, y) in s
    ensures UpTimes(F, x, n) in s
  {
    if n > 0 {
      ChainStays(F, s, x, n - 1);
    }
  }

  ghost function Reachable(F: seq<Folder>, start: Id): set<Id> {
    {start, 0} + set f | f in F && f.parent.Some? :: f.parent.value
  }

  /** Whether candidate is id or lies below it: true exactly when id is on the candidate's parent chain. */
  method IsSelfOrDescendant(F: seq<Folder>, id: Id, candidate: Id) returns (r: bool)
    requires PositiveIds(F) && id != 0
    ensures r <==> OnChain(F, id, candidate)
  {
    if id == candidate {
      assert UpTimes(F, candidate, 0) == id;
      return true;
    }
    var cursor := candidate;
    var seen: set<Id> := {};
    ghost var steps := 0;
    while cursor != 0 && cursor !in seen
      invariant cursor == UpTimes(F, candidate, steps) && cursor in Reachable(F, candidate)
      invariant seen <= Reachable(F, candidate) && id !in seen && 0 !in seen
      invariant candidate in seen || cursor == candidate
      invariant forall y | y in seen :: Up(F, y) in seen || Up(F, y) == cursor
      decreases Reachable(F, candidate) - seen
    {
      seen := seen + {cursor};
      if cursor == id {
        return true;
      }
      cursor := Up(F, cursor);
      steps := steps + 1;
    }
    ghost var closed := seen + {0} + {cursor};
    UpFromZero(F);
    if OnChain(F, id, candidate) {
      var n: nat :| UpTimes(F, candidate, n) == id;
      ChainStays(F, closed, candidate, n);
    }
    return false;
  }

  // -- What a move does to the parent relation ------------------------------------------

  /** Every chain ends. */
  ghost predicate Acyclic(F: seq<Folder>) {
    forall x :: EndsFrom(F, x)
  }

  ghost predicate EndsFrom(F: seq<Folder>, x: Id) {
    exists n: nat :: UpTimes(F, x, n) == 0
  }

  /** The rows after the server moved one folder under a new parent. */
  function Reparented(F: seq<Folder>, id: Id, parent: Option<Id>): seq<Folder> {
    if |F| == 0 then []
    else [if F[0].id == id then F[0].(parent := parent) else F[0]] + Reparented(F[1..], id, parent)
  }

  lemma {:induction false} UpAfter(F: seq<Folder>, id: Id, parent: Option<Id>, x: Id)
    ensures x != id ==> Up(Reparented(F, id, parent), x) == Up(F, x)
    ensures Find(F, id).Some? ==> Up(Reparented(F, id, parent), id) == if parent.Some? then parent.value else 0
  {
    if |F| > 0 {
      var G := Reparented(F, id, parent);
      assert G[1..] == Reparented(F[1..], id, parent);
      UpAfter(F[1..], id, parent, x);
    }
  }

  /** A chain that avoids the moved folder is the same after the move. */
  lemma {:induction false} ChainAfter(F: seq<Folder>, id: Id, parent: Option<Id>, x: Id, n: nat)
    requires forall k: nat | k < n :: UpTimes(F, x, k) != id
    ensures UpTimes(Reparented(F, id, parent), x, n) == UpTimes(F, x, n)
  {
    hide Up, Reparented;
    if n > 0 {
      ChainAfter(F, id, parent, x, n - 1);
      UpAfter(F, id, parent, UpTimes(F, x, n - 1));
    }
  }

  /** Once the new parent's chain ends, every chain that used to end still does. */
  lemma {:induction false} EndsAfter(F: seq<Folder>, id: Id, parent: Option<Id>, x: Id, n: nat)
    requires PositiveIds(F) && Find(F, id).Some?
    requires UpTimes(F, x, n) == 0
    requires parent.Some? ==> EndsFrom(Reparented(F, id, parent), parent.value)
    ensures EndsFrom(Reparented(F, id, parent), x)
    decreases n
  {
    assert x != 0 ==> n > 0;
    hide Up, Reparented;
    var G := Reparented(F, id, parent);
    if x == 0 {
      assert UpTimes(G, x, 0) == 0;
    } else {
      UpAfter(F, id, parent, x);
      if x == id {
        if parent.Some? {
          var m: nat :| UpTimes(G, parent.value, m) == 0;
          UpShift(G, x, m);
          assert UpTimes(G, x, m + 1) == 0;
        } else {
          UpShift(G, x, 0);
          assert UpTimes(G, x, 1) == 0;
        }
      } else {
        UpShift(F, x, n - 1);
        EndsAfter(F, id, parent, Up(F, x), n - 1);
        var m: nat :| UpTimes(G, Up(F, x), m) == 0;
        UpShift(G, x, m);
        assert UpTimes(G, x, m + 1) == 0;
      }
    }
  }

  /** The first place where a chain meets id. */
  lemma FirstMeeting(F: seq<Folder>, id: Id, start: Id) returns (n: nat)
    requires OnChain(F, id, start)
    ensures UpTimes(F, start, n) == id && forall k: nat | k < n :: UpTimes(F, start, k) != id
  {
    var m: nat :| UpTimes(F, start, m) == id;
    n := 0;
    while UpTimes(F, start, n) != id
      invariant n <= m && forall k: nat | k < n :: UpTimes(F, start, k) != id
      decreases m - n
    {
      n := n + 1;
    }
  }

  /** Moving a folder below itself: from the new parent the chain comes back for ever. */
  lemma {:induction false} TurnsBack(F: seq<Folder>, id: Id, start: Id, n: nat, k: nat) returns (j: nat)
    requires Find(F, id).Some? && UpTimes(F, start, n) == id && forall i: nat | i < n :: UpTimes(F, start, i) != id
    ensures j <= n && UpTimes(Reparented(F, id, Some(start)), start, k) == UpTimes(F, start, j)
  {
    hide Up, Reparented, Find;
    if k == 0 {
      j := 0;
    } else {
      var i := TurnsBack(F, id, start, n, k - 1);
      UpAfter(F, id, Some(start), UpTimes(F, start, i));
      if i == n {
        j := 0;
      } else {
        j := i + 1;
      }
    }
  }

  lemma {:induction false} ZeroStays(F: seq<Folder>, x: Id, n: nat, m: nat)
    requires PositiveIds(F) && UpTimes(F, x, n) == 0 && n <= m
    ensures UpTimes(F, x, m) == 0
    decreases m
  {
    UpFromZero(F);
    hide Up;
    if n < m {
      ZeroStays(F, x, n, m - 1);
    }
  }

  /** The guard is exact: on acyclic parents a move keeps them acyclic if and only if the guard lets it through. */
  lemma MoveKeepsAcyclic(F: seq<Folder>, id: Id, parent: Id)
    requires PositiveIds(F) && Acyclic(F) && Find(F, id).Some?
    ensures Acyclic(Reparented(F, id, Some(parent))) <==> !OnChain(F, id, parent)
  {
    hide Up, Reparented, Find;
    var G := Reparented(F, id, Some(parent));
    if !OnChain(F, id, parent) {
      assert EndsFrom(F, parent);
      var m: nat :| UpTimes(F, parent, m) == 0;
      ChainAfter(F, id, Some(parent), parent, m);
      forall x ensures EndsFrom(G, x) {
        assert EndsFrom(F, x);
        var n: nat :| UpTimes(F, x, n) == 0;
        EndsAfter(F, id, Some(parent), x, n);
      }
    } else {
      var n := FirstMeeting(F, id, parent);
      if EndsFrom(G, parent) {
        var k: nat :| UpTimes(G, parent, k) == 0;
        var j := TurnsBack(F, id, parent, n, k);
        ZeroStays(F, parent, j, n);
        FoundIsPositive(F, id);
      }
    }
  }

  lemma FoundIsPositive(F: seq<Folder>, id: Id)
    requires PositiveIds(F) && Find(F, id).Some?
    ensures id > 0
  {}

  /** Moving to the top level never makes a cycle. */
  lemma MoveToTopKeepsAcyclic(F: seq<Folder>, id: Id)
    requires PositiveIds(F) && Acyclic(F) && Find(F, id).Some?
    ensures Acyclic(Reparented(F, id, None))
  {
    hide Up, Reparented, Find;
    forall x ensures EndsFrom(Reparented(F, id, None), x) {
      assert EndsFrom(F, x);
      var n: nat :| UpTimes(F, x, n) == 0;
      EndsAfter(F, id, None, x, n);
    }
  }

  // -- Dropping on a row --------------------------------------------------------------------

  /** The parent the server sent; anything but a positive id is absence. */
  function ParentOfFolder(F: seq<Folder>, id: Id): Option<Id> {
    var found := Find(F, id);
    if found.None? || found.value.parent.None? then None
    else if found.value.parent.value > 0 then Some(found.value.parent.value) else None
  }

  /** The rows after a drop: inside moves under the target, an edge moves under the target's parent when it differs. */
  function Dropped(F: seq<Folder>, dragged: Id, target: Id, zone: Zone): seq<Folder> {
    if zone.OnRow? then Reparented(F, dragged, Some(target))
    else if ParentOfFolder(F, dragged) != ParentOfFolder(F, target) then
      Reparented(F, dragged, ParentOfFolder(F, target))
    else F
  }

  /** Any drop the guard lets through, inside a row or at its edge, keeps acyclic parents acyclic. */
  lemma DropKeepsAcyclic(F: seq<Folder>, dragged: Id, target: Id, zone: Zone)
    requires PositiveIds(F) && Acyclic(F) && Find(F, dragged).Some? && !OnChain(F, dragged, target)
    ensures Acyclic(Dropped(F, dragged, target, zone))
  {
    hide Reparented, Acyclic;
    if zone.OnRow? {
      MoveKeepsAcyclic(F, dragged, target);
    } else if ParentOfFolder(F, dragged) != ParentOfFolder(F, target) {
      var p := ParentOfFolder(F, target);
      if p.Some? {
        if OnChain(F, dragged, p.value) {
          var n: nat :| UpTimes(F, p.value, n) == dragged;
          UpShift(F, target, n);
          assert UpTimes(F, target, n + 1) == dragged;
        }
        MoveKeepsAcyclic(F, dragged, p.value);
      } else {
        MoveToTopKeepsAcyclic(F, dragged);
      }
    }
  }
}

