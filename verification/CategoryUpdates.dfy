/**
 Partial updates of category rows: what the server does with one, when it accepts it, and why a set of
 updates to different rows has the same outcome in every order.
 */
module CategoryUpdates {
  import opened Prelude
  import opened CategoryForest
  import opened CategoryRows

  /** A field that is absent is left alone; a present parent may be None, the root. */
  datatype Update = Update(id: Id, displayOrder: Option<int>, parent: Option<Option<Id>>)

  function Patched(row: Row, u: Update): Row {
    row.(displayOrder := u.displayOrder.GetOr(row.displayOrder), parent := u.parent.GetOr(row.parent))
  }

  predicate ChangesParent(rows: Rows, u: Update)
    requires u.id < |rows|
  {
    u.parent.Some? && u.parent.value != rows[u.id].parent
  }

  /** The server's checks: the row exists, and a new parent exists and is neither the row nor below it. */
  ghost predicate Accepts(rows: Rows, u: Update)
    requires ParentsExist(rows)
  {
    u.id < |rows|
    && (ChangesParent(rows, u) && u.parent.value.Some? ==>
          var p := u.parent.value.value; p != u.id && p < |rows| && !Under(rows, Some(u.id), p))
  }

  /** The row exists, a parent named exists, and written whole the update leaves a forest. */
  ghost predicate KeepsForest(rows: Rows, u: Update) {
    u.id < |rows|
    && (u.parent.Some? ==> IsContainer(rows, u.parent.value))
    && Acyclic(rows[u.id := rows[u.id].(parent := u.parent.GetOr(rows[u.id].parent))])
  }

  /** The checks let through exactly the updates after which the rows are still a forest. */
  lemma AcceptsExactly(rows: Rows, u: Update)
    requires Acyclic(rows)
    ensures Accepts(rows, u) <==> KeepsForest(rows, u)
    ensures Accepts(rows, u) <==>
      u.id < |rows| && (u.parent.Some? ==> IsContainer(rows, u.parent.value))
      && Acyclic(rows[u.id := Patched(rows[u.id], u)])
  {
    if u.id < |rows| {
      var p := u.parent.GetOr(rows[u.id].parent);
      var moved, patched := SetParent(rows, u.id, p), rows[u.id := Patched(rows[u.id], u)];
      assert IsContainer(rows, rows[u.id].parent);
      if IsContainer(rows, p) {
        SameParentsSameForest(moved, patched);
        SameParentsSameForest(patched, moved);
        if ChangesParent(rows, u) {
          MoveKeepsForestExactly(rows, u.id, p);
        } else {
          assert moved == rows;
        }
      }
    }
  }

  lemma SameParentsSameForest(rows: Rows, after: Rows)
    requires |after| == |rows| && forall id :: 0 <= id < |rows| ==> after[id].parent == rows[id].parent
    ensures Acyclic(rows) ==> Acyclic(after)
  {
    if Acyclic(rows) {
      forall id | 0 <= id < |after|
        ensures IsContainer(after, after[id].parent)
      {
        assert IsContainer(rows, rows[id].parent);
      }
      forall t: nat | t < |rows|
        ensures Under(after, None, t)
      {
        SameParentsSameUnder(rows, after, None, t);
        assert Under(rows, None, t);
      }
    }
  }

  // ---- The server's search for descendants --------------------------------------

  /** Everything found so far starts at the category or lies below it, and nothing found has an unseen child. */
  ghost predicate SearchedSoFar(rows: Rows, start: Id, visited: set<Id>, queue: seq<Id>)
    requires ParentsExist(rows)
  {
    && (start in visited || start in queue)
    && (forall t :: t in visited || t in queue ==> t < |rows| && (t == start || Under(rows, Some(start), t)))
    && (forall t :: 0 <= t < |rows| && rows[t].parent.Some? && rows[t].parent.value in visited ==> t in visited || t in queue)
  }

  function ChildrenIn(rows: Rows, p: Id, n: nat): seq<Id>
    requires n <= |rows|
  {
    if n == 0 then [] else
    ChildrenIn(rows, p, n - 1) + if rows[n - 1].parent == Some(p) then [n - 1] else []
  }

  lemma {:induction false} ChildrenInAreTheChildren(rows: Rows, p: Id, n: nat)
    requires n <= |rows|
    ensures forall t: nat :: t in ChildrenIn(rows, p, n) <==> t < n && rows[t].parent == Some(p)
  {
    if n > 0 {
      ChildrenInAreTheChildren(rows, p, n - 1);
    }
  }

  lemma ChildLiesBelow(rows: Rows, start: Id, p: Id, t: Id)
    requires ParentsExist(rows) && start < |rows| && p < |rows| && t < |rows| && rows[t].parent == Some(p)
    requires p == start || Under(rows, Some(start), p)
    ensures Under(rows, Some(start), t)
  {
    assert Up(rows, t, 0) == Some(t) && Up(rows, t, 1) == Some(p);
    if p == start {
      assert StepsTo(rows, t, 1, Some(start));
    } else {
      var k: nat :| StepsTo(rows, p, k, Some(start));
      UpPlus(rows, t, 1, k);
      UpPlus(rows, t, 1, k - 1);
      assert StepsTo(rows, t, k + 1, Some(start));
    }
  }

  /** A set closed under children that holds the category holds everything below it. */
  lemma {:induction false} ClosedHoldsAllBelow(rows: Rows, start: Id, visited: set<Id>, t: Id, k: nat)
    requires ParentsExist(rows) && SearchedSoFar(rows, start, visited, []) && t < |rows| && Up(rows, t, k) == Some(start)
    ensures t in visited
    decreases k
  {
    if k > 0 {
      UpPlus(rows, t, 1, k - 1);
      assert Up(rows, t, 0) == Some(t);
      assert Up(rows, t, 1) == rows[t].parent;
      ClosedHoldsAllBelow(rows, start, visited, rows[t].parent.value, k - 1);
    }
  }

  lemma VisitOne(rows: Rows, start: Id, visited: set<Id>, queue: seq<Id>)
    requires ParentsExist(rows) && start < |rows| && queue != [] && SearchedSoFar(rows, start, visited, queue)
    ensures queue[0] in visited ==> SearchedSoFar(rows, start, visited, queue[1..])
    ensures SearchedSoFar(rows, start, visited + {queue[0]}, queue[1..] + ChildrenIn(rows, queue[0], |rows|))
  {
    var p := queue[0];
    ChildrenInAreTheChildren(rows, p, |rows|);
    assert p in queue;
    assert forall t :: t in queue <==> t == p || t in queue[1..];
    forall t | t in ChildrenIn(rows, p, |rows|)
      ensures t < |rows| && Under(rows, Some(start), t)
    {
      ChildLiesBelow(rows, start, p, t);
    }
  }

  lemma AllBelowFound(rows: Rows, start: Id, visited: set<Id>, t: Id)
    requires ParentsExist(rows) && SearchedSoFar(rows, start, visited, [])
    requires t < |rows| && (t == start || Under(rows, Some(start), t))
    ensures t in visited
  {
    if t != start {
      var k: nat :| StepsTo(rows, t, k, Some(start));
      ClosedHoldsAllBelow(rows, start, visited, t, k);
    }
  }

  function FirstIds(n: nat): (ids: set<Id>)
    ensures forall t: Id :: t in ids <==> t < n
  {
    if n == 0 then {} else FirstIds(n - 1) + {n - 1}
  }

  /** The breadth-first search finds the category and exactly what lies below it. */
  method FindDescendantIds(rows: Rows, start: Id) returns (visited: set<Id>)
    requires ParentsExist(rows) && start < |rows|
    ensures forall t: Id :: t in visited <==> t < |rows| && (t == start || Under(rows, Some(start), t))
  {
    visited := {};
    var queue := [start];
    ghost var unseen := FirstIds(|rows|);
    while queue != []
      invariant SearchedSoFar(rows, start, visited, queue)
      invariant forall t: Id :: t in unseen <==> t < |rows| && t !in visited
      decreases unseen, |queue|
    {
      var p := queue[0];
      VisitOne(rows, start, visited, queue);
      if p in visited {
        queue := queue[1..];
      } else {
        assert p in queue;
        visited, unseen := visited + {p}, unseen - {p};
        queue := queue[1..] + ChildrenIn(rows, p, |rows|);
      }
    }
    forall t: Id | t < |rows| && (t == start || Under(rows, Some(start), t))
      ensures t in visited
    {
      AllBelowFound(rows, start, visited, t);
    }
  }

  /** One update, as the service handles it: refused with nothing written, or written whole. */
  method UpdateCategory(rows: Rows, u: Update) returns (after: Option<Rows>)
    requires ParentsExist(rows)
    ensures after == if Accepts(rows, u) then Some(rows[u.id := Patched(rows[u.id], u)]) else None
    ensures Acyclic(rows) ==> (after.Some? <==> KeepsForest(rows, u)) && (after.Some? ==> Acyclic(after.value))
    ensures after.Some? ==>
      && |after.value| == |rows| && u.id < |rows|
      && after.value[u.id].name == rows[u.id].name
      && after.value[u.id].displayOrder
           == (if u.displayOrder.Some? then u.displayOrder.value else rows[u.id].displayOrder)
      && after.value[u.id].parent == (if u.parent.Some? then u.parent.value else rows[u.id].parent)
      && forall id :: 0 <= id < |rows| && id != u.id ==> after.value[id] == rows[id]
  {
    if Acyclic(rows) {
      AcceptsExactly(rows, u);
    }
    if u.id >= |rows| {
      return None;
    }
    var row := rows[u.id];
    if u.displayOrder.Some? && u.displayOrder.value != row.displayOrder {
      row := row.(displayOrder := u.displayOrder.value);
    }
    if u.parent.Some? && u.parent.value != row.parent {
      var p := u.parent.value;
      if p.Some? {
        if p.value == u.id || p.value >= |rows| {
          return None;
        }
        var found := FindDescendantIds(rows, u.id);
        if p.value in found {
          return None;
        }
      }
      row := row.(parent := p);
    }
    return Some(rows[u.id := row]);
  }

  // ---- Handling updates ------------------------------------------------------------

  /** None as soon as one update is refused. */
  ghost function Serve(rows: Rows, calls: seq<Update>): Option<Rows> {
    if calls == [] then Some(rows) else
    match Serve(rows, calls[..|calls| - 1])
    case None => None
    case Some(r) =>
      var u := calls[|calls| - 1];
      if ParentsExist(r) && Accepts(r, u) then Some(r[u.id := Patched(r[u.id], u)]) else None
  }

  ghost predicate DistinctRows(calls: seq<Update>) {
    forall i, j :: 0 <= i < j < |calls| ==> calls[i].id != calls[j].id
  }

  /** Every updated row is patched once, every other row is as it was. */
  ghost predicate Realises(rows: Rows, calls: seq<Update>, after: Rows) {
    |after| == |rows|
    && (forall u :: u in calls ==> u.id < |rows| && after[u.id] == Patched(rows[u.id], u))
    && (forall id :: 0 <= id < |rows| ==> (exists u :: u in calls && u.id == id) || after[id] == rows[id])
  }

  ghost predicate Reordering(a: seq<Update>, b: seq<Update>) {
    NoDuplicates(a) && NoDuplicates(b) && forall u :: u in a <==> u in b
  }

  lemma ReorderingKeepsRowsDistinct(a: seq<Update>, b: seq<Update>)
    requires Reordering(a, b) && DistinctRows(a)
    ensures DistinctRows(b)
  {
    forall i, j | 0 <= i < j < |b|
      ensures b[i].id != b[j].id
    {
      assert b[i] in a && b[j] in a;
      var k :| 0 <= k < |a| && a[k] == b[i];
      var l :| 0 <= l < |a| && a[l] == b[j];
      assert k < l || l < k;
    }
  }

  lemma RealisedRowsAreUnique(rows: Rows, calls: seq<Update>, a: Rows, b: Rows)
    requires Realises(rows, calls, a) && Realises(rows, calls, b)
    ensures a == b
  {
  }

  /** One update may move one row; that row's new place was checked against the rows as they were. */
  ghost predicate SafeCalls(rows: Rows, calls: seq<Update>, d: Id)
    requires ParentsExist(rows)
  {
    forall u :: u in calls ==> u.id < |rows| && (ChangesParent(rows, u) ==> u.id == d && Accepts(rows, u))
  }

  lemma {:induction false} SameParentsSameClimb(rows: Rows, after: Rows, t: Id, k: nat)
    requires ParentsExist(rows) && |after| == |rows| && t < |rows|
    requires forall id :: 0 <= id < |rows| ==> after[id].parent == rows[id].parent
    ensures ParentsExist(after) && Up(after, t, k) == Up(rows, t, k)
  {
    assert ParentsExist(after) by {
      assert forall id :: 0 <= id < |after| ==> IsContainer(rows, rows[id].parent);
    }
    if k > 0 {
      SameParentsSameClimb(rows, after, t, k - 1);
    }
  }

  lemma SameParentsSameUnder(rows: Rows, after: Rows, c: Option<Id>, t: Id)
    requires ParentsExist(rows) && |after| == |rows| && t < |rows|
    requires forall id :: 0 <= id < |rows| ==> after[id].parent == rows[id].parent
    ensures ParentsExist(after) && (Under(after, c, t) <==> Under(rows, c, t))
  {
    SameParentsSameClimb(rows, after, t, 0);
    forall k: nat
      ensures StepsTo(after, t, k, c) <==> StepsTo(rows, t, k, c)
    {
      SameParentsSameClimb(rows, after, t, k);
      if k > 0 {
        SameParentsSameClimb(rows, after, t, k - 1);
      }
    }
  }

  /** Before the moving update is served no parent has changed. */
  lemma ParentsSoFar(rows: Rows, done: seq<Update>, sofar: Rows, d: Id)
    requires ParentsExist(rows) && SafeCalls(rows, done, d) && Realises(rows, done, sofar)
    requires forall u :: u in done ==> u.id != d
    ensures forall id :: 0 <= id < |rows| ==> sofar[id].parent == rows[id].parent
  {
  }

  lemma ParentsStillExist(rows: Rows, calls: seq<Update>, after: Rows, d: Id)
    requires ParentsExist(rows) && SafeCalls(rows, calls, d) && Realises(rows, calls, after)
    ensures ParentsExist(after)
  {
  }

  lemma RealiseOneMore(rows: Rows, done: seq<Update>, sofar: Rows, u: Update)
    requires Realises(rows, done, sofar) && u.id < |rows| && sofar[u.id] == rows[u.id]
    requires forall v :: v in done ==> v.id != u.id
    ensures Realises(rows, done + [u], sofar[u.id := Patched(sofar[u.id], u)])
  {
  }

  /** An update to a row not touched yet is accepted. */
  lemma NextIsAccepted(rows: Rows, done: seq<Update>, sofar: Rows, u: Update, d: Id)
    requires ParentsExist(rows) && SafeCalls(rows, done, d) && Realises(rows, done, sofar) && ParentsExist(sofar)
    requires u.id < |rows| && (ChangesParent(rows, u) ==> u.id == d && Accepts(rows, u))
    requires forall v :: v in done ==> v.id != u.id
    ensures sofar[u.id] == rows[u.id] && Accepts(sofar, u)
  {
    assert sofar[u.id] == rows[u.id];
    if ChangesParent(rows, u) {
      ParentsSoFar(rows, done, sofar, d);
      if u.parent.value.Some? {
        SameParentsSameUnder(rows, sofar, Some(u.id), u.parent.value.value);
      }
    }
  }

  lemma LastIsNew(calls: seq<Update>)
    requires calls != [] && DistinctRows(calls)
    ensures DistinctRows(calls[..|calls| - 1])
    ensures forall v :: v in calls[..|calls| - 1] ==> v in calls && v.id != calls[|calls| - 1].id
  {
  }

  /** Updates to distinct rows, at most one of them a checked move, are all accepted and leave what they say. */
  lemma {:induction false} SafeCallsAreServed(rows: Rows, calls: seq<Update>, d: Id) returns (after: Rows)
    requires ParentsExist(rows) && DistinctRows(calls) && SafeCalls(rows, calls, d)
    ensures Serve(rows, calls) == Some(after) && Realises(rows, calls, after) && ParentsExist(after)
    decreases |calls|
  {
    if calls == [] {
      return rows;
    }
    var done, u := calls[..|calls| - 1], calls[|calls| - 1];
    LastIsNew(calls);
    var sofar := SafeCallsAreServed(rows, done, d);
    assert u in calls;
    NextIsAccepted(rows, done, sofar, u, d);
    RealiseOneMore(rows, done, sofar, u);
    after := sofar[u.id := Patched(sofar[u.id], u)];
    assert calls == done + [u];
    ParentsStillExist(rows, calls, after, d);
  }

  /** The order in which the server handles such updates makes no difference. */
  lemma OrderDoesNotMatter(rows: Rows, calls: seq<Update>, order: seq<Update>, d: Id)
    requires ParentsExist(rows) && DistinctRows(calls) && SafeCalls(rows, calls, d) && Reordering(calls, order)
    ensures Serve(rows, calls).Some? && Serve(rows, order) == Serve(rows, calls)
  {
    var a := SafeCallsAreServed(rows, calls, d);
    ReorderingKeepsRowsDistinct(calls, order);
    var b := SafeCallsAreServed(rows, order, d);
    forall id | 0 <= id < |rows|
      ensures (exists u :: u in calls && u.id == id) || b[id] == rows[id]
    {
      if u :| u in order && u.id == id {
        assert u in calls;
      }
    }
    RealisedRowsAreUnique(rows, calls, a, b);
  }

  // ---- Two moves checked against the same rows ------------------------------------

  /** The target is the category itself or lies below it: the cycle check refuses such a move. */
  ghost predicate AtOrBelow(rows: Rows, d: Id, target: Option<Id>)
    requires ParentsExist(rows) && IsContainer(rows, target)
  {
    target.Some? && (target.value == d || Under(rows, Some(d), target.value))
  }

  lemma MeetingIsAtOrBelow(rows: Rows, t: Id, k: nat, d: Id)
    requires ParentsExist(rows) && t < |rows| && Up(rows, t, k) == Some(d)
    ensures AtOrBelow(rows, d, Some(t))
  {
    if k > 0 {
      NoneStays(rows, t, k);
      assert StepsTo(rows, t, k, Some(d));
    }
  }

  lemma MeetingOf(rows: Rows, d: Id, t: Id) returns (k: nat)
    requires ParentsExist(rows) && t < |rows| && AtOrBelow(rows, d, Some(t))
    ensures Up(rows, t, k) == Some(d)
  {
    if t == d {
      k := 0;
    } else {
      k :| StepsTo(rows, t, k, Some(d));
    }
  }

  /** What does not lie at or below a climbs as before once a has moved. */
  lemma SameElsewhere(rows: Rows, a: Id, p: Option<Id>, t: Id, k: nat)
    requires ParentsExist(rows) && a < |rows| && t < |rows| && IsContainer(rows, p) && !AtOrBelow(rows, a, Some(t))
    ensures ParentsExist(SetParent(rows, a, p)) && Up(SetParent(rows, a, p), t, k) == Up(rows, t, k)
  {
    forall i: nat
      ensures Up(rows, t, i) != Some(a)
    {
      if Up(rows, t, i) == Some(a) {
        MeetingIsAtOrBelow(rows, t, i, a);
      }
    }
    SameBeforeMeeting(rows, a, p, t, k);
  }

  /** The climb after a goes under p: it follows the old parents up to a, and goes on from p. */
  lemma ClimbAfterMove(rows: Rows, a: Id, p: Option<Id>, q: Id, k: nat) returns (m: nat)
    requires ParentsExist(rows) && a < |rows| && q < |rows| && IsContainer(rows, p)
    requires Up(rows, q, k) == Some(a)
    ensures m <= k && Up(rows, q, m) == Some(a)
    ensures ParentsExist(SetParent(rows, a, p)) && Up(SetParent(rows, a, p), q, m + 1) == p
    ensures forall i: nat :: i <= m ==> Up(SetParent(rows, a, p), q, i) == Up(rows, q, i)
  {
    m := FirstMeeting(rows, q, k, a);
    forall i: nat | i <= m
      ensures ParentsExist(SetParent(rows, a, p)) && Up(SetParent(rows, a, p), q, i) == Up(rows, q, i)
    {
      SameBeforeMeeting(rows, a, p, q, i);
    }
    SameBeforeMeeting(rows, a, p, q, m);
  }

  lemma BothBelowMeet(rows: Rows, a: Id, p: Id, b: Id, q: Id)
    requires ParentsExist(rows) && a < |rows| && p < |rows| && q < |rows| && !AtOrBelow(rows, a, Some(p))
    requires AtOrBelow(rows, a, Some(q)) && AtOrBelow(rows, b, Some(p))
    ensures ParentsExist(SetParent(rows, a, Some(p))) && AtOrBelow(SetParent(rows, a, Some(p)), b, Some(q))
  {
    var moved := SetParent(rows, a, Some(p));
    var k := MeetingOf(rows, a, q);
    var m := ClimbAfterMove(rows, a, Some(p), q, k);
    var n := MeetingOf(rows, b, p);
    SameElsewhere(rows, a, Some(p), p, n);
    UpPlus(moved, q, m + 1, n);
    MeetingIsAtOrBelow(moved, q, m + 1 + n, b);
  }

  lemma MeetingNeedsBoth(rows: Rows, a: Id, p: Option<Id>, b: Id, q: Id)
    requires ParentsExist(rows) && a < |rows| && q < |rows| && IsContainer(rows, p)
    requires !AtOrBelow(rows, a, p) && !AtOrBelow(rows, b, Some(q))
    requires ParentsExist(SetParent(rows, a, p)) && AtOrBelow(SetParent(rows, a, p), b, Some(q))
    ensures AtOrBelow(rows, a, Some(q)) && AtOrBelow(rows, b, p)
  {
    var moved := SetParent(rows, a, p);
    var n := MeetingOf(moved, b, q);
    if !AtOrBelow(rows, a, Some(q)) {
      SameElsewhere(rows, a, p, q, n);
      MeetingIsAtOrBelow(rows, q, n, b);
    } else {
      var k := MeetingOf(rows, a, q);
      var m := ClimbAfterMove(rows, a, p, q, k);
      if n <= m {
        MeetingIsAtOrBelow(rows, q, n, b);
      } else {
        UpPlus(moved, q, m + 1, n - m - 1);
        SameElsewhere(rows, a, p, p.value, n - m - 1);
        MeetingIsAtOrBelow(rows, p.value, n - m - 1, b);
      }
    }
  }

  /**
   The cycle check reads before it writes. Two moves that each pass it against the same rows leave a forest
   unless each goes to the other or below it; one after the other, the second would be refused exactly then.
   */
  lemma TwoMovesKeepForestExactly(rows: Rows, a: Id, p: Option<Id>, b: Id, q: Option<Id>)
    requires Acyclic(rows) && a < |rows| && b < |rows| && a != b && IsContainer(rows, p) && IsContainer(rows, q)
    requires !AtOrBelow(rows, a, p) && !AtOrBelow(rows, b, q)
    ensures Acyclic(SetParent(SetParent(rows, a, p), b, q)) <==> !(AtOrBelow(rows, b, p) && AtOrBelow(rows, a, q))
  {
    MoveKeepsForestExactly(rows, a, p);
    MoveKeepsForestExactly(SetParent(rows, a, p), b, q);
    if q.Some? && AtOrBelow(SetParent(rows, a, p), b, q) {
      MeetingNeedsBoth(rows, a, p, b, q.value);
    } else if AtOrBelow(rows, b, p) && AtOrBelow(rows, a, q) {
      BothBelowMeet(rows, a, p.value, b, q.value);
    }
  }

  /** The smallest case: two categories at the root, each moved under the other. */
  lemma MovesCheckedTogetherCanLoop() returns (rows: Rows, u: Update, v: Update)
    ensures Acyclic(rows) && Accepts(rows, u) && Accepts(rows, v) && u.id < |rows| && v.id < |rows| && u.id != v.id
    ensures !Acyclic(rows[u.id := Patched(rows[u.id], u)][v.id := Patched(rows[v.id], v)])
    ensures Serve(rows, [u, v]) == None
  {
    rows := [Row(0, 0, None), Row(1, 0, None)];
    u, v := Update(0, None, Some(Some(1))), Update(1, None, Some(Some(0)));
    TwoRoots(rows);
    var half := rows[0 := Patched(rows[0], u)];
    assert half == SetParent(rows, 0, Some(1));
    assert half[1 := Patched(rows[1], v)] == SetParent(half, 1, Some(0));
    TwoMovesKeepForestExactly(rows, 0, Some(1), 1, Some(0));
    MoveKeepsForestExactly(rows, 0, Some(1));
    MoveKeepsForestExactly(half, 1, Some(0));
    assert [u, v][..1] == [u];
    assert Serve(rows, [u]) == Some(half);
    assert !Accepts(half, v);
  }

  lemma TwoRoots(rows: Rows)
    requires |rows| == 2 && rows[0].parent == None && rows[1].parent == None
    ensures Acyclic(rows)
    ensures !Under(rows, Some(0), 1) && !Under(rows, Some(1), 0)
  {
    forall t: nat | t < 2
      ensures Under(rows, None, t)
      ensures forall a :: !Under(rows, Some(a), t)
    {
      assert Up(rows, t, 0) == Some(t);
      assert StepsTo(rows, t, 1, None);
      forall a, k: nat
        ensures !StepsTo(rows, t, k, Some(a))
      {
        if k > 0 {
          UpPlus(rows, t, 1, k - 1);
        }
      }
    }
  }
}
