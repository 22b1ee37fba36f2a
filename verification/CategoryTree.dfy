/** Reading the stored rows back as the tree: sorted once, grouped by parent, nested from the root. */
module CategoryTree {
  import opened Prelude
  import opened CategoryForest
  import opened CategoryRows

  // ---- orderBy displayOrder, name ------------------------------------------------

  function InsertByKey(rows: Rows, ids: seq<Id>, id: Id): seq<Id>
    requires id < |rows| && forall i :: 0 <= i < |ids| ==> ids[i] < |rows|
  {
    if ids == [] || KeyLess(rows, id, ids[0]) then [id] + ids else [ids[0]] + InsertByKey(rows, ids[1..], id)
  }

  lemma {:induction false} InsertedInOrder(rows: Rows, ids: seq<Id>, id: Id)
    requires NamesDistinct(rows) && id < |rows| && id !in ids && forall i :: 0 <= i < |ids| ==> ids[i] < |rows|
    requires NoDuplicates(ids) && InOrder(rows, ids)
    ensures var s := InsertByKey(rows, ids, id);
      && (forall x :: x in s <==> x in ids || x == id)
      && NoDuplicates(s) && InOrder(rows, s)
  {
    if ids != [] && !KeyLess(rows, id, ids[0]) {
      assert rows[id].name != rows[ids[0]].name;
      InsertedInOrder(rows, ids[1..], id);
      var rest := InsertByKey(rows, ids[1..], id);
      FirstBeforeRest(rows, ids[0], ids[1..], rest, id);
      assert ids == [ids[0]] + ids[1..];
    } else {
      forall j | 0 <= j < |ids|
        ensures KeyLess(rows, id, ids[j])
      {
        assert j > 0 ==> KeyLess(rows, ids[0], ids[j]);
      }
    }
  }

  lemma FirstBeforeRest(rows: Rows, first: Id, tail: seq<Id>, rest: seq<Id>, id: Id)
    requires first < |rows| && id < |rows| && KeyLess(rows, first, id)
    requires NoDuplicates([first] + tail) && InOrder(rows, [first] + tail)
    requires (forall x :: x in rest <==> x in tail || x == id) && NoDuplicates(rest) && InOrder(rows, rest) && id != first
    ensures NoDuplicates([first] + rest) && InOrder(rows, [first] + rest)
  {
    var whole := [first] + tail;
    forall j | 0 <= j < |rest|
      ensures KeyLess(rows, first, rest[j]) && rest[j] != first
    {
      assert rest[j] in rest;
      if rest[j] != id {
        var k :| 0 <= k < |tail| && tail[k] == rest[j];
        assert whole[0] == first && whole[k + 1] == tail[k];
      }
    }
    var s := [first] + rest;
    assert forall j :: 0 < j < |s| ==> s[j] == rest[j - 1];
  }

  /** The ids below n in sibling order. */
  function SortedIds(rows: Rows, n: nat): (ids: seq<Id>)
    requires n <= |rows|
    ensures forall i :: 0 <= i < |ids| ==> ids[i] < |rows|
    ensures forall x :: x in ids ==> x < n
  {
    if n == 0 then [] else InsertSafely(rows, SortedIds(rows, n - 1), n - 1)
  }

  function InsertSafely(rows: Rows, ids: seq<Id>, id: Id): (s: seq<Id>)
    requires id < |rows| && forall i :: 0 <= i < |ids| ==> ids[i] < |rows|
    ensures forall i :: 0 <= i < |s| ==> s[i] < |rows|
    ensures forall x :: x in s <==> x in ids || x == id
  {
    InsertMembers(rows, ids, id);
    InsertByKey(rows, ids, id)
  }

  lemma {:induction false} InsertMembers(rows: Rows, ids: seq<Id>, id: Id)
    requires id < |rows| && forall i :: 0 <= i < |ids| ==> ids[i] < |rows|
    ensures forall x :: x in InsertByKey(rows, ids, id) <==> x in ids || x == id
    ensures forall i :: 0 <= i < |InsertByKey(rows, ids, id)| ==> InsertByKey(rows, ids, id)[i] < |rows|
  {
    if ids != [] && !KeyLess(rows, id, ids[0]) {
      InsertMembers(rows, ids[1..], id);
      assert ids == [ids[0]] + ids[1..];
    }
  }

  lemma {:induction false} SortedIdsAreAll(rows: Rows, n: nat)
    requires NamesDistinct(rows) && n <= |rows|
    ensures NoDuplicates(SortedIds(rows, n)) && InOrder(rows, SortedIds(rows, n))
    ensures forall x: nat :: x in SortedIds(rows, n) <==> x < n
  {
    if n > 0 {
      SortedIdsAreAll(rows, n - 1);
      var before := SortedIds(rows, n - 1);
      assert n - 1 !in before;
      InsertedInOrder(rows, before, n - 1);
    }
  }

  // ---- groupByParentId -------------------------------------------------------------

  /** The ids of one group, in the order they arrive. */
  function Group(rows: Rows, ids: seq<Id>, c: Option<Id>): seq<Id>
    requires forall i :: 0 <= i < |ids| ==> ids[i] < |rows|
  {
    if ids == [] then [] else
    var last := ids[|ids| - 1];
    Group(rows, ids[..|ids| - 1], c) + if rows[last].parent == c then [last] else []
  }

  lemma {:induction false} GroupMembers(rows: Rows, ids: seq<Id>, c: Option<Id>)
    requires forall i :: 0 <= i < |ids| ==> ids[i] < |rows|
    ensures forall x :: x in Group(rows, ids, c) <==> x in ids && IsChild(rows, c, x)
  {
    if ids != [] {
      var init, last := ids[..|ids| - 1], ids[|ids| - 1];
      GroupMembers(rows, init, c);
      assert ids == init + [last];
    }
  }

  lemma LastAfterAll(rows: Rows, ids: seq<Id>, x: Id)
    requires ids != [] && NoDuplicates(ids) && InOrder(rows, ids) && x in ids[..|ids| - 1]
    ensures var last := ids[|ids| - 1]; x != last && KeyLess(rows, x, last)
  {
  }

  lemma {:induction false} GroupInOrder(rows: Rows, ids: seq<Id>, c: Option<Id>)
    requires forall i :: 0 <= i < |ids| ==> ids[i] < |rows|
    requires NoDuplicates(ids) && InOrder(rows, ids)
    ensures NoDuplicates(Group(rows, ids, c)) && InOrder(rows, Group(rows, ids, c))
  {
    if ids != [] {
      var init := ids[..|ids| - 1];
      GroupInOrder(rows, init, c);
      GroupMembers(rows, init, c);
      var before := Group(rows, init, c);
      forall i | 0 <= i < |before|
        ensures var last := ids[|ids| - 1]; before[i] != last && KeyLess(rows, before[i], last)
      {
        assert before[i] in before;
        LastAfterAll(rows, ids, before[i]);
      }
    }
  }

  function ChildIds(rows: Rows, c: Option<Id>): seq<Id> {
    Group(rows, SortedIds(rows, |rows|), c)
  }

  lemma ChildIdsListChildren(rows: Rows, c: Option<Id>)
    requires NamesDistinct(rows)
    ensures ListsChildren(rows, c, ChildIds(rows, c))
    ensures forall i, j :: 0 <= i < j < |ChildIds(rows, c)| ==>
      var a, b := ChildIds(rows, c)[i], ChildIds(rows, c)[j];
      && a < |rows| && b < |rows|
      && (rows[a].displayOrder < rows[b].displayOrder
          || (rows[a].displayOrder == rows[b].displayOrder && rows[a].name < rows[b].name))
  {
    SortedIdsAreAll(rows, |rows|);
    GroupMembers(rows, SortedIds(rows, |rows|), c);
    GroupInOrder(rows, SortedIds(rows, |rows|), c);
  }

  // ---- build --------------------------------------------------------------------------

  ghost function Below(rows: Rows, c: Option<Id>): set<Id>
    requires ParentsExist(rows)
  {
    set t: nat | t < |rows| && Under(rows, c, t)
  }

  lemma BelowShrinks(rows: Rows, c: Option<Id>, a: Id)
    requires Acyclic(rows) && IsChild(rows, c, a)
    ensures Below(rows, Some(a)) < Below(rows, c)
  {
    assert Under(rows, None, a);
    NeverUnderItself(rows, a);
    assert Up(rows, a, 0) == Some(a);
    assert StepsTo(rows, a, 1, c);
    forall t: nat | t < |rows| && Under(rows, Some(a), t)
      ensures Under(rows, c, t)
    {
      var k: nat :| StepsTo(rows, t, k, Some(a));
      assert StepsTo(rows, t, k + 1, c);
    }
    assert a in Below(rows, c) && a !in Below(rows, Some(a));
  }

  ghost function BuildTree(rows: Rows, c: Option<Id>): seq<Node>
    requires Acyclic(rows) && NamesDistinct(rows)
    decreases Below(rows, c), |rows| + 1
  {
    ChildIdsListChildren(rows, c);
    Shorter(rows, c);
    BuildNodes(rows, c, ChildIds(rows, c))
  }

  ghost function BuildNodes(rows: Rows, c: Option<Id>, ids: seq<Id>): (nodes: seq<Node>)
    requires Acyclic(rows) && NamesDistinct(rows) && forall i :: 0 <= i < |ids| ==> IsChild(rows, c, ids[i])
    ensures |nodes| == |ids|
    decreases Below(rows, c), |ids|
  {
    if ids == [] then [] else
    var last := ids[|ids| - 1];
    BelowShrinks(rows, c, last);
    BuildNodes(rows, c, ids[..|ids| - 1]) + [Node(CategoryOf(rows, last), BuildTree(rows, Some(last)))]
  }

  lemma {:induction false} InsertedLength(rows: Rows, ids: seq<Id>, id: Id)
    requires id < |rows| && forall i :: 0 <= i < |ids| ==> ids[i] < |rows|
    ensures |InsertByKey(rows, ids, id)| == |ids| + 1
  {
    if ids != [] && !KeyLess(rows, id, ids[0]) {
      InsertedLength(rows, ids[1..], id);
    }
  }

  lemma {:induction false} SortedLength(rows: Rows, n: nat)
    requires n <= |rows|
    ensures |SortedIds(rows, n)| == n
  {
    if n > 0 {
      SortedLength(rows, n - 1);
      InsertedLength(rows, SortedIds(rows, n - 1), n - 1);
    }
  }

  lemma {:induction false} GroupLength(rows: Rows, ids: seq<Id>, c: Option<Id>)
    requires forall i :: 0 <= i < |ids| ==> ids[i] < |rows|
    ensures |Group(rows, ids, c)| <= |ids|
  {
    if ids != [] {
      GroupLength(rows, ids[..|ids| - 1], c);
    }
  }

  lemma Shorter(rows: Rows, c: Option<Id>)
    ensures |ChildIds(rows, c)| <= |rows|
  {
    SortedLength(rows, |rows|);
    GroupLength(rows, SortedIds(rows, |rows|), c);
  }

  /** The tree that is built shows the rows, container by container, all the way down. */
  lemma {:induction false} BuildShows(rows: Rows, c: Option<Id>)
    requires Acyclic(rows) && NamesDistinct(rows)
    ensures Shows(rows, c, BuildTree(rows, c))
    decreases Below(rows, c), |rows| + 1
  {
    ChildIdsListChildren(rows, c);
    Shorter(rows, c);
    BuildNodesShow(rows, c, ChildIds(rows, c));
    assert RootIds(BuildTree(rows, c)) == ChildIds(rows, c);
  }

  lemma {:induction false} BuildNodesShow(rows: Rows, c: Option<Id>, ids: seq<Id>)
    requires Acyclic(rows) && NamesDistinct(rows) && forall i :: 0 <= i < |ids| ==> IsChild(rows, c, ids[i])
    ensures var nodes := BuildNodes(rows, c, ids);
      forall i :: 0 <= i < |nodes| ==>
        nodes[i].category.id == ids[i] && IsNodeOf(rows, nodes[i]) && Shows(rows, Some(ids[i]), nodes[i].children)
    decreases Below(rows, c), |ids|
  {
    if ids != [] {
      var last := ids[|ids| - 1];
      BuildNodesShow(rows, c, ids[..|ids| - 1]);
      BelowShrinks(rows, c, last);
      BuildShows(rows, Some(last));
    }
  }

  // ---- There is only one such tree ------------------------------------------------------

  lemma {:induction false} OrderIsUnique(rows: Rows, s: seq<Id>, t: seq<Id>)
    requires NoDuplicates(s) && NoDuplicates(t) && InOrder(rows, s) && InOrder(rows, t)
    requires forall x :: x in s <==> x in t
    ensures s == t
  {
    SameEmptiness(s, t);
    if s != [] {
      assert s[0] in t && t[0] in s;
      SameFirst(rows, s, t);
      forall x
        ensures x in s[1..] <==> x in t[1..]
      {
        InTail(s, x);
        InTail(t, x);
      }
      OrderIsUnique(rows, s[1..], t[1..]);
      assert s == [s[0]] + s[1..] && t == [t[0]] + t[1..];
    }
  }

  lemma SameEmptiness(s: seq<Id>, t: seq<Id>)
    requires forall x :: x in s <==> x in t
    ensures s == [] <==> t == []
  {
    if s != [] {
      assert s[0] in t;
    }
    if t != [] {
      assert t[0] in s;
    }
  }

  lemma InTail(s: seq<Id>, x: Id)
    requires s != [] && NoDuplicates(s)
    ensures x in s[1..] <==> x in s && x != s[0]
  {
  }

  lemma SameFirst(rows: Rows, s: seq<Id>, t: seq<Id>)
    requires s != [] && t != [] && InOrder(rows, s) && InOrder(rows, t) && s[0] in t && t[0] in s
    ensures s[0] == t[0]
  {
  }

  /** Reading back is a function: rows show as one tree only. */
  lemma {:induction false} ShowsIsUnique(rows: Rows, c: Option<Id>, a: seq<Node>, b: seq<Node>)
    requires Shows(rows, c, a) && Shows(rows, c, b)
    ensures a == b
    decreases a
  {
    OrderIsUnique(rows, RootIds(a), RootIds(b));
    assert |RootIds(a)| == |a| && |RootIds(b)| == |b|;
    forall i | 0 <= i < |a|
      ensures a[i] == b[i]
    {
      assert RootIds(a)[i] == RootIds(b)[i];
      ShowsIsUnique(rows, Some(a[i].category.id), a[i].children, b[i].children);
    }
  }
}
