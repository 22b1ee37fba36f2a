/**
 Drag and drop: the lists the page shows after the drop, the updates that renumbering emits for them,
 and what the server's rows read back as once it has handled those updates, in whatever order.
 */
module CategoryDrop {
  import opened Prelude
  import opened CategoryForest
  import opened CategoryRows
  import opened CategoryTree
  import opened CategoryUpdates

  // ---- The page's lists ------------------------------------------------------------

  /** The ids of the sibling list of a container, as the panel looks it up. */
  function ListOf(tree: seq<Node>, c: Option<Id>): seq<Id> {
    match c
    case None => RootIds(tree)
    case Some(p) =>
      match FindNodeById(tree, p)
      case None => []
      case Some(node) => RootIds(node.children)
  }

  lemma ListOfIsTheContainer(rows: Rows, tree: seq<Node>, c: Option<Id>)
    requires Acyclic(rows) && Shows(rows, None, tree) && IsContainer(rows, c)
    ensures ListsChildren(rows, c, ListOf(tree, c))
  {
    if c.Some? {
      EveryRowIsFound(rows, tree, c.value);
    }
  }

  function Removed(list: seq<Id>, d: Id): seq<Id> {
    if list == [] then [] else
    var last := list[|list| - 1];
    Removed(list[..|list| - 1], d) + if last == d then [] else [last]
  }

  function Inserted(list: seq<Id>, j: nat, d: Id): seq<Id> {
    if j <= |list| then list[..j] + [d] + list[j..] else list
  }

  /** The container's list once the dragged category stands at position j of the target container. */
  function DropList(tree: seq<Node>, d: Id, from: Option<Id>, to: Option<Id>, j: nat, c: Option<Id>): seq<Id> {
    var base := if c == from then Removed(ListOf(tree, c), d) else ListOf(tree, c);
    if c == to then Inserted(base, j, d) else base
  }

  /** A position the page can drop at. */
  predicate IsSlot(tree: seq<Node>, d: Id, from: Option<Id>, to: Option<Id>, j: nat) {
    j <= |if to == from then Removed(ListOf(tree, to), d) else ListOf(tree, to)|
  }

  lemma {:induction false} RemovedMembers(list: seq<Id>, d: Id)
    ensures forall x :: x in Removed(list, d) <==> x in list && x != d
    ensures d !in list ==> Removed(list, d) == list
    ensures NoDuplicates(list) ==> NoDuplicates(Removed(list, d))
  {
    if list != [] {
      var init, last := list[..|list| - 1], list[|list| - 1];
      RemovedMembers(init, d);
      assert list == init + [last];
      if NoDuplicates(list) {
        assert forall i, k :: 0 <= i < k < |init| ==> init[i] == list[i] && init[k] == list[k];
        assert last !in init;
      }
    }
  }

  lemma InsertedMembers(list: seq<Id>, j: nat, d: Id)
    requires j <= |list|
    ensures forall x :: x in Inserted(list, j, d) <==> x in list || x == d
    ensures NoDuplicates(list) && d !in list ==> NoDuplicates(Inserted(list, j, d))
  {
  }

  // ---- renumberContainer --------------------------------------------------------------

  /** The update for the element at position i, if anything of it changes. */
  function UpdateAt(tree: seq<Node>, c: Option<Id>, id: Id, i: nat,
                    dragged: Option<Id>, reparentTo: Option<Option<Id>>): Option<Update> {
    var found := FindNodeById(tree, id);
    var order: Option<int> :=
      if found.None? || found.value.category.displayOrder != i then Some(i) else None;
    var parent: Option<Option<Id>> :=
      if dragged == Some(id) && reparentTo.Some? then reparentTo
      else if found.None? || found.value.category.parentId != c then Some(c)
      else None;
    if order.None? && parent.None? then None else Some(Update(id, order, parent))
  }

  function Renumbering(tree: seq<Node>, c: Option<Id>, list: seq<Id>,
                       dragged: Option<Id>, reparentTo: Option<Option<Id>>): seq<Update> {
    if list == [] then [] else
    var i := |list| - 1;
    Renumbering(tree, c, list[..i], dragged, reparentTo)
    + match UpdateAt(tree, c, list[i], i, dragged, reparentTo) case None => [] case Some(u) => [u]
  }

  method RenumberContainer(tree: seq<Node>, c: Option<Id>, list: seq<Id>,
                           dragged: Option<Id>, reparentTo: Option<Option<Id>>) returns (calls: seq<Update>)
    ensures calls == Renumbering(tree, c, list, dragged, reparentTo)
  {
    calls := [];
    for i := 0 to |list|
      invariant calls == Renumbering(tree, c, list[..i], dragged, reparentTo)
    {
      assert list[..i + 1][..i] == list[..i];
      var id := list[i];
      var node := FindNodeById(tree, id);
      var order: Option<int> := None;
      if node.None? || node.value.category.displayOrder != i {
        order := Some(i);
      }
      var parent: Option<Option<Id>> := None;
      if dragged == Some(id) && reparentTo.Some? {
        parent := reparentTo;
      } else if node.None? || node.value.category.parentId != c {
        parent := Some(c);
      }
      if order.Some? || parent.Some? {
        calls := calls + [Update(id, order, parent)];
      }
    }
    assert list[..|list|] == list;
  }

  /** Everything one drop sends. */
  function DropCalls(tree: seq<Node>, d: Id, from: Option<Id>, to: Option<Id>, j: nat): seq<Update> {
    var list := ListOf(tree, from);
    if from == to && j < |list| && list[j] == d then [] else
    Renumbering(tree, to, DropList(tree, d, from, to, j, to), Some(d), if from != to then Some(to) else None)
    + if from != to then Renumbering(tree, from, DropList(tree, d, from, to, j, from), None, None) else []
  }

  /** The handler sees the lists as the page shows them after the drop. */
  method HandleSortableEnd(tree: seq<Node>, d: Id, from: Option<Id>, to: Option<Id>, oldIndex: nat, newIndex: nat)
    returns (calls: seq<Update>)
    requires NoDuplicates(ListOf(tree, from)) && oldIndex < |ListOf(tree, from)| && ListOf(tree, from)[oldIndex] == d
    ensures calls == DropCalls(tree, d, from, to, newIndex)
  {
    var reparented := from != to;
    if !reparented && oldIndex == newIndex {
      return [];
    }
    calls := RenumberContainer(tree, to, DropList(tree, d, from, to, newIndex, to), Some(d),
      if reparented then Some(to) else None);
    if reparented {
      var more := RenumberContainer(tree, from, DropList(tree, d, from, to, newIndex, from), None, None);
      calls := calls + more;
    }
  }

  // ---- What a renumbering leaves ----------------------------------------------------------

  function IndexIn(list: seq<Id>, x: Id): (i: nat)
    requires x in list
    ensures i < |list| && list[i] == x
  {
    if list[0] == x then 0 else 1 + IndexIn(list[1..], x)
  }

  /** The listed rows lie in the container, in the order listed. */
  function Numbered(rows: Rows, c: Option<Id>, list: seq<Id>): (after: Rows)
    ensures |after| == |rows|
  {
    seq(|rows|, id requires 0 <= id < |rows| =>
      if id in list then rows[id].(displayOrder := IndexIn(list, id), parent := c) else rows[id])
  }

  lemma {:induction false} RenumberingMembers(tree: seq<Node>, c: Option<Id>, list: seq<Id>,
                                              dragged: Option<Id>, reparentTo: Option<Option<Id>>, u: Update)
    ensures u in Renumbering(tree, c, list, dragged, reparentTo) <==>
      exists i :: 0 <= i < |list| && UpdateAt(tree, c, list[i], i, dragged, reparentTo) == Some(u)
  {
    if list != [] {
      var n := |list| - 1;
      var init := list[..n];
      RenumberingMembers(tree, c, init, dragged, reparentTo, u);
      assert forall i :: 0 <= i < n ==> init[i] == list[i];
      if i :| 0 <= i < |init| && UpdateAt(tree, c, init[i], i, dragged, reparentTo) == Some(u) {
        assert UpdateAt(tree, c, list[i], i, dragged, reparentTo) == Some(u);
      }
      if i :| 0 <= i < n && UpdateAt(tree, c, list[i], i, dragged, reparentTo) == Some(u) {
        assert UpdateAt(tree, c, init[i], i, dragged, reparentTo) == Some(u);
      }
    }
  }

  lemma {:induction false} RenumberingDistinct(tree: seq<Node>, c: Option<Id>, list: seq<Id>,
                                               dragged: Option<Id>, reparentTo: Option<Option<Id>>)
    requires NoDuplicates(list)
    ensures DistinctRows(Renumbering(tree, c, list, dragged, reparentTo))
    ensures forall u :: u in Renumbering(tree, c, list, dragged, reparentTo) ==> u.id in list
  {
    if list != [] {
      var n := |list| - 1;
      var init := list[..n];
      assert forall i, k :: 0 <= i < k < |init| ==> init[i] == list[i] && init[k] == list[k];
      RenumberingDistinct(tree, c, init, dragged, reparentTo);
      assert list == init + [list[n]];
      assert list[n] !in init;
    }
  }

  /** What the update at a position does to its row, in a tree that shows the rows. */
  lemma UpdateAtFixesTheRow(rows: Rows, tree: seq<Node>, c: Option<Id>, id: Id, i: nat,
                            dragged: Option<Id>, reparentTo: Option<Option<Id>>)
    requires Acyclic(rows) && Shows(rows, None, tree) && id < |rows|
    requires reparentTo.Some? ==> reparentTo.value == c
    requires reparentTo.Some? && dragged == Some(id) ==> rows[id].parent != c
    ensures var u := UpdateAt(tree, c, id, i, dragged, reparentTo);
      var fixed := rows[id].(displayOrder := i, parent := c);
      && (u.None? ==> fixed == rows[id])
      && (u.Some? ==> u.value.id == id && Patched(rows[id], u.value) == fixed && IsRealChange(rows, u.value))
  {
    EveryRowIsFound(rows, tree, id);
  }

  /** Every field the update carries differs from what is stored, and it carries one. */
  predicate IsRealChange(rows: Rows, u: Update) {
    u.id < |rows|
    && (u.displayOrder.Some? || u.parent.Some?)
    && (u.displayOrder.Some? ==> u.displayOrder.value != rows[u.id].displayOrder)
    && (u.parent.Some? ==> u.parent.value != rows[u.id].parent)
  }

  lemma IndexIsUnique(list: seq<Id>, i: nat)
    requires NoDuplicates(list) && i < |list|
    ensures IndexIn(list, list[i]) == i
  {
  }

  lemma RenumberingRealises(rows: Rows, tree: seq<Node>, c: Option<Id>, list: seq<Id>,
                            dragged: Option<Id>, reparentTo: Option<Option<Id>>)
    requires Acyclic(rows) && Shows(rows, None, tree) && NoDuplicates(list) && forall id :: id in list ==> id < |rows|
    requires reparentTo.Some? ==> reparentTo.value == c && dragged.Some? && dragged.value < |rows| && rows[dragged.value].parent != c
    ensures var calls := Renumbering(tree, c, list, dragged, reparentTo);
      && Realises(rows, calls, Numbered(rows, c, list)) && DistinctRows(calls)
      && forall u :: u in calls ==> u.id in list && IsRealChange(rows, u)
  {
    var calls, after := Renumbering(tree, c, list, dragged, reparentTo), Numbered(rows, c, list);
    RenumberingDistinct(tree, c, list, dragged, reparentTo);
    forall u | u in calls
      ensures u.id < |rows| && after[u.id] == Patched(rows[u.id], u) && IsRealChange(rows, u)
    {
      RenumberingMembers(tree, c, list, dragged, reparentTo, u);
      var i :| 0 <= i < |list| && UpdateAt(tree, c, list[i], i, dragged, reparentTo) == Some(u);
      UpdateAtFixesTheRow(rows, tree, c, list[i], i, dragged, reparentTo);
      IndexIsUnique(list, i);
    }
    forall id | 0 <= id < |rows|
      ensures (exists u :: u in calls && u.id == id) || after[id] == rows[id]
    {
      if id in list {
        var i := IndexIn(list, id);
        UpdateAtFixesTheRow(rows, tree, c, id, i, dragged, reparentTo);
        var u := UpdateAt(tree, c, list[i], i, dragged, reparentTo);
        if u.Some? {
          RenumberingMembers(tree, c, list, dragged, reparentTo, u.value);
        }
      }
    }
  }

  /** A numbered container reads back as the list; containers it shares no row with do not change. */
  lemma NumberedListsChildren(rows: Rows, c: Option<Id>, list: seq<Id>)
    requires NoDuplicates(list) && forall id :: id in list ==> id < |rows|
    requires forall id :: IsChild(rows, c, id) ==> id in list
    ensures ListsChildren(Numbered(rows, c, list), c, list)
  {
  }

  lemma NumberedKeepsOthers(rows: Rows, c: Option<Id>, list: seq<Id>, e: Option<Id>, other: seq<Id>)
    requires e != c && NoDuplicates(other) && InOrder(rows, other)
    requires forall id :: id in other <==> IsChild(rows, e, id) && id !in list
    ensures ListsChildren(Numbered(rows, c, list), e, other)
  {
  }

  lemma {:induction false} RemovedInOrder(rows: Rows, list: seq<Id>, d: Id)
    requires NoDuplicates(list) && InOrder(rows, list)
    ensures InOrder(rows, Removed(list, d))
  {
    if list != [] {
      var init := list[..|list| - 1];
      RemovedInOrder(rows, init, d);
      RemovedMembers(init, d);
      var before := Removed(init, d);
      forall i | 0 <= i < |before|
        ensures var last := list[|list| - 1]; KeyLess(rows, before[i], last)
      {
        assert before[i] in before;
        LastAfterAll(rows, list, before[i]);
      }
    }
  }
}
