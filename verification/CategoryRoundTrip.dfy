/** The drop round trip: whatever order the server handles the updates in, reading back gives what was dropped. */
module CategoryRoundTrip {
  import opened Prelude
  import opened CategoryForest
  import opened CategoryRows
  import opened CategoryTree
  import opened CategoryUpdates
  import opened CategoryDrop

  /** A drag of an existing category to a position of an existing container, on a page that shows the rows. */
  ghost predicate IsDrop(rows: Rows, tree: seq<Node>, d: Id, to: Option<Id>, j: nat) {
    && Acyclic(rows) && NamesDistinct(rows) && Shows(rows, None, tree)
    && d < |rows| && IsContainer(rows, to) && IsSlot(tree, d, rows[d].parent, to, j)
    && OnMove(tree, d, to)
  }

  predicate IsInPlace(rows: Rows, tree: seq<Node>, d: Id, to: Option<Id>, j: nat)
    requires d < |rows|
  {
    var list := ListOf(tree, rows[d].parent);
    rows[d].parent == to && j < |list| && list[j] == d
  }

  function ListAfter(rows: Rows, tree: seq<Node>, d: Id, to: Option<Id>, j: nat, c: Option<Id>): seq<Id>
    requires d < |rows|
  {
    DropList(tree, d, rows[d].parent, to, j, c)
  }

  /** The rows a drop asks for. */
  function RowsAfter(rows: Rows, tree: seq<Node>, d: Id, to: Option<Id>, j: nat): (after: Rows)
    requires d < |rows|
    ensures |after| == |rows|
  {
    var from := rows[d].parent;
    if IsInPlace(rows, tree, d, to, j) then rows else
    var moved := Numbered(rows, to, ListAfter(rows, tree, d, to, j, to));
    if from == to then moved else Numbered(moved, from, ListAfter(rows, tree, d, to, j, from))
  }

  // ---- The lists -----------------------------------------------------------------------

  /** The target list holds its old members and the dragged one; the source list has lost it. */
  lemma ListAfterMembers(rows: Rows, tree: seq<Node>, d: Id, to: Option<Id>, j: nat, c: Option<Id>)
    requires IsDrop(rows, tree, d, to, j) && IsContainer(rows, c)
    ensures NoDuplicates(ListAfter(rows, tree, d, to, j, c))
    ensures forall x :: x in ListAfter(rows, tree, d, to, j, c) <==>
      if x == d then c == to else IsChild(rows, c, x)
  {
    var list := ListOf(tree, c);
    ListOfIsTheContainer(rows, tree, c);
    RemovedMembers(list, d);
    var base := if c == rows[d].parent then Removed(list, d) else list;
    if c == to {
      InsertedMembers(base, j, d);
    }
  }

  lemma SourceListReadsBack(rows: Rows, tree: seq<Node>, d: Id, to: Option<Id>, j: nat, c: Option<Id>)
    requires IsDrop(rows, tree, d, to, j) && IsContainer(rows, c) && c != to
    ensures InOrder(rows, ListAfter(rows, tree, d, to, j, c))
  {
    ListOfIsTheContainer(rows, tree, c);
    RemovedInOrder(rows, ListOf(tree, c), d);
  }

  lemma InPlaceIsNoChange(list: seq<Id>, j: nat, d: Id)
    requires NoDuplicates(list) && j < |list| && list[j] == d
    ensures Inserted(Removed(list, d), j, d) == list
  {
    RemovedSplit(list, j);
    assert list == list[..j] + [d] + list[j + 1..];
  }

  lemma {:induction false} RemovedSplit(list: seq<Id>, j: nat)
    requires NoDuplicates(list) && j < |list|
    ensures Removed(list, list[j]) == list[..j] + list[j + 1..]
  {
    var init, last := list[..|list| - 1], list[|list| - 1];
    assert forall i, k :: 0 <= i < k < |init| ==> init[i] == list[i] && init[k] == list[k];
    if j == |init| {
      RemovedMembers(init, last);
      assert list[j + 1..] == [];
    } else {
      RemovedSplit(init, j);
      assert init[j] == list[j];
      assert list[..j] == init[..j] && list[j + 1..] == init[j + 1..] + [last];
    }
  }

  /** The page's lists after dragging place i of one container to place j of another, or of the same. */
  lemma DropListExactly(tree: seq<Node>, d: Id, from: Option<Id>, to: Option<Id>, i: nat, j: nat, c: Option<Id>)
    requires NoDuplicates(ListOf(tree, from)) && i < |ListOf(tree, from)| && ListOf(tree, from)[i] == d
    requires j <= if from == to then |ListOf(tree, from)| - 1 else |ListOf(tree, to)|
    ensures IsSlot(tree, d, from, to, j)
    ensures var list := ListOf(tree, c);
      var rest := ListOf(tree, from)[..i] + ListOf(tree, from)[i + 1..];
      DropList(tree, d, from, to, j, c) ==
        if c == from == to then rest[..j] + [d] + rest[j..]
        else if c == from then rest
        else if c == to then list[..j] + [d] + list[j..]
        else list
  {
    RemovedSplit(ListOf(tree, from), i);
  }

  lemma SameContainerReadsBack(rows: Rows, tree: seq<Node>, d: Id, to: Option<Id>, j: nat, c: Option<Id>)
    requires IsDrop(rows, tree, d, to, j) && IsContainer(rows, c) && rows[d].parent == to
    ensures ListsChildren(RowsAfter(rows, tree, d, to, j), c, ListAfter(rows, tree, d, to, j, c))
  {
    var list := ListAfter(rows, tree, d, to, j, c);
    ListOfIsTheContainer(rows, tree, c);
    if IsInPlace(rows, tree, d, to, j) {
      if c == to {
        InPlaceIsNoChange(ListOf(tree, to), j, d);
      }
    } else {
      ListAfterMembers(rows, tree, d, to, j, to);
      if c == to {
        NumberedListsChildren(rows, to, list);
      } else {
        NumberedKeepsOthers(rows, to, ListAfter(rows, tree, d, to, j, to), c, list);
      }
    }
  }

  lemma OtherContainerReadsBack(rows: Rows, tree: seq<Node>, d: Id, to: Option<Id>, j: nat, c: Option<Id>)
    requires IsDrop(rows, tree, d, to, j) && IsContainer(rows, c) && rows[d].parent != to
    ensures ListsChildren(RowsAfter(rows, tree, d, to, j), c, ListAfter(rows, tree, d, to, j, c))
  {
    var from, list := rows[d].parent, ListAfter(rows, tree, d, to, j, c);
    assert IsContainer(rows, from);
    var toList, fromList := ListAfter(rows, tree, d, to, j, to), ListAfter(rows, tree, d, to, j, from);
    var moved := Numbered(rows, to, toList);
    ListAfterMembers(rows, tree, d, to, j, to);
    ListAfterMembers(rows, tree, d, to, j, from);
    ListAfterMembers(rows, tree, d, to, j, c);
    if c == to {
      NumberedListsChildren(rows, to, toList);
      NumberedKeepsOthers(moved, from, fromList, to, toList);
    } else {
      SourceListReadsBack(rows, tree, d, to, j, c);
      NumberedKeepsOthers(rows, to, toList, c, list);
      if c == from {
        NumberedListsChildren(moved, from, fromList);
      } else {
        NumberedKeepsOthers(moved, from, fromList, c, list);
      }
    }
  }

  /** Every container of the rows after the drop reads back as the list the page shows. */
  lemma EveryListReadsBack(rows: Rows, tree: seq<Node>, d: Id, to: Option<Id>, j: nat, c: Option<Id>)
    requires IsDrop(rows, tree, d, to, j) && IsContainer(rows, c)
    ensures ListsChildren(RowsAfter(rows, tree, d, to, j), c, ListAfter(rows, tree, d, to, j, c))
  {
    if rows[d].parent == to {
      SameContainerReadsBack(rows, tree, d, to, j, c);
    } else {
      OtherContainerReadsBack(rows, tree, d, to, j, c);
    }
  }

  // ---- The updates -------------------------------------------------------------------------

  lemma BothRealise(rows: Rows, to: Option<Id>, toList: seq<Id>, a: seq<Update>,
                    from: Option<Id>, fromList: seq<Id>, b: seq<Update>)
    requires Realises(rows, a, Numbered(rows, to, toList)) && Realises(rows, b, Numbered(rows, from, fromList))
    requires (forall u :: u in a ==> u.id in toList) && (forall u :: u in b ==> u.id in fromList)
    requires forall id :: !(id in toList && id in fromList)
    requires DistinctRows(a) && DistinctRows(b)
    ensures Realises(rows, a + b, Numbered(Numbered(rows, to, toList), from, fromList)) && DistinctRows(a + b)
  {
  }

  /** The emitted updates are real changes to distinct rows, and together they are the rows after the drop. */
  lemma DropCallsRealise(rows: Rows, tree: seq<Node>, d: Id, to: Option<Id>, j: nat)
    requires IsDrop(rows, tree, d, to, j)
    ensures var calls := DropCalls(tree, d, rows[d].parent, to, j);
      && Realises(rows, calls, RowsAfter(rows, tree, d, to, j)) && DistinctRows(calls)
      && forall u :: u in calls ==> IsRealChange(rows, u)
  {
    var from := rows[d].parent;
    assert IsContainer(rows, from);
    var toList, fromList := ListAfter(rows, tree, d, to, j, to), ListAfter(rows, tree, d, to, j, from);
    if !IsInPlace(rows, tree, d, to, j) {
      ListAfterMembers(rows, tree, d, to, j, to);
      var reparentTo := if from != to then Some(to) else None;
      RenumberingRealises(rows, tree, to, toList, Some(d), reparentTo);
      var a := Renumbering(tree, to, toList, Some(d), reparentTo);
      if from != to {
        ListAfterMembers(rows, tree, d, to, j, from);
        RenumberingRealises(rows, tree, from, fromList, None, None);
        BothRealise(rows, to, toList, a, from, fromList, Renumbering(tree, from, fromList, None, None));
      } else {
        assert a + [] == a;
      }
    }
  }

  /** Only the dragged row changes parent. */
  lemma OnlyTheDraggedMoves(rows: Rows, tree: seq<Node>, d: Id, to: Option<Id>, j: nat, id: Id)
    requires IsDrop(rows, tree, d, to, j) && id < |rows|
    ensures RowsAfter(rows, tree, d, to, j)[id].parent == if id == d then to else rows[id].parent
  {
    var c := if id == d then to else rows[id].parent;
    assert IsContainer(rows, rows[id].parent);
    EveryListReadsBack(rows, tree, d, to, j, c);
    ListAfterMembers(rows, tree, d, to, j, c);
    assert id in ListAfter(rows, tree, d, to, j, c);
  }

  lemma DropCallsAreSafe(rows: Rows, tree: seq<Node>, d: Id, to: Option<Id>, j: nat)
    requires IsDrop(rows, tree, d, to, j)
    ensures SafeCalls(rows, DropCalls(tree, d, rows[d].parent, to, j), d)
  {
    var calls, after := DropCalls(tree, d, rows[d].parent, to, j), RowsAfter(rows, tree, d, to, j);
    DropCallsRealise(rows, tree, d, to, j);
    OnMoveIsExact(rows, tree, d, to);
    MoveKeepsForestExactly(rows, d, to);
    forall u | u in calls
      ensures u.id < |rows| && (ChangesParent(rows, u) ==> u.id == d && Accepts(rows, u))
    {
      OnlyTheDraggedMoves(rows, tree, d, to, j, u.id);
      assert after[u.id] == Patched(rows[u.id], u);
    }
  }

  lemma RowsAfterAreAForest(rows: Rows, tree: seq<Node>, d: Id, to: Option<Id>, j: nat)
    requires IsDrop(rows, tree, d, to, j)
    ensures Acyclic(RowsAfter(rows, tree, d, to, j)) && NamesDistinct(RowsAfter(rows, tree, d, to, j))
  {
    var after, moved := RowsAfter(rows, tree, d, to, j), SetParent(rows, d, to);
    OnMoveIsExact(rows, tree, d, to);
    forall id | 0 <= id < |rows|
      ensures after[id].parent == moved[id].parent && after[id].name == rows[id].name
    {
      OnlyTheDraggedMoves(rows, tree, d, to, j, id);
    }
    forall t: nat | t < |rows|
      ensures ParentsExist(after) && Under(after, None, t)
    {
      SameParentsSameUnder(moved, after, None, t);
      assert Under(moved, None, t);
    }
    SameParentsSameUnder(moved, after, None, d);
  }

  // ---- The dropped tree -----------------------------------------------------------------------

  /** The tree without the dragged node. */
  function Without(nodes: seq<Node>, d: Id): seq<Node> {
    if nodes == [] then [] else
    if nodes[0].category.id == d then Without(nodes[1..], d) else
    [nodes[0].(children := Without(nodes[0].children, d))] + Without(nodes[1..], d)
  }

  /** The forest `nodes`, the contents of container `here`, with a node put in at position j of container `to`. */
  function PutIn(nodes: seq<Node>, here: Option<Id>, to: Option<Id>, j: nat, moved: Node): seq<Node>
    decreases nodes, 1
  {
    var deeper := PutDeeper(nodes, to, j, moved);
    if here == to && j <= |deeper| then deeper[..j] + [moved] + deeper[j..] else deeper
  }

  function PutDeeper(nodes: seq<Node>, to: Option<Id>, j: nat, moved: Node): (deeper: seq<Node>)
    ensures |deeper| == |nodes|
    decreases nodes, 0
  {
    if nodes == [] then [] else
    var id := nodes[0].category.id;
    [nodes[0].(children := PutIn(nodes[0].children, Some(id), to, j, moved))] + PutDeeper(nodes[1..], to, j, moved)
  }

  /** The tree on the page after the drop: the dragged subtree taken out and put in at its new place. */
  function DroppedTree(tree: seq<Node>, d: Id, to: Option<Id>, j: nat): seq<Node> {
    match FindNodeById(tree, d)
    case None => tree
    case Some(node) => PutIn(Without(tree, d), None, to, j, node)
  }

  /** The ids of a tree and how they nest. */
  datatype Shape = Shape(id: Id, below: seq<Shape>)

  function ShapeOf(nodes: seq<Node>): seq<Shape> {
    if nodes == [] then [] else [Shape(nodes[0].category.id, ShapeOf(nodes[0].children))] + ShapeOf(nodes[1..])
  }

  /** The nodes nest as container c reads back, whatever their stored fields say. */
  ghost predicate ShowsIds(rows: Rows, c: Option<Id>, nodes: seq<Node>)
    decreases nodes
  {
    && ListsChildren(rows, c, RootIds(nodes))
    && forall i :: 0 <= i < |nodes| ==> ShowsIds(rows, Some(nodes[i].category.id), nodes[i].children)
  }

  lemma RootsCons(nodes: seq<Node>)
    requires nodes != []
    ensures RootIds(nodes) == [nodes[0].category.id] + RootIds(nodes[1..])
  {
  }

  lemma {:induction false} RemovedCons(x: Id, list: seq<Id>, d: Id)
    ensures Removed([x] + list, d) == (if x == d then [] else [x]) + Removed(list, d)
  {
    var whole := [x] + list;
    if list == [] {
      assert whole == [x] && whole[..0] == [];
    } else {
      assert whole[..|whole| - 1] == [x] + list[..|list| - 1];
      RemovedCons(x, list[..|list| - 1], d);
    }
  }

  lemma {:induction false} RootsWithout(nodes: seq<Node>, d: Id)
    ensures RootIds(Without(nodes, d)) == Removed(RootIds(nodes), d)
  {
    if nodes != [] {
      RootsWithout(nodes[1..], d);
      RootsCons(nodes);
      RemovedCons(nodes[0].category.id, RootIds(nodes[1..]), d);
      if nodes[0].category.id != d {
        RootsCons(Without(nodes, d));
      }
    }
  }

  lemma {:induction false} RootsPutDeeper(nodes: seq<Node>, to: Option<Id>, j: nat, moved: Node)
    ensures RootIds(PutDeeper(nodes, to, j, moved)) == RootIds(nodes)
  {
    if nodes != [] {
      RootsPutDeeper(nodes[1..], to, j, moved);
      RootsCons(nodes);
      RootsCons(PutDeeper(nodes, to, j, moved));
    }
  }

  /** A node that stays: its own contents are treated the same way. */
  function Kept(node: Node, d: Id, to: Option<Id>, j: nat, moved: Node): Node {
    node.(children := PutIn(Without(node.children, d), Some(node.category.id), to, j, moved))
  }

  lemma {:induction false} PutElement(nodes: seq<Node>, d: Id, to: Option<Id>, j: nat, moved: Node, i: nat) returns (k: nat)
    requires i < |PutDeeper(Without(nodes, d), to, j, moved)|
    ensures k < |nodes| && nodes[k].category.id != d
    ensures PutDeeper(Without(nodes, d), to, j, moved)[i] == Kept(nodes[k], d, to, j, moved)
  {
    var rest := Without(nodes[1..], d);
    if nodes[0].category.id == d {
      k := PutElement(nodes[1..], d, to, j, moved, i);
      k := k + 1;
    } else {
      var kept := Without(nodes, d);
      assert kept[1..] == rest && kept[0] == nodes[0].(children := Without(nodes[0].children, d));
      if i == 0 {
        k := 0;
      } else {
        k := PutElement(nodes[1..], d, to, j, moved, i - 1);
        k := k + 1;
      }
    }
  }

  lemma RootsOfContainer(rows: Rows, tree: seq<Node>, c: Option<Id>, nodes: seq<Node>)
    requires Acyclic(rows) && Shows(rows, None, tree) && IsContainer(rows, c) && Shows(rows, c, nodes)
    ensures RootIds(nodes) == ListOf(tree, c)
  {
    ListOfIsTheContainer(rows, tree, c);
    OrderIsUnique(rows, RootIds(nodes), ListOf(tree, c));
  }

  /** The roots of the forest after the drop are the container's list after the drop. */
  lemma RootsAfterDrop(rows: Rows, tree: seq<Node>, d: Id, to: Option<Id>, j: nat,
                       here: Option<Id>, nodes: seq<Node>, moved: Node)
    requires IsDrop(rows, tree, d, to, j) && IsContainer(rows, here) && Shows(rows, here, nodes) && moved.category.id == d
    ensures RootIds(PutIn(Without(nodes, d), here, to, j, moved)) == ListAfter(rows, tree, d, to, j, here)
    ensures here == to ==> j <= |Without(nodes, d)|
  {
    RootsOfContainer(rows, tree, here, nodes);
    ListOfIsTheContainer(rows, tree, here);
    RemovedMembers(ListOf(tree, here), d);
    RootsWithout(nodes, d);
    var deeper := PutDeeper(Without(nodes, d), to, j, moved);
    RootsPutDeeper(Without(nodes, d), to, j, moved);
    assert here != rows[d].parent ==> d !in ListOf(tree, here);
    assert |RootIds(deeper)| == |deeper|;
    if here == to {
      RootsInserted(deeper, j, moved);
    }
  }

  lemma RootsInserted(nodes: seq<Node>, j: nat, moved: Node)
    requires j <= |nodes|
    ensures RootIds(nodes[..j] + [moved] + nodes[j..]) == Inserted(RootIds(nodes), j, moved.category.id)
  {
  }

  /** A subtree with neither container of the drop in it reads back as it was. */
  lemma {:induction false} UntouchedReadsBack(rows: Rows, tree: seq<Node>, d: Id, to: Option<Id>, j: nat,
                                              here: Option<Id>, nodes: seq<Node>)
    requires IsDrop(rows, tree, d, to, j) && IsContainer(rows, here) && Shows(rows, here, nodes)
    requires here != to && here != rows[d].parent
    requires forall t :: t in IdSet(nodes) ==> Some(t) != to && Some(t) != rows[d].parent
    ensures ShowsIds(RowsAfter(rows, tree, d, to, j), here, nodes)
    decreases nodes
  {
    RootsOfContainer(rows, tree, here, nodes);
    EveryListReadsBack(rows, tree, d, to, j, here);
    forall i | 0 <= i < |nodes|
      ensures ShowsIds(RowsAfter(rows, tree, d, to, j), Some(nodes[i].category.id), nodes[i].children)
    {
      forall t | t == nodes[i].category.id || t in IdSet(nodes[i].children)
        ensures t in IdSet(nodes)
      {
        IdSetMember(nodes, t);
      }
      UntouchedReadsBack(rows, tree, d, to, j, Some(nodes[i].category.id), nodes[i].children);
    }
  }

  lemma DraggedReadsBack(rows: Rows, tree: seq<Node>, d: Id, to: Option<Id>, j: nat) returns (moved: Node)
    requires IsDrop(rows, tree, d, to, j)
    ensures FindNodeById(tree, d) == Some(moved) && moved.category.id == d
    ensures ShowsIds(RowsAfter(rows, tree, d, to, j), Some(d), moved.children)
  {
    EveryRowIsFound(rows, tree, d);
    moved := FindNodeById(tree, d).value;
    assert Under(rows, None, d);
    NeverUnderItself(rows, d);
    assert Up(rows, d, 0) == Some(d);
    assert StepsTo(rows, d, 1, rows[d].parent);
    forall t | t in IdSet(moved.children)
      ensures Some(t) != to && Some(t) != rows[d].parent
    {
      IdsClimb(rows, Some(d), moved.children, t);
      if Some(t) == rows[d].parent {
        ParentBelowLoops(rows, d, t);
      }
    }
    UntouchedReadsBack(rows, tree, d, to, j, Some(d), moved.children);
  }

  lemma ParentBelowLoops(rows: Rows, d: Id, t: Id)
    requires ParentsExist(rows) && d < |rows| && rows[d].parent == Some(t) && Under(rows, Some(d), t)
    ensures Under(rows, Some(d), d)
  {
    var k: nat :| StepsTo(rows, t, k, Some(d));
    assert Up(rows, d, 0) == Some(d) && Up(rows, d, 1) == Some(t);
    UpPlus(rows, d, 1, k);
    UpPlus(rows, d, 1, k - 1);
    assert StepsTo(rows, d, k + 1, Some(d));
  }

  /** Everything that stays, and the dragged subtree at its new place, reads back. */
  lemma {:induction false} DroppedReadsBack(rows: Rows, tree: seq<Node>, d: Id, to: Option<Id>, j: nat,
                                            here: Option<Id>, nodes: seq<Node>, moved: Node)
    requires IsDrop(rows, tree, d, to, j) && IsContainer(rows, here) && Shows(rows, here, nodes)
    requires moved.category.id == d && ShowsIds(RowsAfter(rows, tree, d, to, j), Some(d), moved.children)
    ensures ShowsIds(RowsAfter(rows, tree, d, to, j), here, PutIn(Without(nodes, d), here, to, j, moved))
    decreases nodes
  {
    var after, result := RowsAfter(rows, tree, d, to, j), PutIn(Without(nodes, d), here, to, j, moved);
    RootsAfterDrop(rows, tree, d, to, j, here, nodes, moved);
    EveryListReadsBack(rows, tree, d, to, j, here);
    var deeper := PutDeeper(Without(nodes, d), to, j, moved);
    forall i | 0 <= i < |deeper|
      ensures ShowsIds(after, Some(deeper[i].category.id), deeper[i].children)
    {
      var k := PutElement(nodes, d, to, j, moved, i);
      DroppedReadsBack(rows, tree, d, to, j, Some(nodes[k].category.id), nodes[k].children, moved);
    }
    forall i | 0 <= i < |result|
      ensures ShowsIds(after, Some(result[i].category.id), result[i].children)
    {
      if here == to && j <= |deeper| {
        assert result[i] == if i < j then deeper[i] else if i == j then moved else deeper[i - 1];
      }
    }
  }

  // ---- The theorem --------------------------------------------------------------------------------

  lemma {:induction false} ShapeAt(nodes: seq<Node>)
    ensures |ShapeOf(nodes)| == |nodes|
    ensures forall i :: 0 <= i < |nodes| ==> ShapeOf(nodes)[i] == Shape(nodes[i].category.id, ShapeOf(nodes[i].children))
  {
    if nodes != [] {
      ShapeAt(nodes[1..]);
    }
  }

  lemma {:induction false} ShownIdsFixTheShape(rows: Rows, c: Option<Id>, a: seq<Node>, b: seq<Node>)
    requires ShowsIds(rows, c, a) && ShowsIds(rows, c, b)
    ensures ShapeOf(a) == ShapeOf(b)
    decreases a
  {
    OrderIsUnique(rows, RootIds(a), RootIds(b));
    assert |RootIds(a)| == |a| && |RootIds(b)| == |b|;
    ShapeAt(a);
    ShapeAt(b);
    forall i | 0 <= i < |a|
      ensures ShapeOf(a)[i] == ShapeOf(b)[i]
    {
      assert RootIds(a)[i] == RootIds(b)[i];
      ShownIdsFixTheShape(rows, Some(a[i].category.id), a[i].children, b[i].children);
    }
  }

  lemma {:induction false} ShownAreShownIds(rows: Rows, c: Option<Id>, nodes: seq<Node>)
    requires Shows(rows, c, nodes)
    ensures ShowsIds(rows, c, nodes)
    decreases nodes
  {
    forall i | 0 <= i < |nodes|
      ensures ShowsIds(rows, Some(nodes[i].category.id), nodes[i].children)
    {
      ShownAreShownIds(rows, Some(nodes[i].category.id), nodes[i].children);
    }
  }

  /**
   For every forest and every allowed drop, in whatever order the server handles the updates: each is
   accepted, is the only one to its row and changes it; the rows stay a forest; and the tree read
   back is the tree on the page.
   */
  lemma DropRoundTrip(rows: Rows, tree: seq<Node>, d: Id, to: Option<Id>, j: nat, order: seq<Update>)
    requires IsDrop(rows, tree, d, to, j)
    requires Reordering(DropCalls(tree, d, rows[d].parent, to, j), order)
    ensures var after := RowsAfter(rows, tree, d, to, j);
      && Serve(rows, order) == Some(after)
      && Acyclic(after) && NamesDistinct(after)
      && ShapeOf(BuildTree(after, None)) == ShapeOf(DroppedTree(tree, d, to, j))
    ensures DistinctRows(order) && forall u :: u in order ==> IsRealChange(rows, u)
  {
    var calls, after := DropCalls(tree, d, rows[d].parent, to, j), RowsAfter(rows, tree, d, to, j);
    DropCallsRealise(rows, tree, d, to, j);
    DropCallsAreSafe(rows, tree, d, to, j);
    OrderDoesNotMatter(rows, calls, order, d);
    ReorderingKeepsRowsDistinct(calls, order);
    var served := SafeCallsAreServed(rows, calls, d);
    RealisedRowsAreUnique(rows, calls, served, after);
    RowsAfterAreAForest(rows, tree, d, to, j);
    var moved := DraggedReadsBack(rows, tree, d, to, j);
    DroppedReadsBack(rows, tree, d, to, j, None, tree, moved);
    BuildShows(after, None);
    ShownAreShownIds(after, None, BuildTree(after, None));
    ShownIdsFixTheShape(after, None, BuildTree(after, None), DroppedTree(tree, d, to, j));
  }
}
