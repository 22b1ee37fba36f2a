/** The up and down buttons: two siblings exchange their displayOrder. When that is the exchange of their places. */
module CategorySiblings {
  import opened Prelude
  import opened CategoryForest
  import opened CategoryRows
  import opened CategoryTree
  import opened CategoryUpdates
  import opened CategoryDrop

  function SiblingsOf(tree: seq<Node>, node: Node): seq<Node> {
    match node.category.parentId
    case None => tree
    case Some(p) =>
      match FindNodeById(tree, p)
      case None => []
      case Some(parent) => parent.children
  }

  /** Array.findIndex on the id: -1 when absent. */
  function FindIndex(nodes: seq<Node>, id: Id): (i: int)
    ensures -1 <= i < |nodes|
    ensures i >= 0 ==> nodes[i].category.id == id
    ensures i == -1 ==> forall k :: 0 <= k < |nodes| ==> nodes[k].category.id != id
  {
    if nodes == [] then -1
    else if nodes[0].category.id == id then 0
    else var i := FindIndex(nodes[1..], id); if i == -1 then -1 else i + 1
  }

  function MoveCalls(tree: seq<Node>, node: Node, direction: int): seq<Update> {
    var siblings := SiblingsOf(tree, node);
    var target := FindIndex(siblings, node.category.id) + direction;
    if target < 0 || target >= |siblings| then [] else
    var other := siblings[target].category;
    [Update(node.category.id, Some(other.displayOrder), None), Update(other.id, Some(node.category.displayOrder), None)]
  }

  method MoveSibling(tree: seq<Node>, node: Node, direction: int) returns (calls: seq<Update>)
    ensures calls == MoveCalls(tree, node, direction)
  {
    var siblings := SiblingsOf(tree, node);
    var currentIndex := -1;
    for k := 0 to |siblings|
      invariant currentIndex == -1
      invariant FindIndex(siblings, node.category.id) ==
        var i := FindIndex(siblings[k..], node.category.id); if i == -1 then -1 else k + i
    {
      assert siblings[k..][0] == siblings[k] && siblings[k..][1..] == siblings[k + 1..];
      if siblings[k].category.id == node.category.id {
        currentIndex := k;
        break;
      }
    }
    var targetIndex := currentIndex + direction;
    if targetIndex < 0 || targetIndex >= |siblings| {
      return [];
    }
    var target := siblings[targetIndex].category;
    calls := [
      Update(node.category.id, Some(target.displayOrder), None),
      Update(target.id, Some(node.category.displayOrder), None)];
  }

  // ---- The exchange --------------------------------------------------------------

  function Exchanged(rows: Rows, a: Id, b: Id): Rows
    requires a < |rows| && b < |rows|
  {
    rows[a := rows[a].(displayOrder := rows[b].displayOrder)][b := rows[b].(displayOrder := rows[a].displayOrder)]
  }

  function Orders(rows: Rows): seq<int> {
    seq(|rows|, id requires 0 <= id < |rows| => rows[id].displayOrder)
  }

  /** No displayOrder is lost or invented. */
  lemma ExchangeKeepsOrders(rows: Rows, a: Id, b: Id)
    requires a < |rows| && b < |rows|
    ensures multiset(Orders(Exchanged(rows, a, b))) == multiset(Orders(rows))
  {
    var before := Orders(rows);
    assert Orders(Exchanged(rows, a, b)) == before[a := before[b]][b := before[a]];
  }

  lemma ExchangeTwice(rows: Rows, a: Id, b: Id)
    requires a < |rows| && b < |rows|
    ensures Exchanged(Exchanged(rows, a, b), a, b) == rows
    ensures Exchanged(rows, a, b) == Exchanged(rows, b, a)
  {
  }

  function Swapped(list: seq<Id>, p: nat): (swapped: seq<Id>)
    requires p + 1 < |list|
    ensures |swapped| == |list|
  {
    list[p := list[p + 1]][p + 1 := list[p]]
  }

  /** What the exchange of neighbours p and p + 1 needs: different orders, and ties with the outer neighbours that the names still break. */
  predicate CanSwap(rows: Rows, list: seq<Id>, p: nat)
    requires p + 1 < |list| && forall i :: 0 <= i < |list| ==> list[i] < |rows|
  {
    var x, y := rows[list[p]], rows[list[p + 1]];
    && x.displayOrder < y.displayOrder
    && (p > 0 ==> rows[list[p - 1]].displayOrder < x.displayOrder || rows[list[p - 1]].name < y.name)
    && (p + 2 < |list| ==> y.displayOrder < rows[list[p + 2]].displayOrder || x.name < rows[list[p + 2]].name)
  }

  ghost predicate AdjacentInOrder(rows: Rows, list: seq<Id>) {
    forall i, k :: 0 <= i < |list| && k == i + 1 && k < |list| ==>
      KeyLess(rows, list[i], list[k])
  }

  lemma {:induction false} AdjacentSuffices(rows: Rows, list: seq<Id>, i: nat, k: nat)
    requires AdjacentInOrder(rows, list) && i < k < |list|
    ensures KeyLess(rows, list[i], list[k])
    decreases k - i
  {
    if k > i + 1 {
      AdjacentSuffices(rows, list, i + 1, k);
    }
  }

  lemma InOrderIsAdjacent(rows: Rows, list: seq<Id>)
    ensures InOrder(rows, list) <==> AdjacentInOrder(rows, list)
  {
    if AdjacentInOrder(rows, list) {
      forall i, j | 0 <= i < j < |list|
        ensures KeyLess(rows, list[i], list[j])
      {
        AdjacentSuffices(rows, list, i, j);
      }
      assert InOrder(rows, list);
    }
    if InOrder(rows, list) {
      forall i, k | 0 <= i < |list| && k == i + 1 && k < |list|
        ensures KeyLess(rows, list[i], list[k])
      {
      }
    }
  }

  /** The neighbours' places are exchanged exactly under that condition. */
  lemma SwapInOrderExactly(rows: Rows, list: seq<Id>, p: nat)
    requires p + 1 < |list| && NoDuplicates(list) && InOrder(rows, list) && forall i :: 0 <= i < |list| ==> list[i] < |rows|
    ensures InOrder(Exchanged(rows, list[p], list[p + 1]), Swapped(list, p)) <==> CanSwap(rows, list, p)
  {
    var after, swapped := Exchanged(rows, list[p], list[p + 1]), Swapped(list, p);
    InOrderIsAdjacent(rows, list);
    InOrderIsAdjacent(after, swapped);
    assert KeyLess(rows, list[p], list[p + 1]);
    forall i | 0 <= i < |list| && i != p && i != p + 1
      ensures swapped[i] == list[i] && after[list[i]] == rows[list[i]]
    {
    }
    if CanSwap(rows, list, p) {
      forall i, k | 0 <= i < |list| && k == i + 1 && k < |list|
        ensures KeyLess(after, swapped[i], swapped[k])
      {
        assert KeyLess(rows, list[i], list[k]);
        if i + 1 == p {
          assert KeyLess(rows, list[i], list[p]);
        }
      }
    }
    if AdjacentInOrder(after, swapped) {
      assert KeyLess(after, swapped[p], swapped[p + 1]);
      if p > 0 {
        assert KeyLess(after, swapped[p - 1], swapped[p]);
        assert KeyLess(rows, list[p - 1], list[p]);
      }
      if p + 2 < |list| {
        assert KeyLess(after, swapped[p + 1], swapped[p + 2]);
        assert KeyLess(rows, list[p + 1], list[p + 2]);
      }
    }
  }

  // ---- The button -----------------------------------------------------------------------

  /** The page shows the rows, and the button's category stands at place i of its container. */
  ghost predicate IsPress(rows: Rows, tree: seq<Node>, node: Node, i: nat, direction: int) {
    && Acyclic(rows) && NamesDistinct(rows) && Shows(rows, None, tree)
    && (direction == 1 || direction == -1)
    && IsNodeOf(rows, node)
    && var list := ListOf(tree, node.category.parentId);
       i < |list| && list[i] == node.category.id && 0 <= i + direction < |list|
  }

  /** The pair's first place. */
  function PairAt(i: nat, direction: int): int {
    if direction == 1 then i else i - 1
  }

  lemma SiblingsAreTheList(rows: Rows, tree: seq<Node>, node: Node)
    requires Acyclic(rows) && Shows(rows, None, tree) && IsNodeOf(rows, node)
    ensures var siblings, c := SiblingsOf(tree, node), node.category.parentId;
      && IsContainer(rows, c) && RootIds(siblings) == ListOf(tree, c) && ListsChildren(rows, c, ListOf(tree, c))
      && forall k :: 0 <= k < |siblings| ==> IsNodeOf(rows, siblings[k])
  {
    var c := node.category.parentId;
    assert IsContainer(rows, rows[node.category.id].parent);
    ListOfIsTheContainer(rows, tree, c);
    if c.Some? {
      EveryRowIsFound(rows, tree, c.value);
    }
  }

  /** Two updates of different rows that move nothing are both served. */
  lemma {:induction false} TwoServed(rows: Rows, u: Update, v: Update)
    requires ParentsExist(rows) && u.id < |rows| && v.id < |rows| && u.id != v.id
    requires u.parent.None? && v.parent.None?
    ensures Serve(rows, [u, v]) == Some(rows[u.id := Patched(rows[u.id], u)][v.id := Patched(rows[v.id], v)])
  {
    var calls := [u, v];
    assert calls[0] == u && calls[1] == v;
    var after := SafeCallsAreServed(rows, calls, u.id);
    RealisedRowsAreUnique(rows, calls, after, rows[u.id := Patched(rows[u.id], u)][v.id := Patched(rows[v.id], v)]);
  }

  /** What one press sends: each of the two neighbours the displayOrder of the other, and nothing else. */
  lemma {:induction false} PressSends(rows: Rows, tree: seq<Node>, node: Node, i: nat, direction: int)
    requires IsPress(rows, tree, node, i, direction)
    ensures var a, b := node.category.id, ListOf(tree, node.category.parentId)[i + direction];
      && a < |rows| && b < |rows| && a != b
      && MoveCalls(tree, node, direction) ==
           [Update(a, Some(rows[b].displayOrder), None), Update(b, Some(rows[a].displayOrder), None)]
  {
    SiblingsAreTheList(rows, tree, node);
    var siblings, list := SiblingsOf(tree, node), ListOf(tree, node.category.parentId);
    var at := FindIndex(siblings, node.category.id);
    assert RootIds(siblings)[i] == siblings[i].category.id;
    assert at >= 0 && RootIds(siblings)[at] == node.category.id;
    assert at == i;
    var other := siblings[i + direction];
    assert RootIds(siblings)[i + direction] == other.category.id == list[i + direction];
    assert IsNodeOf(rows, other);
  }

  /** The two rows exchange their displayOrder, in whichever order the two requests land. */
  lemma {:induction false} PressExchanges(rows: Rows, tree: seq<Node>, node: Node, i: nat, direction: int)
    requires IsPress(rows, tree, node, i, direction)
    ensures var list := ListOf(tree, node.category.parentId);
      var calls, other := MoveCalls(tree, node, direction), list[i + direction];
      && |calls| == 2 && other < |rows| && other != node.category.id
      && Serve(rows, calls) == Some(Exchanged(rows, node.category.id, other))
      && Serve(rows, [calls[1], calls[0]]) == Some(Exchanged(rows, node.category.id, other))
  {
    PressSends(rows, tree, node, i, direction);
    var calls, other := MoveCalls(tree, node, direction), ListOf(tree, node.category.parentId)[i + direction];
    TwoServed(rows, calls[0], calls[1]);
    TwoServed(rows, calls[1], calls[0]);
    ExchangeTwice(rows, node.category.id, other);
  }

  /** At either end of its container a button sends nothing; in between it sends one update to each of the two. */
  lemma NothingAtTheEnds(rows: Rows, tree: seq<Node>, node: Node, i: nat, direction: int)
    requires Acyclic(rows) && Shows(rows, None, tree) && IsNodeOf(rows, node)
    requires var list := ListOf(tree, node.category.parentId); i < |list| && list[i] == node.category.id
    ensures MoveCalls(tree, node, direction) == [] <==>
      !(0 <= i + direction < |ListOf(tree, node.category.parentId)|)
  {
    SiblingsAreTheList(rows, tree, node);
    var siblings, list := SiblingsOf(tree, node), ListOf(tree, node.category.parentId);
    var at := FindIndex(siblings, node.category.id);
    assert RootIds(siblings)[i] == siblings[i].category.id;
    assert at >= 0 && list[at] == node.category.id;
  }

  /** After a press the other containers read back as before. */
  lemma PressKeepsOtherContainers(rows: Rows, tree: seq<Node>, node: Node, i: nat, direction: int, other: Id, e: Option<Id>)
    requires IsPress(rows, tree, node, i, direction) && other == ListOf(tree, node.category.parentId)[i + direction]
    requires other < |rows| && IsContainer(rows, e) && e != node.category.parentId
    ensures ListsChildren(Exchanged(rows, node.category.id, other), e, ListOf(tree, e))
  {
    SiblingsAreTheList(rows, tree, node);
    var list := ListOf(tree, node.category.parentId);
    assert list[i] in list && list[i + direction] in list;
    ListOfIsTheContainer(rows, tree, e);
    OthersKeepOrder(rows, ListOf(tree, e), node.category.id, other);
  }

  /**
   After a press the container reads back with the two neighbours exchanged exactly when their
   displayOrders differ and the outer neighbours still sort outside.
   */
  lemma PressSwapsExactly(rows: Rows, tree: seq<Node>, node: Node, i: nat, direction: int, list: seq<Id>)
    requires IsPress(rows, tree, node, i, direction) && list == ListOf(tree, node.category.parentId)
    ensures forall k :: 0 <= k < |list| ==> list[k] < |rows|
    ensures ListsChildren(Exchanged(rows, node.category.id, list[i + direction]), node.category.parentId,
                          Swapped(list, PairAt(i, direction)))
      <==> CanSwap(rows, list, PairAt(i, direction))
  {
    SiblingsAreTheList(rows, tree, node);
    assert forall k :: 0 <= k < |list| ==> list[k] in list;
    var p := PairAt(i, direction);
    SwapInOrderExactly(rows, list, p);
    ExchangeTwice(rows, list[p], list[p + 1]);
    SwappedMembers(list, p);
    ExchangeKeepsChildren(rows, list[p], list[p + 1], node.category.parentId, list, Swapped(list, p));
  }

  lemma ExchangeKeepsChildren(rows: Rows, a: Id, b: Id, c: Option<Id>, list: seq<Id>, swapped: seq<Id>)
    requires a < |rows| && b < |rows| && ListsChildren(rows, c, list)
    requires NoDuplicates(swapped) && forall x :: x in swapped <==> x in list
    ensures ListsChildren(Exchanged(rows, a, b), c, swapped) <==> InOrder(Exchanged(rows, a, b), swapped)
  {
  }

  lemma SwappedMembers(list: seq<Id>, p: nat)
    requires p + 1 < |list| && NoDuplicates(list)
    ensures NoDuplicates(Swapped(list, p)) && forall x :: x in Swapped(list, p) <==> x in list
  {
    var s := Swapped(list, p);
    forall x | x in list
      ensures x in s
    {
      var k :| 0 <= k < |list| && list[k] == x;
      assert s[if k == p then p + 1 else if k == p + 1 then p else k] == x;
    }
  }

  lemma OthersKeepOrder(rows: Rows, list: seq<Id>, a: Id, b: Id)
    requires a < |rows| && b < |rows| && a !in list && b !in list && InOrder(rows, list)
    ensures InOrder(Exchanged(rows, a, b), list)
  {
  }

  /** With different displayOrders throughout the container, every press is the exchange of two neighbours. */
  lemma DistinctOrdersAlwaysSwap(rows: Rows, list: seq<Id>, p: nat)
    requires p + 1 < |list| && InOrder(rows, list) && forall i :: 0 <= i < |list| ==> list[i] < |rows|
    requires forall i, k :: 0 <= i < k < |list| ==> rows[list[i]].displayOrder != rows[list[k]].displayOrder
    ensures CanSwap(rows, list, p)
  {
    assert KeyLess(rows, list[p], list[p + 1]);
    assert p > 0 ==> KeyLess(rows, list[p - 1], list[p]);
    assert p + 2 < |list| ==> KeyLess(rows, list[p + 1], list[p + 2]);
  }

  lemma ExchangeIsNothing(rows: Rows, a: Id, b: Id)
    requires a < |rows| && b < |rows|
    ensures Exchanged(rows, a, b) == rows <==> rows[a].displayOrder == rows[b].displayOrder
  {
  }

  /** A press changes no row exactly when the two displayOrders are equal, the default of new categories. */
  lemma TiesNeverMove(rows: Rows, tree: seq<Node>, node: Node, i: nat, direction: int)
    requires IsPress(rows, tree, node, i, direction)
    ensures var other := ListOf(tree, node.category.parentId)[i + direction];
      other < |rows|
      && (Serve(rows, MoveCalls(tree, node, direction)) == Some(rows) <==>
            rows[node.category.id].displayOrder == rows[other].displayOrder)
  {
    PressExchanges(rows, tree, node, i, direction);
    ExchangeIsNothing(rows, node.category.id, ListOf(tree, node.category.parentId)[i + direction]);
  }

  /** Down and then, on the page as re-read, up restores every row. */
  lemma DownThenUpRestores(rows: Rows, tree: seq<Node>, node: Node, i: nat, tree': seq<Node>, node': Node)
    requires IsPress(rows, tree, node, i, 1)
    requires var list := ListOf(tree, node.category.parentId);
      (forall k :: 0 <= k < |list| ==> list[k] < |rows|) && CanSwap(rows, list, i)
    requires var after := Exchanged(rows, node.category.id, ListOf(tree, node.category.parentId)[i + 1]);
      Shows(after, None, tree') && IsNodeOf(after, node') && node'.category.id == node.category.id
    ensures var down := MoveCalls(tree, node, 1);
      var up := MoveCalls(tree', node', -1);
      Serve(rows, down).Some? && Serve(Serve(rows, down).value, up) == Some(rows)
  {
    var c := node.category.parentId;
    var list := ListOf(tree, c);
    var a, b := node.category.id, list[i + 1];
    PressExchanges(rows, tree, node, i, 1);
    PressSwapsExactly(rows, tree, node, i, 1, list);
    var after := Exchanged(rows, a, b);
    ExchangeKeepsForest(rows, a, b);
    SiblingsAreTheList(rows, tree, node);
    ListOfIsTheContainer(after, tree', c);
    OrderIsUnique(after, ListOf(tree', c), Swapped(list, i));
    PressExchanges(after, tree', node', i + 1, -1);
    ExchangeTwice(rows, a, b);
  }

  lemma ExchangeKeepsForest(rows: Rows, a: Id, b: Id)
    requires Acyclic(rows) && NamesDistinct(rows) && a < |rows| && b < |rows|
    ensures Acyclic(Exchanged(rows, a, b)) && NamesDistinct(Exchanged(rows, a, b))
  {
    var after := Exchanged(rows, a, b);
    forall t: nat | t < |rows|
      ensures ParentsExist(after) && Under(after, None, t)
    {
      SameParentsSameUnder(rows, after, None, t);
      assert Under(rows, None, t);
    }
    SameParentsSameUnder(rows, after, None, a);
  }
}
