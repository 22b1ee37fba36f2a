/**
 How deep a tree the panel can show. Its query nests a fixed number of full levels and asks only for the ids of
 one more; rendering, with every category expanded as on a page just opened, reads the children of every
 category it meets and throws on such a bare id.
 */
module CategoryLevels {
  import opened Prelude
  import opened CategoryForest
  import opened CategoryRows
  import opened CategoryTree
  import opened CategoryUpdates
  import opened CategoryDrop
  import opened CategoryRoundTrip

  /** The full levels of the query. */
  const QUERY_LEVELS: nat := 5

  /** Rendering what the query returns for these nodes meets no category without its children. */
  predicate Renders(nodes: seq<Node>, levels: nat)
    decreases nodes
  {
    nodes != [] ==> levels > 0 && forall i :: 0 <= i < |nodes| ==> Renders(nodes[i].children, levels - 1)
  }

  ghost predicate FitsUnder(rows: Rows, c: Option<Id>, levels: int)
    requires ParentsExist(rows)
  {
    forall t: Id, k: nat :: t < |rows| && StepsTo(rows, t, k, c) ==> k <= levels
  }

  /** A container renders exactly when no category is more levels below it than the query asks for. */
  lemma {:induction false} RendersExactly(rows: Rows, c: Option<Id>, nodes: seq<Node>, levels: nat)
    requires ParentsExist(rows) && IsContainer(rows, c) && Shows(rows, c, nodes)
    ensures Renders(nodes, levels) <==> FitsUnder(rows, c, levels)
    decreases nodes
  {
    forall i | 0 <= i < |nodes|
      ensures nodes[i].category.id < |rows| && StepsTo(rows, nodes[i].category.id, 1, c)
      ensures levels > 0 ==>
        (Renders(nodes[i].children, levels - 1) <==> FitsUnder(rows, Some(nodes[i].category.id), levels - 1))
    {
      var a := nodes[i].category.id;
      assert RootIds(nodes)[i] == a && IsChild(rows, c, a);
      assert Up(rows, a, 0) == Some(a);
      if levels > 0 {
        RendersExactly(rows, Some(a), nodes[i].children, levels - 1);
      }
    }
    if FitsUnder(rows, c, levels) && nodes != [] {
      assert StepsTo(rows, nodes[0].category.id, 1, c);
      forall i | 0 <= i < |nodes|
        ensures FitsUnder(rows, Some(nodes[i].category.id), levels - 1)
      {
        assert RootIds(nodes)[i] == nodes[i].category.id && IsChild(rows, c, nodes[i].category.id);
        forall t: Id, k: nat | t < |rows| && StepsTo(rows, t, k, Some(nodes[i].category.id))
          ensures k <= levels - 1
        {
          assert StepsTo(rows, t, k + 1, c);
        }
      }
    }
    if Renders(nodes, levels) {
      forall t: Id, k: nat | t < |rows| && StepsTo(rows, t, k, c)
        ensures k <= levels
      {
        var a := Up(rows, t, k - 1).value;
        assert IsChild(rows, c, a) && a in RootIds(nodes);
        var i :| 0 <= i < |nodes| && RootIds(nodes)[i] == a;
        if k > 1 {
          NoneStays(rows, t, k - 1);
          assert StepsTo(rows, t, k - 1, Some(nodes[i].category.id));
        }
      }
    }
  }

  /** How many levels there are down to the container. */
  ghost predicate AtLevel(rows: Rows, c: Option<Id>, level: nat)
    requires ParentsExist(rows) && IsContainer(rows, c)
  {
    match c
    case None => level == 0
    case Some(t) => StepsTo(rows, t, level, None)
  }

  lemma OneWayUp(rows: Rows, t: Id, a: nat, b: nat)
    requires ParentsExist(rows) && t < |rows| && StepsTo(rows, t, a, None) && StepsTo(rows, t, b, None)
    ensures a == b
  {
    if a < b {
      UpPlus(rows, t, a, b - 1 - a);
    } else if b < a {
      UpPlus(rows, t, b, a - 1 - b);
    }
  }

  /** A category k levels below the moved one ends up that much below the target. */
  lemma LevelAfterMove(rows: Rows, d: Id, to: Option<Id>, level: nat, t: Id, k: nat) returns (m: nat)
    requires Acyclic(rows) && d < |rows| && t < |rows| && IsContainer(rows, to)
    requires !AtOrBelow(rows, d, to) && AtLevel(rows, to, level) && Up(rows, t, k) == Some(d)
    ensures m <= k && Up(rows, t, m) == Some(d)
    ensures ParentsExist(SetParent(rows, d, to)) && StepsTo(SetParent(rows, d, to), t, m + 1 + level, None)
  {
    var moved := SetParent(rows, d, to);
    m := ClimbAfterMove(rows, d, to, t, k);
    assert Up(moved, t, m) == Some(d);
    if to.Some? {
      SameElsewhere(rows, d, to, to.value, level);
      SameElsewhere(rows, d, to, to.value, level - 1);
      UpPlus(moved, t, m + 1, level);
      UpPlus(moved, t, m + 1, level - 1);
    }
  }

  lemma MeetsOnce(rows: Rows, t: Id, m: nat, k: nat, d: Id)
    requires Acyclic(rows) && t < |rows| && m <= k && Up(rows, t, m) == Some(d) && Up(rows, t, k) == Some(d)
    ensures m == k
  {
    if m < k {
      UpPlus(rows, t, m, k - m);
      MeetingIsAtOrBelow(rows, d, k - m, d);
      NoneStays(rows, d, k - m);
      assert StepsTo(rows, d, k - m, Some(d));
      assert Under(rows, None, d);
      NeverUnderItself(rows, d);
    }
  }

  lemma FitsAfterMove(rows: Rows, d: Id, to: Option<Id>, level: nat, levels: nat)
    requires Acyclic(rows) && d < |rows| && IsContainer(rows, to) && !AtOrBelow(rows, d, to)
    requires AtLevel(rows, to, level) && FitsUnder(rows, None, levels)
    ensures ParentsExist(SetParent(rows, d, to))
    ensures FitsUnder(SetParent(rows, d, to), None, levels) <==>
      level < levels && FitsUnder(rows, Some(d), levels - level - 1)
  {
    var moved := SetParent(rows, d, to);
    assert Up(rows, d, 0) == Some(d);
    var m0 := LevelAfterMove(rows, d, to, level, d, 0);
    if FitsUnder(moved, None, levels) {
      forall t: Id, k: nat | t < |rows| && StepsTo(rows, t, k, Some(d))
        ensures k <= levels - level - 1
      {
        var m := LevelAfterMove(rows, d, to, level, t, k);
        MeetsOnce(rows, t, m, k, d);
      }
    }
    if level < levels && FitsUnder(rows, Some(d), levels - level - 1) {
      forall t: Id, k: nat | t < |moved| && StepsTo(moved, t, k, None)
        ensures k <= levels
      {
        if AtOrBelow(rows, d, Some(t)) {
          var q := MeetingOf(rows, d, t);
          var m := LevelAfterMove(rows, d, to, level, t, q);
          OneWayUp(moved, t, k, m + 1 + level);
          if m > 0 {
            NoneStays(rows, t, m);
            assert StepsTo(rows, t, m, Some(d));
          }
        } else {
          SameElsewhere(rows, d, to, t, k);
          SameElsewhere(rows, d, to, t, k - 1);
          assert StepsTo(rows, t, k, None);
        }
      }
    }
  }

  lemma SameParentsFit(rows: Rows, after: Rows, levels: nat)
    requires ParentsExist(rows) && |after| == |rows|
    requires forall id :: 0 <= id < |rows| ==> after[id].parent == rows[id].parent
    ensures ParentsExist(after) && (FitsUnder(after, None, levels) <==> FitsUnder(rows, None, levels))
  {
    forall id | 0 <= id < |after|
      ensures IsContainer(after, after[id].parent)
    {
      assert IsContainer(rows, rows[id].parent);
    }
    forall t: Id, k: nat | t < |rows|
      ensures StepsTo(after, t, k, None) <==> StepsTo(rows, t, k, None)
    {
      SameParentsSameClimb(rows, after, t, k);
      if k > 0 {
        SameParentsSameClimb(rows, after, t, k - 1);
      }
    }
  }

  /**
   A drop on a page that renders leads to a page that renders exactly when the dragged category and everything
   below it still fit under the target. Neither the page nor the server asks.
   */
  lemma DropRendersExactly(rows: Rows, tree: seq<Node>, d: Id, to: Option<Id>, j: nat, level: nat, node: Node)
    requires IsDrop(rows, tree, d, to, j) && Renders(tree, QUERY_LEVELS)
    requires AtLevel(rows, to, level) && FindNodeById(tree, d) == Some(node)
    ensures var after := RowsAfter(rows, tree, d, to, j);
      && Acyclic(after) && NamesDistinct(after)
      && (Renders(BuildTree(after, None), QUERY_LEVELS) <==>
            level < QUERY_LEVELS && Renders(node.children, QUERY_LEVELS - level - 1))
  {
    var after := RowsAfter(rows, tree, d, to, j);
    RowsAfterAreAForest(rows, tree, d, to, j);
    BuildShows(after, None);
    RendersExactly(after, None, BuildTree(after, None), QUERY_LEVELS);
    RendersExactly(rows, None, tree, QUERY_LEVELS);
    EveryRowIsFound(rows, tree, d);
    if level < QUERY_LEVELS {
      RendersExactly(rows, Some(d), node.children, QUERY_LEVELS - level - 1);
    }
    OnMoveIsExact(rows, tree, d, to);
    MoveKeepsForestExactly(rows, d, to);
    FitsAfterMove(rows, d, to, level, QUERY_LEVELS);
    forall id: Id | id < |rows|
      ensures after[id].parent == SetParent(rows, d, to)[id].parent
    {
      OnlyTheDraggedMoves(rows, tree, d, to, j, id);
    }
    SameParentsFit(SetParent(rows, d, to), after, QUERY_LEVELS);
  }
}
