/**
 The category tree as the admin panel holds it, and the recursive queries on it: the flat list with
 depths, the descendants of a node, the lookup by id.
 */
module CategoryForest {
  import opened Prelude

  type Id = nat

  /** The name stands for its rank in the database's name order; names are unique. */
  datatype Category = Category(id: Id, name: nat, displayOrder: int, parentId: Option<Id>)
  datatype Node = Node(category: Category, children: seq<Node>)
  datatype Line = Line(category: Category, depth: nat)

  /** How many nodes the forest has. */
  function Size(nodes: seq<Node>): nat {
    if nodes == [] then 0 else 1 + Size(nodes[0].children) + Size(nodes[1..])
  }

  function FlattenTree(nodes: seq<Node>, depth: nat): (lines: seq<Line>)
    ensures |lines| == Size(nodes)
  {
    if nodes == [] then [] else
    [Line(nodes[0].category, depth)] + FlattenTree(nodes[0].children, depth + 1) + FlattenTree(nodes[1..], depth)
  }

  function IdSet(nodes: seq<Node>): set<Id> {
    if nodes == [] then {} else
    {nodes[0].category.id} + IdSet(nodes[0].children) + IdSet(nodes[1..])
  }

  function DescendantIds(node: Node): set<Id> {
    IdSet(node.children)
  }

  function FindNodeById(nodes: seq<Node>, id: Id): Option<Node> {
    if nodes == [] then None else
    if nodes[0].category.id == id then Some(nodes[0]) else
    match FindNodeById(nodes[0].children, id)
    case Some(n) => Some(n)
    case None => FindNodeById(nodes[1..], id)
  }

  // ---- The flat list determines the tree ----------------------------------------

  /** How many lines at the front lie deeper than the given depth. */
  function DeeperRun(lines: seq<Line>, depth: nat): (n: nat)
    ensures n <= |lines|
  {
    if lines == [] || lines[0].depth <= depth then 0 else 1 + DeeperRun(lines[1..], depth)
  }

  /** Reads the tree back from the depths alone. */
  function Decode(lines: seq<Line>, depth: nat): seq<Node>
    decreases |lines|
  {
    if lines == [] then [] else
    var n := DeeperRun(lines[1..], depth);
    [Node(lines[0].category, Decode(lines[1..1 + n], depth + 1))] + Decode(lines[1 + n..], depth)
  }

  ghost predicate AtLeast(lines: seq<Line>, depth: nat) {
    forall i :: 0 <= i < |lines| ==> lines[i].depth >= depth
  }

  ghost predicate StepsDown(lines: seq<Line>) {
    forall i, j :: 0 <= i < |lines| && j == i + 1 && j < |lines| ==> lines[j].depth <= lines[i].depth + 1
  }

  /** The depths of a list that some tree has: it starts at the top and goes down one level at a time. */
  ghost predicate IsOutline(lines: seq<Line>, depth: nat) {
    (lines != [] ==> lines[0].depth == depth) && AtLeast(lines, depth) && StepsDown(lines)
  }

  lemma SliceStepsDown(lines: seq<Line>, a: nat, b: nat)
    requires StepsDown(lines) && a <= b <= |lines|
    ensures StepsDown(lines[a..b])
  {
  }

  lemma {:induction false} FlatIsOutline(nodes: seq<Node>, depth: nat)
    ensures IsOutline(FlattenTree(nodes, depth), depth)
  {
    if nodes != [] {
      FlatIsOutline(nodes[0].children, depth + 1);
      FlatIsOutline(nodes[1..], depth);
    }
  }

  lemma {:induction false} RunEndsWhereRestBegins(below: seq<Line>, rest: seq<Line>, depth: nat)
    requires forall i :: 0 <= i < |below| ==> below[i].depth > depth
    requires rest != [] ==> rest[0].depth <= depth
    ensures DeeperRun(below + rest, depth) == |below|
  {
    if below == [] {
      assert below + rest == rest;
    } else {
      assert (below + rest)[1..] == below[1..] + rest;
      RunEndsWhereRestBegins(below[1..], rest, depth);
    }
  }

  lemma DecodeStep(head: Line, below: seq<Line>, rest: seq<Line>, depth: nat)
    requires forall i :: 0 <= i < |below| ==> below[i].depth > depth
    requires rest != [] ==> rest[0].depth <= depth
    ensures Decode([head] + below + rest, depth) == [Node(head.category, Decode(below, depth + 1))] + Decode(rest, depth)
  {
    var lines := [head] + below + rest;
    RunEndsWhereRestBegins(below, rest, depth);
    assert lines[1..] == below + rest;
    assert lines[1..1 + |below|] == below && lines[1 + |below|..] == rest;
  }

  lemma {:induction false} DecodeUndoesFlatten(nodes: seq<Node>, depth: nat)
    ensures Decode(FlattenTree(nodes, depth), depth) == nodes
  {
    if nodes != [] {
      var below, rest := FlattenTree(nodes[0].children, depth + 1), FlattenTree(nodes[1..], depth);
      FlatIsOutline(nodes[0].children, depth + 1);
      FlatIsOutline(nodes[1..], depth);
      DecodeStep(Line(nodes[0].category, depth), below, rest, depth);
      DecodeUndoesFlatten(nodes[0].children, depth + 1);
      DecodeUndoesFlatten(nodes[1..], depth);
      assert nodes == [nodes[0]] + nodes[1..];
    }
  }

  lemma {:induction false} RunIsDeeper(lines: seq<Line>, depth: nat)
    ensures forall i :: 0 <= i < DeeperRun(lines, depth) ==> lines[i].depth > depth
    ensures DeeperRun(lines, depth) < |lines| ==> lines[DeeperRun(lines, depth)].depth <= depth
  {
    if lines != [] && lines[0].depth > depth {
      RunIsDeeper(lines[1..], depth);
    }
  }

  /** Where the first node's own lines end. */
  lemma FirstRun(lines: seq<Line>, depth: nat) returns (n: nat)
    requires lines != []
    ensures n == DeeperRun(lines[1..], depth) && 1 + n <= |lines|
    ensures forall i :: 1 <= i <= n ==> lines[i].depth > depth
    ensures 1 + n < |lines| ==> lines[1 + n].depth <= depth
  {
    var tail := lines[1..];
    n := DeeperRun(tail, depth);
    RunIsDeeper(tail, depth);
    assert forall i :: 1 <= i < |lines| ==> lines[i] == tail[i - 1];
  }

  lemma SplitOutline(lines: seq<Line>, depth: nat) returns (below: seq<Line>, rest: seq<Line>)
    requires lines != [] && IsOutline(lines, depth)
    ensures lines == [lines[0]] + below + rest
    ensures IsOutline(below, depth + 1) && IsOutline(rest, depth)
  {
    var n := FirstRun(lines, depth);
    below, rest := lines[1..1 + n], lines[1 + n..];
    SliceStepsDown(lines, 1, 1 + n);
    SliceStepsDown(lines, 1 + n, |lines|);
    assert below != [] ==> lines[1].depth <= lines[0].depth + 1;
  }

  lemma {:induction false} FlattenUndoesDecode(lines: seq<Line>, depth: nat)
    requires IsOutline(lines, depth)
    ensures FlattenTree(Decode(lines, depth), depth) == lines
    decreases |lines|
  {
    if lines != [] {
      var below, rest := SplitOutline(lines, depth);
      DecodeStep(lines[0], below, rest, depth);
      FlattenUndoesDecode(below, depth + 1);
      FlattenUndoesDecode(rest, depth);
      var nodes := Decode(lines, depth);
      assert nodes[1..] == Decode(rest, depth);
    }
  }

  // ---- Descendants are a run of the list -------------------------------------------

  /** The node that stands on a line of the flat list. */
  function NodeOnLine(nodes: seq<Node>, i: nat): Node
    requires i < Size(nodes)
  {
    var n := Size(nodes[0].children);
    if i == 0 then nodes[0]
    else if i - 1 < n then NodeOnLine(nodes[0].children, i - 1)
    else NodeOnLine(nodes[1..], i - 1 - n)
  }

  function IdsOf(lines: seq<Line>): set<Id> {
    if lines == [] then {} else {lines[0].category.id} + IdsOf(lines[1..])
  }

  lemma {:induction false} IdsOfConcat(a: seq<Line>, b: seq<Line>)
    ensures IdsOf(a + b) == IdsOf(a) + IdsOf(b)
  {
    if a == [] {
      assert a + b == b;
    } else {
      assert (a + b)[1..] == a[1..] + b;
      IdsOfConcat(a[1..], b);
    }
  }

  lemma {:induction false} FlatIds(nodes: seq<Node>, depth: nat)
    ensures IdsOf(FlattenTree(nodes, depth)) == IdSet(nodes)
  {
    if nodes != [] {
      var head, below, rest := [Line(nodes[0].category, depth)], FlattenTree(nodes[0].children, depth + 1), FlattenTree(nodes[1..], depth);
      FlatIds(nodes[0].children, depth + 1);
      FlatIds(nodes[1..], depth);
      IdsOfConcat(head, below);
      IdsOfConcat(head + below, rest);
    }
  }

  /** The run that follows line i at greater depth. */
  function RunBelow(lines: seq<Line>, i: nat): seq<Line>
    requires i < |lines|
  {
    lines[i + 1..][..DeeperRun(lines[i + 1..], lines[i].depth)]
  }

  lemma RunAfterPrefix(a: seq<Line>, lines: seq<Line>, k: nat)
    requires k < |lines|
    ensures RunBelow(a + lines, |a| + k) == RunBelow(lines, k)
  {
    assert (a + lines)[|a| + k + 1..] == lines[k + 1..];
  }

  lemma RunBeforeSuffix(below: seq<Line>, rest: seq<Line>, k: nat)
    requires k < |below| && (rest != [] ==> rest[0].depth <= below[k].depth)
    ensures RunBelow(below + rest, k) == RunBelow(below, k)
  {
    var tail := below[k + 1..];
    assert (below + rest)[k + 1..] == tail + rest;
    RunStopsAtRest(tail, rest, below[k].depth);
    var n := DeeperRun(tail, below[k].depth);
    assert (tail + rest)[..n] == tail[..n];
  }

  lemma RunOfHead(head: Line, below: seq<Line>, rest: seq<Line>)
    requires forall i :: 0 <= i < |below| ==> below[i].depth > head.depth
    requires rest != [] ==> rest[0].depth <= head.depth
    ensures RunBelow([head] + below + rest, 0) == below
  {
    RunEndsWhereRestBegins(below, rest, head.depth);
    assert ([head] + below + rest)[1..] == below + rest;
  }

  lemma {:induction false} LineShowsItsNode(nodes: seq<Node>, depth: nat, i: nat)
    requires i < Size(nodes)
    ensures FlattenTree(nodes, depth)[i].category == NodeOnLine(nodes, i).category
  {
    var n := Size(nodes[0].children);
    if 0 < i && i - 1 < n {
      LineShowsItsNode(nodes[0].children, depth + 1, i - 1);
    } else if 0 < i {
      LineShowsItsNode(nodes[1..], depth, i - 1 - n);
    }
  }

  lemma RunOfFirst(nodes: seq<Node>, depth: nat)
    requires nodes != []
    ensures RunBelow(FlattenTree(nodes, depth), 0) == FlattenTree(nodes[0].children, depth + 1)
  {
    FlatIsOutline(nodes[0].children, depth + 1);
    FlatIsOutline(nodes[1..], depth);
    RunOfHead(Line(nodes[0].category, depth), FlattenTree(nodes[0].children, depth + 1), FlattenTree(nodes[1..], depth));
  }

  lemma RunAmongChildren(nodes: seq<Node>, depth: nat, k: nat)
    requires nodes != [] && k < Size(nodes[0].children)
    ensures FlattenTree(nodes, depth)[k + 1] == FlattenTree(nodes[0].children, depth + 1)[k]
    ensures RunBelow(FlattenTree(nodes, depth), k + 1) == RunBelow(FlattenTree(nodes[0].children, depth + 1), k)
  {
    var head := [Line(nodes[0].category, depth)];
    var below, rest := FlattenTree(nodes[0].children, depth + 1), FlattenTree(nodes[1..], depth);
    FlatIsOutline(nodes[0].children, depth + 1);
    FlatIsOutline(nodes[1..], depth);
    RunBeforeSuffix(below, rest, k);
    RunAfterPrefix(head, below + rest, k);
    assert head + (below + rest) == head + below + rest;
  }

  /** The run below a line is its node's subtree, flattened one level deeper. */
  ghost predicate RunFits(nodes: seq<Node>, depth: nat, i: nat)
    requires i < Size(nodes)
  {
    RunBelow(FlattenTree(nodes, depth), i)
      == FlattenTree(NodeOnLine(nodes, i).children, FlattenTree(nodes, depth)[i].depth + 1)
  }

  lemma FitsAmongChildren(nodes: seq<Node>, depth: nat, i: nat)
    requires nodes != [] && 0 < i <= Size(nodes[0].children) && RunFits(nodes[0].children, depth + 1, i - 1)
    ensures RunFits(nodes, depth, i)
  {
    RunAmongChildren(nodes, depth, i - 1);
    assert NodeOnLine(nodes, i) == NodeOnLine(nodes[0].children, i - 1);
  }

  lemma FitsAmongNext(nodes: seq<Node>, depth: nat, i: nat)
    requires nodes != [] && Size(nodes[0].children) < i < Size(nodes)
    requires RunFits(nodes[1..], depth, i - 1 - Size(nodes[0].children))
    ensures RunFits(nodes, depth, i)
  {
  }

  lemma FitsFirst(nodes: seq<Node>, depth: nat)
    requires nodes != []
    ensures RunFits(nodes, depth, 0)
  {
    RunOfFirst(nodes, depth);
  }

  lemma {:induction false} RunIsTheSubtree(nodes: seq<Node>, depth: nat, i: nat)
    requires i < Size(nodes)
    ensures RunFits(nodes, depth, i)
  {
    var n := Size(nodes[0].children);
    if i == 0 {
      FitsFirst(nodes, depth);
    } else if i - 1 < n {
      RunIsTheSubtree(nodes[0].children, depth + 1, i - 1);
      FitsAmongChildren(nodes, depth, i);
    } else {
      RunIsTheSubtree(nodes[1..], depth, i - 1 - n);
      FitsAmongNext(nodes, depth, i);
    }
  }

  /** Descendants of the node on a line are exactly the ids of the run that follows at greater depth. */
  lemma DescendantsAreTheRun(nodes: seq<Node>, depth: nat, i: nat)
    requires i < Size(nodes)
    ensures var lines := FlattenTree(nodes, depth);
      && lines[i].category == NodeOnLine(nodes, i).category
      && DescendantIds(NodeOnLine(nodes, i)) == IdsOf(RunBelow(lines, i))
  {
    LineShowsItsNode(nodes, depth, i);
    RunIsTheSubtree(nodes, depth, i);
    FlatIds(NodeOnLine(nodes, i).children, FlattenTree(nodes, depth)[i].depth + 1);
  }

  lemma {:induction false} RunStopsAtRest(below: seq<Line>, rest: seq<Line>, depth: nat)
    requires rest != [] ==> rest[0].depth <= depth
    ensures DeeperRun(below + rest, depth) == DeeperRun(below, depth)
  {
    if below == [] {
      assert below + rest == rest;
    } else {
      assert (below + rest)[1..] == below[1..] + rest;
      RunStopsAtRest(below[1..], rest, depth);
    }
  }

  // ---- The panel's loops -------------------------------------------------------------

  lemma NextNode(rows: seq<Line>, nodes: seq<Node>, i: nat, depth: nat)
    requires i < |nodes|
    ensures rows + FlattenTree(nodes[i..], depth) ==
      rows + [Line(nodes[i].category, depth)] + FlattenTree(nodes[i].children, depth + 1) + FlattenTree(nodes[i + 1..], depth)
  {
  }

  method Flatten(nodes: seq<Node>, depth: nat) returns (rows: seq<Line>)
    ensures rows == FlattenTree(nodes, depth)
  {
    rows := [];
    for i := 0 to |nodes|
      invariant FlattenTree(nodes, depth) == rows + FlattenTree(nodes[i..], depth)
    {
      var node := nodes[i];
      NextNode(rows, nodes, i, depth);
      var below := [];
      if node.children != [] {
        below := Flatten(node.children, depth + 1);
      }
      rows := rows + [Line(node.category, depth)] + below;
    }
  }

  /** Fills one shared set, as the panel's accumulator does. */
  method CollectDescendantIds(node: Node, acc: set<Id>) returns (ids: set<Id>)
    ensures ids == acc + DescendantIds(node)
    decreases node
  {
    ids := acc;
    var children := node.children;
    for i := 0 to |children|
      invariant acc + IdSet(children) == ids + IdSet(children[i..])
    {
      assert children[i..][0] == children[i] && children[i..][1..] == children[i + 1..];
      ids := ids + {children[i].category.id};
      ids := CollectDescendantIds(children[i], ids);
    }
  }
}
