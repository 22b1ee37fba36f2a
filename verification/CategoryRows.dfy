/**
 The stored categories: rows with parent links. What it takes for them to be a forest, the tree
 that is read back from them, and the exactness of the panel's cycle checks.
 */
module CategoryRows {
  import opened Prelude
  import opened CategoryForest

  /** A row's id is its position. */
  datatype Row = Row(name: nat, displayOrder: int, parent: Option<Id>)
  type Rows = seq<Row>

  /** The foreign key on parentId. */
  ghost predicate ParentsExist(rows: Rows) {
    forall id :: 0 <= id < |rows| ==> IsContainer(rows, rows[id].parent)
  }

  predicate IsContainer(rows: Rows, c: Option<Id>) {
    c.Some? ==> c.value < |rows|
  }

  /** The unique index on name. */
  ghost predicate NamesDistinct(rows: Rows) {
    forall a, b :: 0 <= a < b < |rows| ==> rows[a].name != rows[b].name
  }

  // ---- Climbing ----------------------------------------------------------------

  /** The category k levels up; None above the root. */
  function Up(rows: Rows, t: Id, k: nat): (a: Option<Id>)
    requires ParentsExist(rows) && t < |rows|
    ensures a.Some? ==> a.value < |rows|
  {
    if k == 0 then Some(t) else
    match Up(rows, t, k - 1)
    case None => None
    case Some(b) => rows[b].parent
  }

  ghost predicate StepsTo(rows: Rows, t: Id, k: nat, c: Option<Id>)
    requires ParentsExist(rows) && t < |rows|
  {
    k > 0 && Up(rows, t, k - 1).Some? && Up(rows, t, k) == c
  }

  /** The category lies in the container, at whatever level; in None when its parents lead to the root. */
  ghost predicate Under(rows: Rows, c: Option<Id>, t: Id)
    requires ParentsExist(rows) && t < |rows|
  {
    exists k :: StepsTo(rows, t, k, c)
  }

  /** A forest: from every category the parents lead to the root. */
  ghost predicate Acyclic(rows: Rows) {
    ParentsExist(rows) && forall t :: 0 <= t < |rows| ==> Under(rows, None, t)
  }

  lemma {:induction false} UpPlus(rows: Rows, t: Id, j: nat, k: nat)
    requires ParentsExist(rows) && t < |rows|
    ensures Up(rows, t, j).Some? ==> Up(rows, t, j + k) == Up(rows, Up(rows, t, j).value, k)
    ensures Up(rows, t, j).None? ==> Up(rows, t, j + k) == None
  {
    if k > 0 {
      UpPlus(rows, t, j, k - 1);
    }
  }

  lemma {:induction false} LoopsForever(rows: Rows, t: Id, k: nat, n: nat)
    requires ParentsExist(rows) && t < |rows| && k > 0 && Up(rows, t, k) == Some(t)
    ensures Up(rows, t, n).Some?
    decreases n
  {
    if n < k {
      UpPlus(rows, t, n, k - n);
    } else {
      UpPlus(rows, t, k, n - k);
      LoopsForever(rows, t, k, n - k);
    }
  }

  lemma NeverUnderItself(rows: Rows, t: Id)
    requires ParentsExist(rows) && t < |rows| && Under(rows, None, t)
    ensures !Under(rows, Some(t), t)
  {
    if Under(rows, Some(t), t) {
      var k :| StepsTo(rows, t, k, Some(t));
      var n :| StepsTo(rows, t, n, None);
      LoopsForever(rows, t, k, n);
      assert false;
    }
  }

  /** The first time the climb meets d. */
  lemma FirstMeeting(rows: Rows, t: Id, k: nat, d: Id) returns (m: nat)
    requires ParentsExist(rows) && t < |rows| && Up(rows, t, k) == Some(d)
    ensures m <= k && Up(rows, t, m) == Some(d)
    ensures forall i :: 0 <= i < m ==> Up(rows, t, i) != Some(d)
    decreases k
  {
    if exists i: nat :: i < k && Up(rows, t, i) == Some(d) {
      var i: nat :| i < k && Up(rows, t, i) == Some(d);
      m := FirstMeeting(rows, t, i, d);
    } else {
      m := k;
    }
  }

  // ---- Moving a category under another -----------------------------------------

  function SetParent(rows: Rows, d: Id, p: Option<Id>): Rows
    requires d < |rows|
  {
    rows[d := rows[d].(parent := p)]
  }

  lemma {:induction false} SameBeforeMeeting(rows: Rows, d: Id, p: Option<Id>, t: Id, k: nat)
    requires ParentsExist(rows) && d < |rows| && IsContainer(rows, p) && t < |rows|
    requires forall i: nat :: i < k ==> Up(rows, t, i) != Some(d)
    ensures ParentsExist(SetParent(rows, d, p)) && Up(SetParent(rows, d, p), t, k) == Up(rows, t, k)
  {
    if k > 0 {
      SameBeforeMeeting(rows, d, p, t, k - 1);
    }
  }

  /** A target at or below the moved category closes a loop. */
  lemma MoveBelowItselfLoops(rows: Rows, d: Id, t: Id, k: nat)
    requires ParentsExist(rows) && d < |rows| && t < |rows| && Up(rows, t, k) == Some(d)
    ensures !Acyclic(SetParent(rows, d, Some(t)))
  {
    var moved := SetParent(rows, d, Some(t));
    var m := FirstMeeting(rows, t, k, d);
    SameBeforeMeeting(rows, d, Some(t), t, m);
    UpPlus(moved, d, 1, m);
    assert Up(moved, d, 0) == Some(d);
    assert Up(moved, d, 1) == Some(t);
    UpPlus(moved, d, 0, m);
    assert StepsTo(moved, d, m + 1, Some(d)) by {
      UpPlus(moved, d, m, 1);
      if m > 0 {
        UpPlus(moved, d, 1, m - 1);
      }
    }
    if Acyclic(moved) {
      NeverUnderItself(moved, d);
    }
  }

  /** Any other target keeps every category on a way to the root. */
  lemma MoveElsewhereClimbs(rows: Rows, d: Id, p: Option<Id>, x: Id)
    requires Acyclic(rows) && d < |rows| && x < |rows| && IsContainer(rows, p)
    requires p.Some? ==> p.value != d && !Under(rows, Some(d), p.value)
    ensures ParentsExist(SetParent(rows, d, p)) && Under(SetParent(rows, d, p), None, x)
  {
    var moved := SetParent(rows, d, p);
    if i: nat :| Up(rows, x, i) == Some(d) {
      var m := FirstMeeting(rows, x, i, d);
      SameBeforeMeeting(rows, d, p, x, m);
      assert Up(moved, x, m + 1) == p;
      if p == None {
        assert StepsTo(moved, x, m + 1, None);
      } else {
        TargetClimbs(rows, d, p, p.value);
        var n :| StepsTo(moved, p.value, n, None);
        UpPlus(moved, x, m + 1, n);
        UpPlus(moved, x, m + 1, n - 1);
        assert StepsTo(moved, x, m + 1 + n, None);
      }
    } else {
      TargetClimbs(rows, d, p, x);
    }
  }

  lemma TargetClimbs(rows: Rows, d: Id, p: Option<Id>, x: Id)
    requires Acyclic(rows) && d < |rows| && x < |rows| && IsContainer(rows, p)
    requires (x != d && !Under(rows, Some(d), x)) || forall i: nat :: Up(rows, x, i) != Some(d)
    ensures ParentsExist(SetParent(rows, d, p)) && Under(SetParent(rows, d, p), None, x)
  {
    assert Under(rows, None, x);
    var n: nat :| StepsTo(rows, x, n, None);
    forall i: nat
      ensures Up(rows, x, i) != Some(d)
    {
      if Up(rows, x, i) == Some(d) && i > 0 {
        NoneStays(rows, x, i);
        assert StepsTo(rows, x, i, Some(d));
      }
    }
    SameBeforeMeeting(rows, d, p, x, n);
    SameBeforeMeeting(rows, d, p, x, n - 1);
    assert StepsTo(SetParent(rows, d, p), x, n, None);
  }

  lemma NoneStays(rows: Rows, t: Id, k: nat)
    requires ParentsExist(rows) && t < |rows| && k > 0 && Up(rows, t, k).Some?
    ensures Up(rows, t, k - 1).Some?
  {
  }

  /** Moving a category keeps the rows a forest exactly when the target is neither itself nor below it. */
  lemma MoveKeepsForestExactly(rows: Rows, d: Id, p: Option<Id>)
    requires Acyclic(rows) && d < |rows| && IsContainer(rows, p)
    ensures Acyclic(SetParent(rows, d, p)) <==> (p.Some? ==> p.value != d && !Under(rows, Some(d), p.value))
  {
    if p.Some? && p.value == d {
      assert Up(rows, d, 0) == Some(d);
      MoveBelowItselfLoops(rows, d, d, 0);
    } else if p.Some? && Under(rows, Some(d), p.value) {
      var k :| StepsTo(rows, p.value, k, Some(d));
      MoveBelowItselfLoops(rows, d, p.value, k);
    } else {
      forall x: nat | x < |rows|
        ensures ParentsExist(SetParent(rows, d, p)) && Under(SetParent(rows, d, p), None, x)
      {
        MoveElsewhereClimbs(rows, d, p, x);
      }
      MoveElsewhereClimbs(rows, d, p, d);
    }
  }

  // ---- Reading the tree back -------------------------------------------------------

  /** The order of siblings: displayOrder, then name. */
  predicate KeyLess(rows: Rows, a: Id, b: Id) {
    a < |rows| && b < |rows|
    && (rows[a].displayOrder < rows[b].displayOrder
        || (rows[a].displayOrder == rows[b].displayOrder && rows[a].name < rows[b].name))
  }

  predicate IsChild(rows: Rows, c: Option<Id>, id: Id) {
    id < |rows| && rows[id].parent == c
  }

  ghost predicate InOrder(rows: Rows, ids: seq<Id>) {
    forall i, j :: 0 <= i < j < |ids| ==> KeyLess(rows, ids[i], ids[j])
  }

  /** The list is what the container reads back as. */
  ghost predicate ListsChildren(rows: Rows, c: Option<Id>, ids: seq<Id>) {
    && NoDuplicates(ids)
    && (forall id :: id in ids <==> IsChild(rows, c, id))
    && InOrder(rows, ids)
  }

  function RootIds(nodes: seq<Node>): seq<Id> {
    seq(|nodes|, i requires 0 <= i < |nodes| => nodes[i].category.id)
  }

  function CategoryOf(rows: Rows, id: Id): Category
    requires id < |rows|
  {
    Category(id, rows[id].name, rows[id].displayOrder, rows[id].parent)
  }

  predicate IsNodeOf(rows: Rows, node: Node) {
    node.category.id < |rows| && node.category == CategoryOf(rows, node.category.id)
  }

  /** The nodes are what container c reads back as, all the way down. */
  ghost predicate Shows(rows: Rows, c: Option<Id>, nodes: seq<Node>)
    decreases nodes
  {
    && ListsChildren(rows, c, RootIds(nodes))
    && forall i :: 0 <= i < |nodes| ==>
         IsNodeOf(rows, nodes[i]) && Shows(rows, Some(nodes[i].category.id), nodes[i].children)
  }

  // ---- The panel's queries on the tree that was read back ----------------------------

  lemma {:induction false} IdSetMember(nodes: seq<Node>, t: Id)
    ensures t in IdSet(nodes) <==>
      exists i :: 0 <= i < |nodes| && (t == nodes[i].category.id || t in IdSet(nodes[i].children))
  {
    if nodes != [] {
      IdSetMember(nodes[1..], t);
      if t in IdSet(nodes[1..]) {
        var i :| 0 <= i < |nodes[1..]| && (t == nodes[1..][i].category.id || t in IdSet(nodes[1..][i].children));
        assert nodes[i + 1] == nodes[1..][i];
      }
      if i :| 0 <= i < |nodes| && (t == nodes[i].category.id || t in IdSet(nodes[i].children)) {
        assert i > 0 ==> nodes[1..][i - 1] == nodes[i];
      }
    }
  }

  /** The ids in the part of the tree below a container are the categories that climb to it. */
  lemma {:induction false} IdsClimb(rows: Rows, c: Option<Id>, nodes: seq<Node>, t: Id)
    requires ParentsExist(rows) && IsContainer(rows, c) && Shows(rows, c, nodes) && t in IdSet(nodes)
    ensures t < |rows| && Under(rows, c, t)
    decreases nodes
  {
    IdSetMember(nodes, t);
    var i :| 0 <= i < |nodes| && (t == nodes[i].category.id || t in IdSet(nodes[i].children));
    var a := nodes[i].category.id;
    assert RootIds(nodes)[i] == a;
    assert IsChild(rows, c, a);
    if t == a {
      assert Up(rows, a, 0) == Some(a);
      assert StepsTo(rows, a, 1, c);
    } else {
      IdsClimb(rows, Some(a), nodes[i].children, t);
      var k: nat :| StepsTo(rows, t, k, Some(a));
      assert StepsTo(rows, t, k + 1, c);
    }
  }

  lemma {:induction false} ClimbersAreIds(rows: Rows, c: Option<Id>, nodes: seq<Node>, t: Id, k: nat)
    requires ParentsExist(rows) && Shows(rows, c, nodes) && t < |rows| && StepsTo(rows, t, k, c)
    ensures t in IdSet(nodes)
    decreases k
  {
    var a := Up(rows, t, k - 1).value;
    assert IsChild(rows, c, a);
    assert a in RootIds(nodes);
    var i :| 0 <= i < |nodes| && RootIds(nodes)[i] == a;
    if k > 1 {
      NoneStays(rows, t, k - 1);
      ClimbersAreIds(rows, Some(a), nodes[i].children, t, k - 1);
    }
    IdSetMember(nodes, t);
  }

  /** Whatever the lookup finds is the row, with what the row's own container reads back as. */
  lemma {:induction false} FoundIsTheRow(rows: Rows, c: Option<Id>, nodes: seq<Node>, id: Id, n: nat)
    requires Shows(rows, c, nodes) && n <= |nodes| && FindNodeById(nodes[n..], id).Some?
    ensures var node := FindNodeById(nodes[n..], id).value;
      node.category.id == id && IsNodeOf(rows, node) && Shows(rows, Some(id), node.children)
    decreases nodes, |nodes| - n
  {
    assert nodes[n..][0] == nodes[n] && nodes[n..][1..] == nodes[n + 1..];
    if nodes[n].category.id != id {
      if FindNodeById(nodes[n].children, id).Some? {
        assert nodes[n].children[0..] == nodes[n].children;
        FoundIsTheRow(rows, Some(nodes[n].category.id), nodes[n].children, id, 0);
      } else {
        FoundIsTheRow(rows, c, nodes, id, n + 1);
      }
    }
  }

  lemma {:induction false} IdsAreFound(nodes: seq<Node>, id: Id)
    ensures id in IdSet(nodes) <==> FindNodeById(nodes, id).Some?
  {
    if nodes != [] {
      IdsAreFound(nodes[0].children, id);
      IdsAreFound(nodes[1..], id);
    }
  }

  /** In the tree read back from a forest, lookup by id is total and exact. */
  lemma EveryRowIsFound(rows: Rows, tree: seq<Node>, id: Id)
    requires Acyclic(rows) && Shows(rows, None, tree)
    ensures FindNodeById(tree, id).Some? <==> id < |rows|
    ensures FindNodeById(tree, id).Some? ==>
      var node := FindNodeById(tree, id).value;
      node.category == CategoryOf(rows, id) && Shows(rows, Some(id), node.children)
  {
    IdsAreFound(tree, id);
    assert tree[0..] == tree;
    if id < |rows| {
      assert Under(rows, None, id);
      var k: nat :| StepsTo(rows, id, k, None);
      ClimbersAreIds(rows, None, tree, id, k);
      FoundIsTheRow(rows, None, tree, id, 0);
    } else if id in IdSet(tree) {
      IdsClimb(rows, None, tree, id);
    }
  }

  /** The collected ids are exactly the categories below. */
  lemma DescendantsAreBelow(rows: Rows, tree: seq<Node>, d: Id, t: Id)
    requires Acyclic(rows) && Shows(rows, None, tree) && d < |rows|
    ensures var found := FindNodeById(tree, d);
      found.Some? && (t in DescendantIds(found.value) <==> t < |rows| && Under(rows, Some(d), t))
  {
    EveryRowIsFound(rows, tree, d);
    var node := FindNodeById(tree, d).value;
    if t in IdSet(node.children) {
      IdsClimb(rows, Some(d), node.children, t);
    }
    if t < |rows| && Under(rows, Some(d), t) {
      var k: nat :| StepsTo(rows, t, k, Some(d));
      ClimbersAreIds(rows, Some(d), node.children, t, k);
    }
  }

  // ---- The cycle checks -----------------------------------------------------------------

  /** The drag's check: not into itself, not into one of its own descendants. */
  function OnMove(tree: seq<Node>, dragged: Id, target: Option<Id>): bool {
    if target == Some(dragged) then false else
    match FindNodeById(tree, dragged)
    case None => true
    case Some(node) => !(target.Some? && target.value in DescendantIds(node))
  }

  /** The drag is allowed exactly when the rows stay a forest. */
  lemma OnMoveIsExact(rows: Rows, tree: seq<Node>, dragged: Id, target: Option<Id>)
    requires Acyclic(rows) && Shows(rows, None, tree) && dragged < |rows| && IsContainer(rows, target)
    ensures OnMove(tree, dragged, target) <==> Acyclic(SetParent(rows, dragged, target))
  {
    MoveKeepsForestExactly(rows, dragged, target);
    if target.Some? {
      DescendantsAreBelow(rows, tree, dragged, target.value);
    } else {
      EveryRowIsFound(rows, tree, dragged);
    }
  }

  /** What the dialog leaves out: the category being edited and everything below it. */
  function Excluded(tree: seq<Node>, editing: Option<Id>): set<Id> {
    match editing
    case None => {}
    case Some(e) =>
      match FindNodeById(tree, e)
      case None => {e}
      case Some(node) => {e} + DescendantIds(node)
  }

  function OffersFrom(lines: seq<Line>, excluded: set<Id>): seq<Option<Id>> {
    if lines == [] then [] else
    var id := lines[|lines| - 1].category.id;
    OffersFrom(lines[..|lines| - 1], excluded) + if id in excluded then [] else [Some(id)]
  }

  function ParentOptions(tree: seq<Node>, editing: Option<Id>): seq<Option<Id>> {
    [None] + OffersFrom(FlattenTree(tree, 0), Excluded(tree, editing))
  }

  lemma {:induction false} OffersAreTheLines(lines: seq<Line>, excluded: set<Id>, p: Option<Id>)
    ensures p in OffersFrom(lines, excluded) <==> p.Some? && p.value in IdsOf(lines) && p.value !in excluded
  {
    if lines != [] {
      var init, last := lines[..|lines| - 1], lines[|lines| - 1];
      OffersAreTheLines(init, excluded, p);
      IdsOfConcat(init, [last]);
      assert lines == init + [last];
      assert IdsOf([last]) == {last.category.id};
    }
  }

  /** The dialog offers exactly the parents that keep the rows a forest; every one when creating. */
  lemma ParentOptionsAreExact(rows: Rows, tree: seq<Node>, editing: Option<Id>, p: Option<Id>)
    requires Acyclic(rows) && Shows(rows, None, tree) && IsContainer(rows, editing)
    ensures p in ParentOptions(tree, editing) <==>
      IsContainer(rows, p) && (editing.Some? ==> Acyclic(SetParent(rows, editing.value, p)))
  {
    OffersAreTheLines(FlattenTree(tree, 0), Excluded(tree, editing), p);
    FlatIds(tree, 0);
    if editing.Some? && IsContainer(rows, p) {
      MoveKeepsForestExactly(rows, editing.value, p);
    }
    if p.Some? {
      IdsAreFound(tree, p.value);
      EveryRowIsFound(rows, tree, p.value);
      if editing.Some? {
        DescendantsAreBelow(rows, tree, editing.value, p.value);
      }
    }
  }

  ghost predicate StandsAbove(lines: seq<Line>, a: Id, b: Id) {
    exists i, j :: 0 <= i < j < |lines| && lines[i].category.id == a && lines[j].category.id == b
  }

  /** The offers are categories, in the order of the lines. */
  ghost predicate InLineOrder(lines: seq<Line>, offers: seq<Option<Id>>) {
    && (forall i :: 0 <= i < |offers| ==> offers[i].Some?)
    && (forall i, j :: 0 <= i < j < |offers| ==> StandsAbove(lines, offers[i].value, offers[j].value))
  }

  lemma {:induction false} OffersInOrder(lines: seq<Line>, excluded: set<Id>)
    ensures InLineOrder(lines, OffersFrom(lines, excluded))
  {
    if lines != [] {
      var init, last := lines[..|lines| - 1], lines[|lines| - 1];
      var before, offers := OffersFrom(init, excluded), OffersFrom(lines, excluded);
      OffersInOrder(init, excluded);
      forall i, j | 0 <= i < j < |offers|
        ensures StandsAbove(lines, offers[i].value, offers[j].value)
      {
        if j < |before| {
          LaterLines(lines, before[i].value, before[j].value);
        } else {
          assert before[i] in before;
          OffersAreTheLines(init, excluded, before[i]);
          var a := LineOf(init, before[i].value);
          assert lines[a] == init[a];
        }
      }
    }
  }

  lemma LaterLines(lines: seq<Line>, a: Id, b: Id)
    requires lines != [] && StandsAbove(lines[..|lines| - 1], a, b)
    ensures StandsAbove(lines, a, b)
  {
    var init := lines[..|lines| - 1];
    var i, j :| 0 <= i < j < |init| && init[i].category.id == a && init[j].category.id == b;
    assert lines[i] == init[i] && lines[j] == init[j];
  }

  lemma {:induction false} LineOf(lines: seq<Line>, id: Id) returns (i: nat)
    requires id in IdsOf(lines)
    ensures i < |lines| && lines[i].category.id == id
  {
    var init, last := lines[..|lines| - 1], lines[|lines| - 1];
    assert lines == init + [last];
    IdsOfConcat(init, [last]);
    assert IdsOf([last]) == {last.category.id};
    if last.category.id == id {
      i := |lines| - 1;
    } else {
      i := LineOf(init, id);
    }
  }

  /** The options: no parent first, then categories in the order the page lists them. */
  lemma ParentOptionsInPageOrder(tree: seq<Node>, editing: Option<Id>)
    ensures var options := ParentOptions(tree, editing);
      |options| > 0 && options[0] == None && InLineOrder(FlattenTree(tree, 0), options[1..])
  {
    OffersInOrder(FlattenTree(tree, 0), Excluded(tree, editing));
    assert ParentOptions(tree, editing)[1..] == OffersFrom(FlattenTree(tree, 0), Excluded(tree, editing));
  }

  method PopulateParentOptions(tree: seq<Node>, editing: Option<Id>) returns (options: seq<Option<Id>>)
    ensures options == ParentOptions(tree, editing)
  {
    var excluded := {};
    if editing.Some? {
      excluded := excluded + {editing.value};
      var node := FindNodeById(tree, editing.value);
      if node.Some? {
        excluded := CollectDescendantIds(node.value, excluded);
      }
    }
    assert excluded == Excluded(tree, editing);
    var lines := Flatten(tree, 0);
    var offers: seq<Option<Id>> := [];
    for i := 0 to |lines|
      invariant offers == OffersFrom(lines[..i], excluded)
    {
      assert lines[..i + 1][..i] == lines[..i];
      if lines[i].category.id !in excluded {
        offers := offers + [Some(lines[i].category.id)];
      }
    }
    assert lines[..|lines|] == lines;
    options := [None] + offers;
  }
}
