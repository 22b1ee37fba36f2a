/** In what order the settings panel lists its controls, across blocks, sections and tabs. */
module SettingsOrder {
  import opened Prelude
  import opened SettingsKeys
  import opened SettingsTrie
  import opened SettingsPanel
  import opened SettingsShown

  /** How many segments two group paths share from the start. */
  function Shared(a: Path, b: Path): (n: nat)
    ensures n <= |a| && n <= |b| && forall i :: 0 <= i < n ==> a[i] == b[i]
    ensures n < |a| && n < |b| ==> a[n] != b[n]
  {
    if a != [] && b != [] && a[0] == b[0] then 1 + Shared(a[1..], b[1..]) else 0
  }

  /**
   Where two controls stand to each other, from their groups alone. Tabs are alphabetical. A group's own fields come
   before everything further down. Among what lies directly in a group, the blocks of its sub-groups' own fields come
   before their sections, and both are alphabetical.
   */
  ghost predicate ComesBefore(a: Item, b: Item) {
    var n := Shared(a.group, b.group);
    if a.group == b.group then StandsBefore(a, b)
    else if n == |a.group| then true
    else if n == |b.group| then false
    else if n > 0 && (|a.group| == n + 1) != (|b.group| == n + 1) then |a.group| == n + 1
    else Less(a.group[n], b.group[n])
  }

  ghost predicate Ordered(items: seq<Item>) {
    forall i, j :: 0 <= i < j < |items| ==> ComesBefore(items[i], items[j])
  }

  lemma SharedIs(a: Path, b: Path, n: nat)
    requires n <= |a| && n <= |b| && forall i :: 0 <= i < n ==> a[i] == b[i]
    requires n == |a| || n == |b| || a[n] != b[n]
    ensures Shared(a, b) == n
  {
  }

  /** The order leaves no choice: of two different controls one comes first. */
  lemma OrderIsStrict(a: Item, b: Item)
    ensures !(ComesBefore(a, b) && ComesBefore(b, a))
  {
    var n := Shared(a.group, b.group);
    SharedIs(b.group, a.group, n);
    LessIsTotal(a.name, b.name);
    if n < |a.group| && n < |b.group| {
      LessIsTotal(a.group[n], b.group[n]);
    } else if n == |a.group| == |b.group| {
      assert a.group == b.group;
    }
  }

  lemma OrderedConcat(a: seq<Item>, b: seq<Item>)
    requires Ordered(a) && Ordered(b)
    requires forall x, y :: x in a && y in b ==> ComesBefore(x, y)
    ensures Ordered(a + b)
  {
    forall i, j | 0 <= i < j < |a + b|
      ensures ComesBefore((a + b)[i], (a + b)[j])
    {
      if i < |a| <= j {
        assert a[i] in a && b[j - |a|] in b;
      }
    }
  }

  lemma BeforeLast(names: seq<string>, k: string)
    requires names != [] && InOrder(names, Alphabetical) && k in names[..|names| - 1]
    ensures Less(k, names[|names| - 1])
  {
    var i :| 0 <= i < |names| - 1 && names[i] == k;
    assert Precedes(Alphabetical, names[i], names[|names| - 1]);
  }

  lemma BlockOrdered(t: Trie, q: Path)
    requires q in t
    ensures Ordered(Block(t, q)) && Ordered(LeafBlock(q, t[q]))
  {
    LeafBlockShows(t, q);
    LeafBlockInOrder(q, t[q]);
    var items := LeafBlock(q, t[q]);
    forall i | 0 <= i < |items|
      ensures items[i].group == q
    {
      assert items[i] in items && AtGroup(t, q)(items[i]);
    }
  }

  lemma {:induction false} LeafBlocksOrdered(t: Trie, p: Path, names: seq<string>)
    requires NoDuplicates(names) && InOrder(names, Alphabetical) && Named(t, p, names)
    ensures Ordered(LeafBlocks(t, p, names))
  {
    if names != [] {
      var init, last := names[..|names| - 1], names[|names| - 1];
      var q := p + [last];
      LeafBlocksOrdered(t, p, init);
      LeafBlocksShow(t, p, init);
      BlockOrdered(t, q);
      BlockShows(t, q);
      forall x, y | x in LeafBlocks(t, p, init) && y in Block(t, q)
        ensures ComesBefore(x, y)
      {
        assert InChildren(t, p, init)(x) && AtGroup(t, q)(y);
        BeforeLast(names, x.group[|p|]);
        LessIsTotal(last, last);
        SharedIs(x.group, y.group, |p|);
      }
      OrderedConcat(LeafBlocks(t, p, init), Block(t, q));
    }
  }

  lemma {:induction false} GroupNodesOrdered(t: Trie, p: Path, names: seq<string>)
    requires WellFormed(t) && p in t && p != [] && NoDuplicates(names) && InOrder(names, Alphabetical) && Named(t, p, names)
    ensures Ordered(GroupNodes(t, p, names))
    decreases Below(t, p), 0, |names|
  {
    if names != [] {
      var init, last := names[..|names| - 1], names[|names| - 1];
      var q := p + [last];
      GroupNodesOrdered(t, p, init);
      GroupNodesShow(t, p, init);
      BelowShrinks(t, p, last);
      GroupChildrenOrdered(t, q);
      SectionShows(t, q);
      forall x, y | x in GroupNodes(t, p, init) && y in Section(t, q)
        ensures ComesBefore(x, y)
      {
        assert UnderChildren(t, p, init)(x) && UnderGroup(t, q)(y);
        ApartAt(x, y, p, names);
      }
      OrderedConcat(GroupNodes(t, p, init), Section(t, q));
    }
  }

  /** Two controls further down in different sub-groups stand as the sub-groups do. */
  lemma ApartAt(x: Item, y: Item, p: Path, names: seq<string>)
    requires names != [] && InOrder(names, Alphabetical)
    requires |x.group| > |p| + 1 && p <= x.group && x.group[|p|] in names[..|names| - 1]
    requires |y.group| > |p| + 1 && p + [names[|names| - 1]] <= y.group
    ensures ComesBefore(x, y)
  {
    var last := names[|names| - 1];
    assert (p + [last])[|p|] == last && p <= p + [last];
    BeforeLast(names, x.group[|p|]);
    LessIsTotal(last, last);
    SharedIs(x.group, y.group, |p|);
  }

  lemma {:induction false} GroupChildrenOrdered(t: Trie, p: Path)
    requires WellFormed(t) && p in t && p != []
    ensures Ordered(GroupChildren(t, p))
    decreases Below(t, p), 1, 0
  {
    var names := SortedChildren(t, p);
    SortedIsSorted(Children(t, p), Alphabetical);
    LeafBlocksOrdered(t, p, names);
    LeafBlocksShow(t, p, names);
    GroupNodesOrdered(t, p, names);
    GroupNodesShow(t, p, names);
    forall x, y | x in LeafBlocks(t, p, names) && y in GroupNodes(t, p, names)
      ensures ComesBefore(x, y)
    {
      assert InChildren(t, p, names)(x) && UnderChildren(t, p, names)(y);
      SharedIs(x.group, y.group, if x.group[|p|] == y.group[|p|] then |p| + 1 else |p|);
    }
    OrderedConcat(LeafBlocks(t, p, names), GroupNodes(t, p, names));
  }

  lemma PanelOrdered(t: Trie, p: Path)
    requires WellFormed(t) && p in t && p != []
    ensures Ordered(RootTabPanel(t, p))
  {
    BlockOrdered(t, p);
    LeafBlockShows(t, p);
    GroupChildrenOrdered(t, p);
    GroupChildrenShow(t, p);
    forall x, y | x in LeafBlock(p, t[p]) && y in GroupChildren(t, p)
      ensures ComesBefore(x, y)
    {
      assert AtGroup(t, p)(x) && UnderGroup(t, p)(y);
      SharedIs(x.group, y.group, |p|);
    }
    OrderedConcat(LeafBlock(p, t[p]), GroupChildren(t, p));
  }

  lemma {:induction false} TabsOrdered(t: Trie, names: seq<string>)
    requires WellFormed(t) && NoDuplicates(names) && InOrder(names, Alphabetical) && Named(t, [], names)
    ensures Ordered(RootTabs(t, names))
  {
    if names != [] {
      var init, last := names[..|names| - 1], names[|names| - 1];
      var q: Path := [] + [last];
      TabsOrdered(t, init);
      TabsShow(t, init);
      PanelOrdered(t, q);
      PanelShows(t, q);
      forall x, y | x in RootTabs(t, init) && y in RootTabPanel(t, q)
        ensures ComesBefore(x, y)
      {
        assert InTabs(t, init)(x) && InPanel(t, q)(y);
        BeforeLast(names, x.group[0]);
        LessIsTotal(last, last);
        assert y.group[0] == last;
        SharedIs(x.group, y.group, 0);
      }
      OrderedConcat(RootTabs(t, init), RootTabPanel(t, q));
    }
  }

  /** Whatever the tree, the whole panel is listed in that one order. */
  lemma PanelInOrder(t: Trie)
    requires WellFormed(t)
    ensures Ordered(Rendered(t))
  {
    SortedIsSorted(Children(t, []), Alphabetical);
    TabsOrdered(t, SortedChildren(t, []));
  }

  /** So is what the panel shows for any settings and slots. */
  lemma ShownInOrder(settings: seq<Setting>, slots: seq<Setting>)
    ensures Ordered(Shown(settings, slots))
  {
    var t := InsertAll(EMPTY_TRIE, Entries(settings, slots));
    BuildKeepsShape(Entries(settings, slots));
    MergeKeepsShape(t);
    PanelInOrder(Merge(t));
  }
}
