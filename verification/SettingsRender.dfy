/** The renderers over the panel's tree of nodes, from the stored settings to the list of controls. */
module SettingsRender {
  import opened Prelude
  import opened SettingsKeys
  import opened SettingsTrie
  import opened SettingsTree
  import opened SettingsPanel
  import opened SettingsShown

  lemma AppendFirst(s: seq<string>, a: string, rest: seq<string>)
    ensures s + ([a] + rest) == (s + [a]) + rest && s + [] == s && [] + rest == rest
  {
  }

  method SortNames(names: set<string>, o: Order) returns (s: seq<string>)
    ensures s == Sorted(names, o)
  {
    s := [];
    AppendFirst([], "", Sorted(names, o));
    var todo := names;
    while todo != {}
      invariant Sorted(names, o) == s + Sorted(todo, o)
      decreases |todo|
    {
      FirstExists(o, todo);
      var a :| a in todo && IsFirst(o, todo, a);
      SortedStartsWith(todo, o, a);
      AppendFirst(s, a, Sorted(todo - {a}, o));
      s, todo := s + [a], todo - {a};
    }
    AppendFirst(s, "", []);
  }

  lemma SortedStartsWith(names: set<string>, o: Order, a: string)
    requires IsFirst(o, names, a)
    ensures Sorted(names, o) == [a] + Sorted(names - {a}, o)
  {
    FirstExists(o, names);
    var b := Sorted(names, o)[0];
    FirstIsUnique(o, names, a, b);
  }

  lemma BucketSnoc(p: Path, fields: Fields, names: seq<string>, i: nat, encrypted: bool)
    requires i < |names| && forall f :: f in names ==> f in fields
    ensures Bucket(p, fields, names[..i + 1], encrypted) ==
      Bucket(p, fields, names[..i], encrypted)
      + if fields[names[i]].isEncrypted == encrypted then [Item(p, names[i], fields[names[i]])] else []
  {
    assert names[..i + 1][..i] == names[..i];
  }

  /** General configuration before credentials; in both, switches first and then by name. */
  method RenderLeafBlock(p: Path, fields: Fields) returns (items: seq<Item>)
    ensures items == LeafBlock(p, fields)
  {
    SortedIsSorted(fields.Keys, FieldOrder(fields));
    var names := SortNames(fields.Keys, FieldOrder(fields));
    var general, encrypted := [], [];
    for i := 0 to |names|
      invariant general == Bucket(p, fields, names[..i], false)
      invariant encrypted == Bucket(p, fields, names[..i], true)
    {
      BucketSnoc(p, fields, names, i, false);
      BucketSnoc(p, fields, names, i, true);
      var item := Item(p, names[i], fields[names[i]]);
      if item.setting.isEncrypted {
        encrypted := encrypted + [item];
      } else {
        general := general + [item];
      }
    }
    WholePrefix(names);
    return general + encrypted;
  }

  /** The tree holds the trie t. */
  ghost predicate Holds(tree: Tree, t: Trie)
    reads tree, tree.repr
  {
    tree.Valid() && tree.Contents() == t
  }

  lemma ChildNames(tree: Tree, t: Trie, p: Path)
    requires Holds(tree, t) && p in tree.nodes
    ensures p in t && t[p] == tree.nodes[p].fields && Children(t, p) == tree.nodes[p].children.Keys
  {
    forall k
      ensures k in Children(t, p) <==> k in tree.nodes[p].children
    {
      ChildrenAreExact(t, p, k);
    }
  }

  ghost predicate LeafBlocksUpTo(t: Trie, p: Path, names: seq<string>, i: nat, items: seq<Item>) {
    i <= |names| && Named(t, p, names[..i]) && items == LeafBlocks(t, p, names[..i])
  }

  lemma LeafBlocksStart(t: Trie, p: Path, names: seq<string>)
    ensures LeafBlocksUpTo(t, p, names, 0, [])
  {
  }

  lemma LeafBlocksNext(t: Trie, p: Path, names: seq<string>, i: nat, items: seq<Item>)
    requires i < |names| && Named(t, p, names) && LeafBlocksUpTo(t, p, names, i, items)
    ensures p + [names[i]] in t
    ensures LeafBlocksUpTo(t, p, names, i + 1, items + Block(t, p + [names[i]]))
  {
    assert names[..i + 1][..i] == names[..i];
  }

  lemma LeafBlocksWhole(t: Trie, p: Path, names: seq<string>, items: seq<Item>)
    requires Named(t, p, names) && LeafBlocksUpTo(t, p, names, |names|, items)
    ensures items == LeafBlocks(t, p, names)
  {
    assert names[..|names|] == names;
  }

  ghost predicate GroupNodesUpTo(t: Trie, p: Path, names: seq<string>, i: nat, items: seq<Item>) {
    i <= |names| && p in t && Named(t, p, names[..i]) && items == GroupNodes(t, p, names[..i])
  }

  lemma GroupNodesStart(t: Trie, p: Path, names: seq<string>)
    requires p in t
    ensures GroupNodesUpTo(t, p, names, 0, [])
  {
  }

  lemma GroupNodesNext(t: Trie, p: Path, names: seq<string>, i: nat, items: seq<Item>)
    requires i < |names| && Named(t, p, names) && GroupNodesUpTo(t, p, names, i, items)
    ensures p + [names[i]] in t
    ensures GroupNodesUpTo(t, p, names, i + 1, items + Section(t, p + [names[i]]))
  {
    assert names[..i + 1][..i] == names[..i];
  }

  lemma GroupNodesWhole(t: Trie, p: Path, names: seq<string>, items: seq<Item>)
    requires Named(t, p, names) && GroupNodesUpTo(t, p, names, |names|, items)
    ensures items == GroupNodes(t, p, names)
  {
    assert names[..|names|] == names;
  }

  lemma ChildNode(tree: Tree, t: Trie, p: Path, k: string)
    requires Holds(tree, t) && p in tree.nodes && p + [k] in t
    ensures k in tree.nodes[p].children && p + [k] in tree.nodes
    ensures var child := tree.nodes[p].children[k];
      && tree.nodes[p + [k]] == child && t[p + [k]] == child.fields
      && Children(t, p + [k]) == child.children.Keys
  {
    ChildNames(tree, t, p + [k]);
  }

  /** A child's own block, if it has fields. */
  method RenderBlock(tree: Tree, node: Node, p: Path, k: string, ghost t: Trie) returns (items: seq<Item>)
    requires Holds(tree, t) && p in tree.nodes && tree.nodes[p] == node && p + [k] in t
    ensures items == Block(t, p + [k])
  {
    ChildNode(tree, t, p, k);
    var child := node.children[k];
    items := [];
    if child.fields != map[] {
      items := RenderLeafBlock(p + [k], child.fields);
    }
  }

  method RenderBlocks(tree: Tree, node: Node, p: Path, names: seq<string>, ghost t: Trie) returns (items: seq<Item>)
    requires Holds(tree, t) && p in tree.nodes && tree.nodes[p] == node && Named(t, p, names)
    ensures items == LeafBlocks(t, p, names)
  {
    items := [];
    LeafBlocksStart(t, p, names);
    for i := 0 to |names|
      invariant Holds(tree, t) && LeafBlocksUpTo(t, p, names, i, items)
    {
      LeafBlocksNext(t, p, names, i, items);
      var block := RenderBlock(tree, node, p, names[i], t);
      items := items + block;
    }
    LeafBlocksWhole(t, p, names, items);
  }

  /** A child's own section, if it has children. */
  method RenderSection(tree: Tree, node: Node, p: Path, k: string, ghost t: Trie) returns (items: seq<Item>)
    requires Holds(tree, t) && p in tree.nodes && tree.nodes[p] == node && p + [k] in t
    ensures items == Section(t, p + [k])
    decreases Below(t, p), 0
  {
    ChildNode(tree, t, p, k);
    var child := node.children[k];
    items := [];
    if child.children.Keys != {} {
      BelowShrinks(t, p, k);
      items := RenderGroupChildren(tree, child, p + [k], t);
    }
  }

  method RenderSections(tree: Tree, node: Node, p: Path, names: seq<string>, ghost t: Trie) returns (items: seq<Item>)
    requires Holds(tree, t) && p in tree.nodes && tree.nodes[p] == node && p in t && Named(t, p, names)
    ensures items == GroupNodes(t, p, names)
    decreases Below(t, p), 1
  {
    items := [];
    GroupNodesStart(t, p, names);
    for i := 0 to |names|
      invariant Holds(tree, t) && GroupNodesUpTo(t, p, names, i, items)
    {
      GroupNodesNext(t, p, names, i, items);
      var section := RenderSection(tree, node, p, names[i], t);
      items := items + section;
    }
    GroupNodesWhole(t, p, names, items);
  }

  method SortedChildNames(tree: Tree, node: Node, ghost p: Path, ghost t: Trie) returns (names: seq<string>)
    requires Holds(tree, t) && p in tree.nodes && tree.nodes[p] == node
    ensures names == SortedChildren(t, p) && Named(t, p, names)
  {
    ChildNames(tree, t, p);
    ghost var sorted := SortedChildren(t, p);
    names := SortNames(node.children.Keys, Alphabetical);
  }

  /** All leaf blocks of the children first, then a section for every child with children of its own. */
  method RenderGroupChildren(tree: Tree, node: Node, p: Path, ghost t: Trie) returns (items: seq<Item>)
    requires Holds(tree, t) && p in tree.nodes && tree.nodes[p] == node && p in t
    ensures items == GroupChildren(t, p)
    decreases Below(t, p), 2
  {
    var names := SortedChildNames(tree, node, p, t);
    var blocks := RenderBlocks(tree, node, p, names, t);
    var sections := RenderSections(tree, node, p, names, t);
    return blocks + sections;
  }

  /** Own fields and children are independent checks: a mixed root group shows both. */
  method RenderRootTabPanelContent(tree: Tree, node: Node, p: Path, ghost t: Trie) returns (items: seq<Item>)
    requires Holds(tree, t) && p in tree.nodes && tree.nodes[p] == node && p in t
    ensures items == RootTabPanel(t, p)
  {
    ChildNames(tree, t, p);
    var hasOwnFields, hasChildren := node.fields != map[], node.children.Keys != {};
    if hasOwnFields && hasChildren {
      var block := RenderLeafBlock(p, node.fields);
      var below := RenderGroupChildren(tree, node, p, t);
      return block + below;
    }
    if hasOwnFields {
      items := RenderLeafBlock(p, node.fields);
    } else {
      items := RenderGroupChildren(tree, node, p, t);
    }
  }

  ghost predicate RootTabsUpTo(t: Trie, names: seq<string>, i: nat, items: seq<Item>) {
    i <= |names| && Named(t, [], names[..i]) && items == RootTabs(t, names[..i])
  }

  lemma RootTabsStart(t: Trie, names: seq<string>)
    ensures RootTabsUpTo(t, names, 0, [])
  {
  }

  lemma RootTabsNext(t: Trie, names: seq<string>, i: nat, items: seq<Item>)
    requires i < |names| && Named(t, [], names) && RootTabsUpTo(t, names, i, items)
    ensures [] + [names[i]] in t
    ensures RootTabsUpTo(t, names, i + 1, items + RootTabPanel(t, [] + [names[i]]))
  {
    assert names[..i + 1][..i] == names[..i];
  }

  lemma RootTabsWhole(t: Trie, names: seq<string>, items: seq<Item>)
    requires Named(t, [], names) && RootTabsUpTo(t, names, |names|, items)
    ensures items == RootTabs(t, names)
  {
    assert names[..|names|] == names;
  }

  method RenderRootTab(tree: Tree, k: string, ghost t: Trie) returns (items: seq<Item>)
    requires Holds(tree, t) && [] + [k] in t
    ensures items == RootTabPanel(t, [] + [k])
  {
    ChildNode(tree, t, [], k);
    items := RenderRootTabPanelContent(tree, tree.root.children[k], [] + [k], t);
  }

  method RenderRootTabs(tree: Tree, ghost t: Trie) returns (items: seq<Item>)
    requires Holds(tree, t)
    ensures items == Rendered(t)
  {
    var names := SortedChildNames(tree, tree.root, [], t);
    items := [];
    RootTabsStart(t, names);
    for i := 0 to |names|
      invariant Holds(tree, t) && RootTabsUpTo(t, names, i, items)
    {
      RootTabsNext(t, names, i, items);
      var panel := RenderRootTab(tree, names[i], t);
      items := items + panel;
    }
    RootTabsWhole(t, names, items);
  }

  /** The whole panel: build, merge, render. */
  method LoadSettings(settings: seq<Setting>, slots: seq<Setting>) returns (items: seq<Item>)
    ensures items == Shown(settings, slots)
  {
    var tree := BuildSettingsTree(settings, slots);
    items := RenderRootTabs(tree, tree.Contents());
  }
}
