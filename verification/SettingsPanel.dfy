/**
 What the settings panel shows: the list of fields the mutually recursive renderers emit, each with
 the group it stands under, and which settings that list holds.
 */
module SettingsPanel {
  import opened Prelude
  import opened SettingsKeys
  import opened SettingsTrie

  /** One rendered control: the headings above it, its label and the setting it edits. */
  datatype Item = Item(group: Path, name: string, setting: Setting)

  // ---- The renderers -----------------------------------------------------------

  function Children(t: Trie, p: Path): set<string> {
    set q | q in t && |q| == |p| + 1 && p <= q :: q[|p|]
  }

  lemma ChildrenAreExact(t: Trie, p: Path, k: string)
    ensures k in Children(t, p) <==> p + [k] in t
  {
    if p + [k] in t {
      assert (p + [k])[|p|] == k;
    }
    if k in Children(t, p) {
      var q :| q in t && |q| == |p| + 1 && p <= q && q[|p|] == k;
      assert q == p + [k];
    }
  }

  function FieldOrder(fields: Fields): Order {
    SwitchesFirst(set f | f in fields && fields[f].isSwitch)
  }

  ghost function SortedFieldNames(fields: Fields): seq<string> {
    Sorted(fields.Keys, FieldOrder(fields))
  }

  /** The fields of one sub-heading, in the order of the names. */
  function Bucket(p: Path, fields: Fields, names: seq<string>, encrypted: bool): seq<Item>
    requires forall f :: f in names ==> f in fields
  {
    if names == [] then [] else
    var last := names[|names| - 1];
    Bucket(p, fields, names[..|names| - 1], encrypted)
    + if fields[last].isEncrypted == encrypted then [Item(p, last, fields[last])] else []
  }

  ghost function LeafBlock(p: Path, fields: Fields): seq<Item> {
    SortedIsSorted(fields.Keys, FieldOrder(fields));
    var names := SortedFieldNames(fields);
    Bucket(p, fields, names, false) + Bucket(p, fields, names, true)
  }

  ghost predicate Named(t: Trie, p: Path, names: seq<string>) {
    forall k :: k in names ==> p + [k] in t
  }

  ghost function Block(t: Trie, q: Path): seq<Item>
    requires q in t
  {
    if t[q] == map[] then [] else LeafBlock(q, t[q])
  }

  /** The blocks of the children that hold fields. */
  ghost function LeafBlocks(t: Trie, p: Path, names: seq<string>): seq<Item>
    requires Named(t, p, names)
  {
    if names == [] then [] else
    LeafBlocks(t, p, names[..|names| - 1]) + Block(t, p + [names[|names| - 1]])
  }

  ghost function Section(t: Trie, q: Path): seq<Item>
    requires q in t
    decreases Below(t, q), 2, 0
  {
    if Children(t, q) == {} then [] else GroupChildren(t, q)
  }

  /** The sections of the children that have children themselves, whether or not they hold fields too. */
  ghost function GroupNodes(t: Trie, p: Path, names: seq<string>): seq<Item>
    requires p in t && Named(t, p, names)
    decreases Below(t, p), 0, |names|
  {
    if names == [] then [] else
    var last := names[|names| - 1];
    BelowShrinks(t, p, last);
    GroupNodes(t, p, names[..|names| - 1]) + Section(t, p + [last])
  }

  ghost function GroupChildren(t: Trie, p: Path): seq<Item>
    requires p in t
    decreases Below(t, p), 1, 0
  {
    var names := SortedChildren(t, p);
    LeafBlocks(t, p, names) + GroupNodes(t, p, names)
  }

  ghost function SortedChildren(t: Trie, p: Path): (names: seq<string>)
    ensures Lists(names, Children(t, p)) && Named(t, p, names)
  {
    SortedIsSorted(Children(t, p), Alphabetical);
    assert forall k :: k in Children(t, p) ==> p + [k] in t by {
      forall k | k in Children(t, p)
        ensures p + [k] in t
      {
        ChildrenAreExact(t, p, k);
      }
    }
    Sorted(Children(t, p), Alphabetical)
  }

  ghost function RootTabPanel(t: Trie, p: Path): seq<Item>
    requires p in t
  {
    var hasOwnFields, hasChildren := t[p] != map[], Children(t, p) != {};
    if hasOwnFields && hasChildren then LeafBlock(p, t[p]) + GroupChildren(t, p)
    else if hasOwnFields then LeafBlock(p, t[p])
    else GroupChildren(t, p)
  }

  ghost function RootTabs(t: Trie, names: seq<string>): seq<Item>
    requires Named(t, [], names)
  {
    if names == [] then [] else
    RootTabs(t, names[..|names| - 1]) + RootTabPanel(t, [] + [names[|names| - 1]])
  }

  ghost function Rendered(t: Trie): seq<Item> {
    RootTabs(t, SortedChildren(t, []))
  }

  // ---- Every field once ----------------------------------------------------------

  ghost predicate IsField(t: Trie, item: Item) {
    item.group in t && item.name in t[item.group] && t[item.group][item.name] == item.setting
  }

  /** The list holds, once each, exactly the items of the family. */
  ghost predicate Shows(items: seq<Item>, family: Item -> bool) {
    NoDuplicates(items) && forall item :: item in items <==> family(item)
  }

  lemma ShowsConcat(a: seq<Item>, b: seq<Item>, f: Item -> bool, g: Item -> bool, h: Item -> bool)
    requires Shows(a, f) && Shows(b, g)
    requires forall item :: !(f(item) && g(item)) && (h(item) <==> f(item) || g(item))
    ensures Shows(a + b, h)
  {
    forall i, j | 0 <= i < j < |a + b|
      ensures (a + b)[i] != (a + b)[j]
    {
      if i < |a| <= j {
        assert f(a[i]) && g(b[j - |a|]);
      }
    }
  }

  ghost function InBlock(p: Path, fields: Fields, encrypted: bool, names: seq<string>): Item -> bool {
    (item: Item) =>
      item.group == p && item.name in names && item.name in fields
      && fields[item.name] == item.setting && item.setting.isEncrypted == encrypted
  }

  lemma {:induction false} BucketShows(p: Path, fields: Fields, names: seq<string>, encrypted: bool)
    requires NoDuplicates(names) && forall f :: f in names ==> f in fields
    ensures Shows(Bucket(p, fields, names, encrypted), InBlock(p, fields, encrypted, names))
  {
    if names != [] {
      var init, last := names[..|names| - 1], names[|names| - 1];
      BucketShows(p, fields, init, encrypted);
      assert last !in init;
      assert names == init + [last];
      var one := if fields[last].isEncrypted == encrypted then [Item(p, last, fields[last])] else [];
      ShowsConcat(Bucket(p, fields, init, encrypted), one,
        InBlock(p, fields, encrypted, init), InBlock(p, fields, encrypted, [last]), InBlock(p, fields, encrypted, names));
    }
  }

  // ---- In what order -----------------------------------------------------------------

  /** General configuration before credentials, then switches before the rest, then by name. */
  predicate StandsBefore(a: Item, b: Item) {
    if a.setting.isEncrypted != b.setting.isEncrypted then b.setting.isEncrypted
    else if a.setting.isSwitch != b.setting.isSwitch then a.setting.isSwitch
    else Less(a.name, b.name)
  }

  ghost predicate InBlockOrder(items: seq<Item>) {
    forall i, j :: 0 <= i < j < |items| ==> StandsBefore(items[i], items[j])
  }

  lemma NameBefore(fields: Fields, names: seq<string>, f: string)
    requires names != [] && InOrder(names, FieldOrder(fields)) && f in names[..|names| - 1]
    ensures Precedes(FieldOrder(fields), f, names[|names| - 1])
  {
  }

  lemma {:induction false} BucketInOrder(p: Path, fields: Fields, names: seq<string>, encrypted: bool)
    requires (forall f :: f in names ==> f in fields) && InOrder(names, FieldOrder(fields))
    ensures forall item :: item in Bucket(p, fields, names, encrypted) ==>
      item.name in names && item.setting == fields[item.name] && item.setting.isEncrypted == encrypted
    ensures InBlockOrder(Bucket(p, fields, names, encrypted))
  {
    if names != [] {
      var init, last := names[..|names| - 1], names[|names| - 1];
      BucketInOrder(p, fields, init, encrypted);
      var items, before := Bucket(p, fields, names, encrypted), Bucket(p, fields, init, encrypted);
      forall i, j | 0 <= i < j < |items|
        ensures StandsBefore(items[i], items[j])
      {
        assert items[i] == before[i] && before[i] in before;
        if j == |before| {
          NameBefore(fields, names, before[i].name);
        }
      }
    }
  }

  /** The order of a block: the sub-headings, the switches and the alphabet, in that priority. */
  lemma LeafBlockInOrder(p: Path, fields: Fields)
    ensures InBlockOrder(LeafBlock(p, fields))
  {
    SortedIsSorted(fields.Keys, FieldOrder(fields));
    var names := SortedFieldNames(fields);
    BucketInOrder(p, fields, names, false);
    BucketInOrder(p, fields, names, true);
    var general, encrypted := Bucket(p, fields, names, false), Bucket(p, fields, names, true);
    forall i, j | 0 <= i < |general| && 0 <= j < |encrypted|
      ensures StandsBefore(general[i], encrypted[j])
    {
      assert general[i] in general && encrypted[j] in encrypted;
    }
  }

  // ---- Which fields, block by block ---------------------------------------------------

  ghost function AtGroup(t: Trie, p: Path): Item -> bool {
    (item: Item) => IsField(t, item) && item.group == p
  }

  ghost function InChildren(t: Trie, p: Path, names: seq<string>): Item -> bool {
    (item: Item) =>
      IsField(t, item) && |item.group| == |p| + 1 && p <= item.group && item.group[|p|] in names
  }

  ghost function UnderChildren(t: Trie, p: Path, names: seq<string>): Item -> bool {
    (item: Item) =>
      IsField(t, item) && |item.group| > |p| + 1 && p <= item.group && item.group[|p|] in names
  }

  ghost function UnderGroup(t: Trie, p: Path): Item -> bool {
    (item: Item) => IsField(t, item) && |item.group| > |p| && p <= item.group
  }

  ghost function InTabs(t: Trie, names: seq<string>): Item -> bool {
    (item: Item) => IsField(t, item) && |item.group| > 0 && item.group[0] in names
  }

  lemma LeafBlockShows(t: Trie, p: Path)
    requires p in t
    ensures Shows(LeafBlock(p, t[p]), AtGroup(t, p))
  {
    var fields := t[p];
    SortedIsSorted(fields.Keys, FieldOrder(fields));
    var names := SortedFieldNames(fields);
    BucketShows(p, fields, names, false);
    BucketShows(p, fields, names, true);
    ShowsConcat(Bucket(p, fields, names, false), Bucket(p, fields, names, true),
      InBlock(p, fields, false, names), InBlock(p, fields, true, names), AtGroup(t, p));
  }

  lemma ChildStep(p: Path, k: string, q: Path)
    ensures q == p + [k] <==> |q| == |p| + 1 && p <= q && q[|p|] == k
    ensures p + [k] <= q <==> |q| > |p| && p <= q && q[|p|] == k
  {
  }

  lemma NothingShown(f: Item -> bool)
    requires forall item :: !f(item)
    ensures Shows([], f)
  {
  }

  lemma BlockShows(t: Trie, q: Path)
    requires q in t
    ensures Shows(Block(t, q), AtGroup(t, q))
  {
    LeafBlockShows(t, q);
    if t[q] == map[] {
      NothingShown(AtGroup(t, q));
    }
  }

  lemma {:induction false} LeafBlocksShow(t: Trie, p: Path, names: seq<string>)
    requires NoDuplicates(names) && Named(t, p, names)
    ensures Shows(LeafBlocks(t, p, names), InChildren(t, p, names))
  {
    if names != [] {
      var init, last := names[..|names| - 1], names[|names| - 1];
      var q := p + [last];
      LeafBlocksShow(t, p, init);
      BlockShows(t, q);
      LastApart(names);
      forall item: Item
        ensures !(InChildren(t, p, init)(item) && AtGroup(t, q)(item))
        ensures InChildren(t, p, names)(item) <==> InChildren(t, p, init)(item) || AtGroup(t, q)(item)
      {
        ChildStep(p, last, item.group);
      }
      ShowsConcat(LeafBlocks(t, p, init), Block(t, q), InChildren(t, p, init), AtGroup(t, q), InChildren(t, p, names));
    }
  }

  lemma NoChildrenNothingUnder(t: Trie, p: Path, q: Path)
    requires WellFormed(t) && Children(t, p) == {}
    ensures q in t && p <= q ==> q == p
  {
    if q in t && p <= q && q != p {
      assert q[..|p| + 1] == p + [q[|p|]];
      ChildrenAreExact(t, p, q[|p|]);
      assert false;
    }
  }

  lemma {:induction false} SectionShows(t: Trie, q: Path)
    requires WellFormed(t) && q in t
    ensures Shows(Section(t, q), UnderGroup(t, q))
    decreases Below(t, q), 2, 0
  {
    GroupChildrenShow(t, q);
    if Children(t, q) == {} {
      forall item: Item
        ensures !UnderGroup(t, q)(item)
      {
        NoChildrenNothingUnder(t, q, item.group);
      }
      NothingShown(UnderGroup(t, q));
    }
  }

  lemma {:induction false} GroupNodesShow(t: Trie, p: Path, names: seq<string>)
    requires WellFormed(t) && p in t && NoDuplicates(names) && Named(t, p, names)
    ensures Shows(GroupNodes(t, p, names), UnderChildren(t, p, names))
    decreases Below(t, p), 0, |names|
  {
    if names != [] {
      var init, last := names[..|names| - 1], names[|names| - 1];
      var q := p + [last];
      GroupNodesShow(t, p, init);
      BelowShrinks(t, p, last);
      SectionShows(t, q);
      LastApart(names);
      forall item: Item
        ensures !(UnderChildren(t, p, init)(item) && UnderGroup(t, q)(item))
        ensures UnderChildren(t, p, names)(item) <==> UnderChildren(t, p, init)(item) || UnderGroup(t, q)(item)
      {
        ChildStep(p, last, item.group);
      }
      ShowsConcat(GroupNodes(t, p, init), Section(t, q),
        UnderChildren(t, p, init), UnderGroup(t, q), UnderChildren(t, p, names));
    }
  }

  lemma FirstStepIsAChild(t: Trie, p: Path, names: seq<string>, q: Path)
    requires WellFormed(t) && Lists(names, Children(t, p))
    ensures q in t && |q| > |p| && p <= q ==> q[|p|] in names
  {
    if q in t && |q| > |p| && p <= q {
      assert q[..|p| + 1] == p + [q[|p|]];
      ChildrenAreExact(t, p, q[|p|]);
    }
  }

  lemma {:induction false} GroupChildrenShow(t: Trie, p: Path)
    requires WellFormed(t) && p in t
    ensures Shows(GroupChildren(t, p), UnderGroup(t, p))
    decreases Below(t, p), 1, 0
  {
    var names := SortedChildren(t, p);
    LeafBlocksShow(t, p, names);
    GroupNodesShow(t, p, names);
    forall item: Item
      ensures !(InChildren(t, p, names)(item) && UnderChildren(t, p, names)(item))
      ensures UnderGroup(t, p)(item) <==> InChildren(t, p, names)(item) || UnderChildren(t, p, names)(item)
    {
      FirstStepIsAChild(t, p, names, item.group);
    }
    ShowsConcat(LeafBlocks(t, p, names), GroupNodes(t, p, names),
      InChildren(t, p, names), UnderChildren(t, p, names), UnderGroup(t, p));
  }

  ghost function InPanel(t: Trie, p: Path): Item -> bool {
    (item: Item) => IsField(t, item) && p <= item.group
  }

  lemma PanelShows(t: Trie, p: Path)
    requires WellFormed(t) && p in t
    ensures Shows(RootTabPanel(t, p), InPanel(t, p))
  {
    LeafBlockShows(t, p);
    GroupChildrenShow(t, p);
    ShowsConcat(LeafBlock(p, t[p]), GroupChildren(t, p), AtGroup(t, p), UnderGroup(t, p), InPanel(t, p));
    if Children(t, p) == {} {
      forall item: Item
        ensures InPanel(t, p)(item) <==> AtGroup(t, p)(item)
      {
        NoChildrenNothingUnder(t, p, item.group);
      }
    }
  }

  lemma {:induction false} TabsShow(t: Trie, names: seq<string>)
    requires WellFormed(t) && NoDuplicates(names) && Named(t, [], names)
    ensures Shows(RootTabs(t, names), InTabs(t, names))
  {
    if names != [] {
      var init, last := names[..|names| - 1], names[|names| - 1];
      var q: Path := [] + [last];
      TabsShow(t, init);
      PanelShows(t, q);
      LastApart(names);
      forall item: Item
        ensures !(InTabs(t, init)(item) && InPanel(t, q)(item))
        ensures InTabs(t, names)(item) <==> InTabs(t, init)(item) || InPanel(t, q)(item)
      {
        ChildStep([], last, item.group);
      }
      ShowsConcat(RootTabs(t, init), RootTabPanel(t, q), InTabs(t, init), InPanel(t, q), InTabs(t, names));
    }
  }

  /** Whatever the tree's shape, mixed nodes included, the panel shows every field below the root once. */
  lemma EveryFieldOnce(t: Trie)
    requires WellFormed(t)
    ensures NoDuplicates(Rendered(t))
    ensures forall item :: item in Rendered(t) <==> IsField(t, item) && item.group != []
  {
    var names := SortedChildren(t, []);
    TabsShow(t, names);
    forall item: Item
      ensures InTabs(t, names)(item) <==> IsField(t, item) && item.group != []
    {
      FirstStepIsAChild(t, [], names, item.group);
    }
  }
}
