/**
 The settings tree as the panel holds it: nodes linked by name, built by walking down from the root
 and merged in place, deepest nodes first. The tree's contents are proved to be the trie's.
 */
module SettingsTree {
  import opened Prelude
  import opened SettingsKeys
  import opened SettingsTrie

  // ---- Merging one subtree at a time -------------------------------------------

  /** The path lies in one of the named children of p. */
  predicate IsIn(p: Path, names: set<string>, q: Path) {
    |q| > |p| && p <= q && q[|p|] in names
  }

  /** The tree once the named children of p are merged, p itself not yet. */
  ghost function MergedChildren(t: Trie, p: Path, names: set<string>): Trie {
    map q | q in t && (IsIn(p, names, q) ==> KeptFrom(t, |p| + 1, q)) ::
      if IsIn(p, names, q) then Final(t, q) else t[q]
  }

  /** The tree once the subtree at p is merged. */
  ghost function MergedAt(t: Trie, p: Path): Trie {
    map q | q in t && (p <= q ==> KeptFrom(t, |p|, q)) :: if p <= q then Final(t, q) else t[q]
  }

  ghost predicate AgreeBelow(t: Trie, u: Trie, p: Path) {
    forall q :: p <= q ==> (q in t <==> q in u) && (q in t ==> t[q] == u[q])
  }

  lemma CollapseIsLocal(t: Trie, u: Trie, p: Path, q: Path)
    requires AgreeBelow(t, u, p) && p <= q
    ensures Collapses(t, q) <==> Collapses(u, q)
    ensures Collapses(t, q) ==> Active(t, q) == Active(u, q)
  {
  }

  lemma AgreeDeeper(t: Trie, u: Trie, p: Path, k: string)
    requires AgreeBelow(t, u, p)
    ensures AgreeBelow(t, u, p + [k])
  {
  }

  lemma {:induction false} FinalIsLocal(t: Trie, u: Trie, p: Path)
    requires AgreeBelow(t, u, p) && p in t
    ensures Final(t, p) == Final(u, p)
    decreases Below(t, p)
  {
    CollapseIsLocal(t, u, p, p);
    if Collapses(t, p) {
      var q := p + [Active(t, p)];
      BelowShrinks(t, p, Active(t, p));
      AgreeDeeper(t, u, p, Active(t, p));
      FinalIsLocal(t, u, q);
    }
  }

  lemma KeptIsLocal(t: Trie, u: Trie, p: Path, q: Path)
    requires AgreeBelow(t, u, p) && p <= q
    ensures KeptFrom(t, |p|, q) <==> KeptFrom(u, |p|, q)
  {
    forall i | |p| <= i < |q|
      ensures DropsAt(t, q, i) <==> DropsAt(u, q, i)
    {
      CollapseIsLocal(t, u, p, q[..i]);
    }
  }

  lemma ChildPath(p: Path, k: string, q: Path)
    ensures p + [k] <= q <==> IsIn(p, {k}, q)
  {
  }

  /** Merging one more child. */
  lemma MergeNextChild(t: Trie, p: Path, names: set<string>, k: string)
    requires k !in names
    ensures MergedAt(MergedChildren(t, p, names), p + [k]) == MergedChildren(t, p, names + {k})
  {
    var u := MergedChildren(t, p, names);
    var c := p + [k];
    forall q | c <= q
      ensures (q in t <==> q in u) && (q in t ==> t[q] == u[q])
    {
      ChildPath(p, k, q);
    }
    forall q
      ensures c <= q ==> (KeptFrom(t, |c|, q) <==> KeptFrom(u, |c|, q)) && (q in t ==> Final(t, q) == Final(u, q))
      ensures IsIn(p, names + {k}, q) <==> IsIn(p, names, q) || c <= q
    {
      ChildPath(p, k, q);
      if c <= q {
        KeptIsLocal(t, u, c, q);
        if q in t {
          FinalIsLocal(t, u, q);
        }
      }
    }
  }

  predicate AllChildren(t: Trie, p: Path, names: set<string>) {
    forall q :: q in t && p <= q && |q| > |p| ==> q[|p|] in names
  }

  lemma KeptFirstStep(t: Trie, p: Path, q: Path)
    requires p <= q && p != q
    ensures KeptFrom(t, |p|, q) <==> !(Collapses(t, p) && IsBucket(q[|p|])) && KeptFrom(t, |p| + 1, q)
  {
    assert q[..|p|] == p;
    assert DropsAt(t, q, |p|) <==> Collapses(t, p) && IsBucket(q[|p|]);
  }

  ghost predicate SameAt(t: Trie, u: Trie, q: Path) {
    (q in t <==> q in u) && (q in t ==> t[q] == u[q])
  }

  lemma SameEverywhere(t: Trie, u: Trie)
    requires forall q :: SameAt(t, u, q)
    ensures t == u
  {
    assert forall q :: q in t ==> SameAt(t, u, q);
    assert forall q :: q in u ==> SameAt(t, u, q);
  }

  lemma NothingToCollapseAt(t: Trie, p: Path, names: set<string>, q: Path)
    requires p in t && AllChildren(t, p, names) && !Collapses(t, p)
    ensures SameAt(MergedChildren(t, p, names), MergedAt(t, p), q)
  {
    if q in t && p <= q && q != p {
      KeptFirstStep(t, p, q);
    }
  }

  /** With every child merged, a group that does not collapse is done. */
  lemma NothingToCollapse(t: Trie, p: Path, names: set<string>)
    requires p in t && AllChildren(t, p, names) && !Collapses(t, p)
    ensures MergedChildren(t, p, names) == MergedAt(t, p)
  {
    forall q
      ensures SameAt(MergedChildren(t, p, names), MergedAt(t, p), q)
    {
      NothingToCollapseAt(t, p, names, q);
    }
    SameEverywhere(MergedChildren(t, p, names), MergedAt(t, p));
  }

  predicate InBucket(p: Path, q: Path) {
    |q| > |p| && p <= q && IsBucket(q[|p|])
  }

  ghost function WithoutBuckets(t: Trie, p: Path): Trie {
    map q | q in t && !InBucket(p, q) :: t[q]
  }

  lemma BucketMerged(t: Trie, p: Path, names: set<string>, k: string)
    requires AllChildren(t, p, names) && p + [k] in t
    ensures var u := MergedChildren(t, p, names); p + [k] in u && u[p + [k]] == Final(t, p + [k])
  {
  }

  /** Once the children are merged the group collapses exactly as before. */
  lemma CollapseSurvives(t: Trie, p: Path, names: set<string>)
    requires p in t && AllChildren(t, p, names)
    ensures var u := MergedChildren(t, p, names);
      && p in u && u[p] == t[p]
      && (Collapses(u, p) <==> Collapses(t, p))
      && (Collapses(t, p) ==>
        Active(u, p) == Active(t, p) && p + [Active(t, p)] in u && u[p] + u[p + [Active(t, p)]] == Final(t, p))
  {
    if Collapses(t, p) {
      BucketMerged(t, p, names, "sandbox");
      BucketMerged(t, p, names, "production");
      BelowShrinks(t, p, Active(t, p));
    }
  }

  lemma CutBucketsAt(t: Trie, p: Path, names: set<string>, q: Path)
    requires p in t && AllChildren(t, p, names) && Collapses(t, p) && q != p
    ensures SameAt(WithoutBuckets(MergedChildren(t, p, names), p), MergedAt(t, p), q)
  {
    var u := MergedChildren(t, p, names);
    if q in t && p <= q {
      KeptFirstStep(t, p, q);
      assert IsIn(p, names, q);
      assert q in u <==> KeptFrom(t, |p| + 1, q);
    }
  }

  lemma SameButAt(u: Trie, v: Trie, p: Path)
    requires p in v && forall q :: q != p ==> SameAt(u, v, q)
    ensures u[p := v[p]] == v
  {
    var w := u[p := v[p]];
    forall q
      ensures SameAt(w, v, q)
    {
      assert q != p ==> SameAt(u, v, q);
    }
    SameEverywhere(w, v);
  }

  lemma AssignThenDrop(t: Trie, p: Path, fields: Fields)
    ensures WithoutBuckets(t[p := fields], p) == WithoutBuckets(t, p)[p := fields]
  {
  }

  /** With every child merged, taking over the active bucket's fields and cutting both buckets is what is left. */
  lemma CollapseLast(t: Trie, p: Path, names: set<string>)
    requires p in t && AllChildren(t, p, names) && Collapses(t, p)
    ensures WithoutBuckets(MergedChildren(t, p, names)[p := Final(t, p)], p) == MergedAt(t, p)
  {
    AssignThenDrop(MergedChildren(t, p, names), p, Final(t, p));
    forall q | q != p
      ensures SameAt(WithoutBuckets(MergedChildren(t, p, names), p), MergedAt(t, p), q)
    {
      CutBucketsAt(t, p, names, q);
    }
    SameButAt(WithoutBuckets(MergedChildren(t, p, names), p), MergedAt(t, p), p);
  }

  lemma MergedAtRoot(t: Trie)
    ensures MergedAt(t, []) == Merge(t)
  {
  }

  // ---- The tree ------------------------------------------------------------------

  class Node {
    var children: map<string, Node>
    var fields: Fields

    constructor ()
      ensures children == map[] && fields == map[]
    {
      children, fields := map[], map[];
    }
  }

  ghost predicate OnePathEach(nodes: map<Path, Node>) {
    forall p, q :: p in nodes && q in nodes && p != q ==> nodes[p] != nodes[q]
  }

  ghost predicate Closed(paths: set<Path>) {
    forall p, n :: p in paths && 0 <= n <= |p| ==> p[..n] in paths
  }

  lemma ClosedWithChild(paths: set<Path>, p: Path, k: string)
    requires Closed(paths) && p in paths
    ensures Closed(paths + {p + [k]})
  {
    forall q, n | q in paths + {p + [k]} && 0 <= n <= |q|
      ensures q[..n] in paths + {p + [k]}
    {
      if q == p + [k] {
        assert q[..n] == if n <= |p| then p[..n] else q;
      }
    }
  }

  lemma SameSnoc(p: Path, a: string, q: Path, b: string)
    ensures p + [a] == q + [b] <==> p == q && a == b
  {
    if p + [a] == q + [b] {
      assert (p + [a])[..|p|] == p && (q + [b])[..|q|] == q;
    }
  }

  class Tree {
    var root: Node
    ghost var nodes: map<Path, Node>

    ghost var repr: set<Node>

    ghost predicate Owned()
      reads this
    {
      forall p :: p in nodes ==> nodes[p] in repr
    }

    /** The links are exactly the paths. */
    ghost predicate Linked()
      requires Owned()
      reads this, repr
    {
      && (forall p, k :: p in nodes ==> (k in nodes[p].children <==> p + [k] in nodes))
      && (forall p, k :: p in nodes && k in nodes[p].children ==> nodes[p].children[k] == nodes[p + [k]])
    }

    ghost predicate Valid()
      reads this, repr
    {
      && [] in nodes && nodes[[]] == root
      && Owned() && OnePathEach(nodes) && Closed(nodes.Keys) && Linked()
    }

    ghost function Contents(): Trie
      requires Owned()
      reads this, repr
    {
      map p | p in nodes :: nodes[p].fields
    }

    constructor ()
      ensures Valid() && Contents() == EMPTY_TRIE && fresh(repr)
    {
      var node := new Node();
      root := node;
      nodes := map[[] := node];
      repr := {node};
    }

    lemma AllNamed(p: Path)
      requires Valid() && p in nodes
      ensures AllChildren(Contents(), p, nodes[p].children.Keys)
    {
      forall q | q in Contents() && p <= q && |q| > |p|
        ensures q[|p|] in nodes[p].children.Keys
      {
        assert q[..|p| + 1] == p + [q[|p|]];
      }
    }

    method AddChild(node: Node, segment: string, ghost p: Path)
      requires Valid() && p in nodes && nodes[p] == node && segment !in node.children
      modifies this`nodes, this`repr, node
      ensures Valid() && root == old(root)
      ensures nodes.Keys == old(nodes.Keys) + {p + [segment]} && p in nodes && nodes[p] == node
      ensures old(repr) <= repr && fresh(repr - old(repr))
      ensures Contents() == old(Contents())[p + [segment] := map[]]
    {
      var child := new Node();
      node.children := node.children[segment := child];
      nodes := nodes[p + [segment] := child];
      repr := repr + {child};
      ClosedWithChild(old(nodes.Keys), p, segment);
      forall q, k | q in nodes
        ensures k in nodes[q].children <==> q + [k] in nodes
        ensures k in nodes[q].children ==> nodes[q].children[k] == nodes[q + [k]]
      {
        SameSnoc(q, k, p, segment);
        assert (q + [k])[..|q|] == q;
        assert q + [k] in old(nodes) ==> q in old(nodes);
      }
    }

    /** One step of the walk: the child is created the first time a key passes through it. */
    method Enter(node: Node, segment: string, ghost p: Path) returns (child: Node)
      requires Valid() && p in nodes && nodes[p] == node
      modifies this`nodes, this`repr, node
      ensures Valid() && root == old(root)
      ensures p + [segment] in nodes && nodes[p + [segment]] == child
      ensures old(repr) <= repr && fresh(repr - old(repr))
      ensures var t := old(Contents());
        Contents() == if p + [segment] in t then t else t[p + [segment] := map[]]
    {
      if segment !in node.children {
        AddChild(node, segment, p);
      }
      child := node.children[segment];
    }

    method SetField(node: Node, name: string, setting: Setting, ghost p: Path)
      requires Valid() && p in nodes && nodes[p] == node
      modifies node`fields
      ensures Valid()
      ensures Contents() == old(Contents())[p := old(Contents())[p][name := setting]]
    {
      node.fields := node.fields[name := setting];
    }

    method EnterAll(groupSegments: Path) returns (node: Node)
      requires Valid()
      modifies this`nodes, this`repr, repr
      ensures Valid() && root == old(root)
      ensures old(repr) <= repr && fresh(repr - old(repr))
      ensures groupSegments in nodes && nodes[groupSegments] == node
      ensures Contents() == WithGroups(old(Contents()), groupSegments)
    {
      ghost var before := Contents();
      node := root;
      WithNoGroup(before, groupSegments);
      WholePrefix(groupSegments);
      for i := 0 to |groupSegments|
        invariant Valid() && root == old(root)
        invariant groupSegments[..i] in nodes && nodes[groupSegments[..i]] == node
        invariant Contents() == WithGroups(before, groupSegments[..i])
        invariant old(repr) <= repr && fresh(repr - old(repr))
      {
        PrefixSnoc(groupSegments, i);
        WithNextGroup(before, groupSegments, i);
        node := Enter(node, groupSegments[i], groupSegments[..i]);
      }
    }

    method Insert(setting: Setting)
      requires Valid()
      modifies this`nodes, this`repr, repr
      ensures Valid() && root == old(root)
      ensures old(repr) <= repr && fresh(repr - old(repr))
      ensures Contents() == SettingsTrie.Insert(old(Contents()), setting)
    {
      var segments := Split(setting.key);
      var fieldName := segments[|segments| - 1];
      var groupSegments := segments[..|segments| - 1];
      var node := EnterAll(groupSegments);
      SetField(node, fieldName, setting, groupSegments);
    }

    /** Object.assign over the node's fields. */
    method AssignFields(node: Node, fields: Fields, ghost p: Path)
      requires Valid() && p in nodes && nodes[p] == node
      modifies node`fields
      ensures Valid()
      ensures Contents() == old(Contents())[p := old(node.fields) + fields]
    {
      node.fields := node.fields + fields;
    }

    /** Deleting both buckets cuts every path through them. */
    method DropBuckets(node: Node, ghost p: Path)
      requires Valid() && p in nodes && nodes[p] == node
      modifies this`nodes, node`children
      ensures Valid() && root == old(root) && repr == old(repr) && PartOf(nodes, old(nodes))
      ensures Contents() == WithoutBuckets(old(Contents()), p)
    {
      node.children := node.children - {"sandbox", "production"};
      nodes := Pruned(nodes, p);
      PrunedIsClosed(old(nodes.Keys), nodes.Keys, p);
      forall q, k | q in nodes
        ensures k in nodes[q].children <==> q + [k] in nodes
        ensures k in nodes[q].children ==> nodes[q].children[k] == nodes[q + [k]]
      {
        BucketChild(p, q, k);
      }
    }

    /** Post-order: the children first, then this node takes over its active bucket and drops both. */
    method MergeActiveModeCredentials(node: Node, ghost p: Path)
      requires Valid() && p in nodes && nodes[p] == node
      modifies this`nodes, repr
      ensures Valid() && root == old(root) && repr == old(repr) && PartOf(nodes, old(nodes))
      ensures Contents() == MergedAt(old(Contents()), p)
      decreases Below(Contents(), p), 2
    {
      ghost var before, names := Contents(), node.children.Keys;
      AllNamed(p);
      MergeChildren(node, p);
      ghost var merged := nodes;
      CollapseSurvives(before, p, names);
      CollapseNode(node, p, before, names);
      PartOfPart(nodes, merged, old(nodes));
    }

    method CollapseNode(node: Node, ghost p: Path, ghost before: Trie, ghost names: set<string>)
      requires Valid() && p in nodes && nodes[p] == node
      requires p in before && AllChildren(before, p, names) && Contents() == MergedChildren(before, p, names)
      modifies this`nodes, node
      ensures Valid() && root == old(root) && repr == old(repr) && PartOf(nodes, old(nodes))
      ensures Contents() == MergedAt(before, p)
    {
      CollapseSurvives(before, p, names);
      if "mode" !in node.fields || "sandbox" !in node.children || "production" !in node.children {
        NothingToCollapse(before, p, names);
        return;
      }
      CollapseLast(before, p, names);
      var activeChild :=
        if node.fields["mode"].value == Some("PRODUCTION") then node.children["production"]
        else node.children["sandbox"];
      AssignFields(node, activeChild.fields, p);
      DropBuckets(node, p);
    }

    method MergeChildren(node: Node, ghost p: Path)
      requires Valid() && p in nodes && nodes[p] == node
      modifies this`nodes, repr
      ensures Valid() && root == old(root) && repr == old(repr) && PartOf(nodes, old(nodes))
      ensures Contents() == MergedChildren(old(Contents()), p, old(node.children.Keys))
      decreases Below(Contents(), p), 1
    {
      ghost var before, names, done := Contents(), node.children.Keys, {};
      var todo := node.children.Keys;
      MergedNone(before, p);
      while todo != {}
        invariant MoveOn(done, todo, names)
        invariant forall k :: k in names ==> p + [k] in before
        invariant Valid() && root == old(root) && repr == old(repr) && PartOf(nodes, old(nodes))
        invariant Contents() == MergedChildren(before, p, done)
        decreases |todo|
      {
        var k :| k in todo;
        ghost var sofar := nodes;
        NextMoves(done, todo, names, k);
        MergeChild(node, k, p, before, done);
        PartOfPart(nodes, sofar, old(nodes));
        done, todo := done + {k}, todo - {k};
      }
      assert done == names;
    }

    /** One more child, the others being as the loop left them. */
    method MergeChild(node: Node, k: string, ghost p: Path, ghost before: Trie, ghost done: set<string>)
      requires Valid() && p in before && p + [k] in before && k !in done
      requires Contents() == MergedChildren(before, p, done)
      requires p in nodes ==> nodes[p] == node
      modifies this`nodes, repr
      ensures Valid() && root == old(root) && repr == old(repr) && PartOf(nodes, old(nodes))
      ensures Contents() == MergedChildren(before, p, done + {k})
      decreases Below(before, p), 0
    {
      StillThere(before, p, done, k);
      assert p in Contents() && p + [k] in Contents();
      SmallerBelow(before, Contents(), p, k);
      MergeNextChild(before, p, done, k);
      MergeActiveModeCredentials(node.children[k], p + [k]);
    }
  }

  ghost predicate PartOf(nodes: map<Path, Node>, all: map<Path, Node>) {
    forall p :: p in nodes ==> p in all && nodes[p] == all[p]
  }

  lemma PartOfPart(a: map<Path, Node>, b: map<Path, Node>, c: map<Path, Node>)
    requires PartOf(a, b) && PartOf(b, c)
    ensures PartOf(a, c)
  {
  }

  ghost predicate MoveOn<T>(done: set<T>, todo: set<T>, all: set<T>) {
    done !! todo && done + todo == all
  }

  lemma NextMoves<T>(done: set<T>, todo: set<T>, all: set<T>, x: T)
    requires MoveOn(done, todo, all) && x in todo
    ensures MoveOn(done + {x}, todo - {x}, all) && x in all && x !in done
    ensures |todo - {x}| < |todo|
  {
  }

  ghost function Pruned(nodes: map<Path, Node>, p: Path): (pruned: map<Path, Node>)
    ensures forall q :: q in pruned <==> q in nodes && !InBucket(p, q)
    ensures PartOf(pruned, nodes)
  {
    map q | q in nodes && !InBucket(p, q) :: nodes[q]
  }

  lemma PrunedIsClosed(paths: set<Path>, pruned: set<Path>, p: Path)
    requires Closed(paths) && forall q :: q in pruned <==> q in paths && !InBucket(p, q)
    ensures Closed(pruned)
  {
  }

  lemma BucketChild(p: Path, q: Path, k: string)
    ensures InBucket(p, q + [k]) <==> InBucket(p, q) || (q == p && IsBucket(k))
  {
  }

  lemma MergedNone(t: Trie, p: Path)
    ensures MergedChildren(t, p, {}) == t
  {
  }

  lemma StillThere(t: Trie, p: Path, names: set<string>, k: string)
    requires k !in names
    ensures p in t ==> p in MergedChildren(t, p, names)
    ensures p + [k] in t ==> p + [k] in MergedChildren(t, p, names)
  {
  }

  lemma SmallerBelow(t: Trie, u: Trie, p: Path, k: string)
    requires p in t && u.Keys <= t.Keys
    ensures Below(u, p + [k]) < Below(t, p)
  {
    BelowShrinks(t, p, k);
    forall q | q in Below(u, p + [k])
      ensures q in Below(t, p + [k])
    {
    }
  }

  lemma WithNoGroup(t: Trie, p: Path)
    requires [] in t
    ensures WithGroups(t, p[..0]) == t
  {
  }

  lemma WithNextGroup(t: Trie, p: Path, i: nat)
    requires i < |p|
    ensures var u := WithGroups(t, p[..i]);
      WithGroups(t, p[..i + 1]) == if p[..i + 1] in u then u else u[p[..i + 1] := map[]]
  {
    var u, v := WithGroups(t, p[..i]), WithGroups(t, p[..i + 1]);
    var w := if p[..i + 1] in u then u else u[p[..i + 1] := map[]];
    forall q
      ensures SameAt(v, w, q)
    {
      WithGroupsDomain(t, p[..i], q);
      WithGroupsDomain(t, p[..i + 1], q);
      assert q <= p[..i + 1] <==> q <= p[..i] || q == p[..i + 1] by {
        if q <= p[..i + 1] && |q| <= i {
          assert q == p[..i][..|q|];
        }
      }
    }
    SameEverywhere(v, w);
  }

  lemma WithGroupsDomain(t: Trie, p: Path, q: Path)
    ensures q in WithGroups(t, p) <==> q in t || q <= p
    ensures q in WithGroups(t, p) ==> WithGroups(t, p)[q] == if q in t then t[q] else map[]
  {
    if q <= p {
      assert q == p[..|q|];
    }
  }

  // ---- Building ------------------------------------------------------------------

  lemma InsertAllSnoc(t: Trie, entries: seq<Setting>, s: Setting)
    ensures InsertAll(t, entries + [s]) == SettingsTrie.Insert(InsertAll(t, entries), s)
  {
  }

  lemma PrefixSnoc<T>(s: seq<T>, i: nat)
    requires i < |s|
    ensures s[..i + 1] == s[..i] + [s[i]]
  {
  }

  lemma WholePrefix<T>(s: seq<T>)
    ensures s[..|s|] == s && s[..0] == []
  {
  }

  lemma InsertSlot(settings: seq<Setting>, slots: seq<Setting>, j: nat)
    requires j < |slots|
    ensures InsertAll(EMPTY_TRIE, Entries(settings, slots[..j + 1])) ==
      var t := InsertAll(EMPTY_TRIE, Entries(settings, slots[..j]));
      if IsConfigured(settings, slots[j].key) then t else SettingsTrie.Insert(t, slots[j].(value := None))
  {
    assert slots[..j + 1][..j] == slots[..j];
    var entries, slot := Entries(settings, slots[..j]), slots[j].(value := None);
    if IsConfigured(settings, slots[j].key) {
      assert Entries(settings, slots[..j + 1]) == entries;
    } else {
      assert Entries(settings, slots[..j + 1]) == entries + [slot];
      InsertAllSnoc(EMPTY_TRIE, entries, slot);
    }
  }

  ghost predicate AreTheKeysOf(keys: set<string>, settings: seq<Setting>) {
    forall key :: key in keys <==> IsConfigured(settings, key)
  }

  lemma OneMoreKey(keys: set<string>, settings: seq<Setting>, s: Setting)
    requires AreTheKeysOf(keys, settings)
    ensures AreTheKeysOf(keys + {s.key}, settings + [s])
  {
    var longer := settings + [s];
    assert longer[|settings|] == s;
    forall key
      ensures key in keys + {s.key} <==> IsConfigured(longer, key)
    {
      if IsConfigured(settings, key) {
        var k :| 0 <= k < |settings| && settings[k].key == key;
        assert longer[k].key == key;
      }
    }
  }

  method InsertStored(tree: Tree, settings: seq<Setting>) returns (configuredKeys: set<string>)
    requires tree.Valid() && tree.Contents() == EMPTY_TRIE
    modifies tree`nodes, tree`repr, tree.repr
    ensures tree.Valid() && fresh(tree.repr - old(tree.repr))
    ensures tree.Contents() == InsertAll(EMPTY_TRIE, settings)
    ensures AreTheKeysOf(configuredKeys, settings)
  {
    configuredKeys := {};
    WholePrefix(settings);
    for i := 0 to |settings|
      invariant tree.Valid() && fresh(tree.repr - old(tree.repr))
      invariant AreTheKeysOf(configuredKeys, settings[..i])
      invariant tree.Contents() == InsertAll(EMPTY_TRIE, settings[..i])
    {
      PrefixSnoc(settings, i);
      InsertAllSnoc(EMPTY_TRIE, settings[..i], settings[i]);
      OneMoreKey(configuredKeys, settings[..i], settings[i]);
      configuredKeys := configuredKeys + {settings[i].key};
      tree.Insert(settings[i]);
    }
  }

  /** The tree the panel renders: stored settings, then the known slots still missing, then the merge. */
  method BuildSettingsTree(settings: seq<Setting>, slots: seq<Setting>) returns (tree: Tree)
    ensures fresh(tree) && tree.Valid()
    ensures tree.Contents() == Merge(InsertAll(EMPTY_TRIE, Entries(settings, slots)))
  {
    tree := new Tree();
    var configuredKeys := InsertStored(tree, settings);
    WholePrefix(slots);
    EntriesStart(settings);
    for j := 0 to |slots|
      invariant tree.Valid() && fresh(tree.repr)
      invariant tree.Contents() == InsertAll(EMPTY_TRIE, Entries(settings, slots[..j]))
    {
      InsertSlot(settings, slots, j);
      if slots[j].key !in configuredKeys {
        tree.Insert(slots[j].(value := None));
      }
    }
    MergedAtRoot(tree.Contents());
    tree.MergeActiveModeCredentials(tree.root, []);
  }
}
