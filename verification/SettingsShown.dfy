/** End to end: which stored settings and known slots the settings panel shows, and that it shows them once. */
module SettingsShown {
  import opened Prelude
  import opened SettingsKeys
  import opened SettingsTrie
  import opened SettingsPanel

  // ---- Where a merged field comes from -----------------------------------------

  /** From position n on, every step of the path goes into the active bucket of a collapsing group. */
  ghost predicate ActiveFrom(t: Trie, n: nat, g: Path) {
    forall i :: n <= i < |g| ==> Collapses(t, g[..i]) && g[i] == Active(t, g[..i])
  }

  /** A group strictly below, on the active steps only, holds a field of the same name. */
  ghost predicate Overridden(t: Trie, g: Path, f: string) {
    exists h :: HoldsBelow(t, g, h, f) && h != g
  }

  ghost predicate HoldsBelow(t: Trie, g: Path, h: Path, f: string) {
    g <= h && h in t && f in t[h] && ActiveFrom(t, |g|, h)
  }

  /** In terms of the merge: the field loses its place to one of the active bucket. */
  ghost predicate TakenOver(t: Trie, g: Path, f: string) {
    Collapses(t, g) && f in Final(t, g + [Active(t, g)])
  }

  lemma {:induction false} FinalComesFromBelow(t: Trie, p: Path, f: string) returns (h: Path)
    requires p in t && f in Final(t, p)
    ensures HoldsBelow(t, p, h, f)
    decreases Below(t, p)
  {
    if f in t[p] {
      h := p;
    } else {
      BelowShrinks(t, p, Active(t, p));
      h := FinalComesFromBelow(t, p + [Active(t, p)], f);
      assert h[..|p|] == p;
    }
  }

  lemma {:induction false} BelowReachesFinal(t: Trie, p: Path, h: Path, f: string)
    requires p in t && HoldsBelow(t, p, h, f)
    ensures f in Final(t, p)
    decreases |h| - |p|
  {
    if p != h {
      assert h[..|p|] == p && h[..|p| + 1] == p + [Active(t, p)];
      BelowShrinks(t, p, Active(t, p));
      BelowReachesFinal(t, p + [Active(t, p)], h, f);
    }
  }

  /** The merge takes a field over exactly when a group on the active steps below holds its name. */
  lemma OverriddenExactly(t: Trie, g: Path, f: string)
    ensures Overridden(t, g, f) <==> TakenOver(t, g, f)
  {
    if TakenOver(t, g, f) {
      var h := FinalComesFromBelow(t, g + [Active(t, g)], f);
      assert h[..|g|] == g;
      assert HoldsBelow(t, g, h, f);
    }
    if h :| HoldsBelow(t, g, h, f) && h != g {
      assert h[..|g|] == g && h[..|g| + 1] == g + [Active(t, g)];
      BelowReachesFinal(t, g + [Active(t, g)], h, f);
    }
  }

  ghost function Origin(t: Trie, p: Path, f: string): Path
    requires p in t
    decreases Below(t, p)
  {
    if TakenOver(t, p, f) then
      BelowShrinks(t, p, Active(t, p));
      Origin(t, p + [Active(t, p)], f)
    else p
  }

  lemma {:induction false} OriginHoldsTheField(t: Trie, p: Path, f: string)
    requires p in t && f in Final(t, p)
    ensures var g := Origin(t, p, f);
      && g in t && f in t[g] && t[g][f] == Final(t, p)[f]
      && p <= g && ActiveFrom(t, |p|, g) && !TakenOver(t, g, f)
    decreases Below(t, p)
  {
    if TakenOver(t, p, f) {
      var q := p + [Active(t, p)];
      BelowShrinks(t, p, Active(t, p));
      OriginHoldsTheField(t, q, f);
      var g := Origin(t, q, f);
      assert p <= g && g[..|p|] == p && g[|p|] == Active(t, p);
    }
  }

  lemma {:induction false} FieldReachesTheTop(t: Trie, p: Path, g: Path, f: string)
    requires p <= g && g in t && f in t[g] && p in t
    requires ActiveFrom(t, |p|, g) && !TakenOver(t, g, f)
    ensures f in Final(t, p) && Final(t, p)[f] == t[g][f]
    decreases |g| - |p|
  {
    if p != g {
      assert g[..|p|] == p;
      var q := g[..|p| + 1];
      assert q == p + [Active(t, p)];
      FieldReachesTheTop(t, q, g, f);
    } else if Collapses(t, p) {
      BelowShrinks(t, p, Active(t, p));
    }
  }

  /** How much of the path survives the merge. */
  function HomeLength(t: Trie, g: Path, i: nat): (n: nat)
    requires i <= |g|
    ensures i <= n <= |g|
    ensures forall k :: i <= k < n ==> !DropsAt(t, g, k)
    ensures n < |g| ==> DropsAt(t, g, n)
    decreases |g| - i
  {
    if i == |g| || DropsAt(t, g, i) then i else HomeLength(t, g, i + 1)
  }

  /** The group a field is shown under. */
  function Home(t: Trie, g: Path): Path {
    g[..HomeLength(t, g, 0)]
  }

  lemma HomeIsKept(t: Trie, g: Path)
    ensures KeptFrom(t, 0, Home(t, g))
  {
    var p := Home(t, g);
    forall i | 0 <= i < |p|
      ensures !DropsAt(t, p, i)
    {
      assert p[..i] == g[..i];
      assert !DropsAt(t, g, i);
    }
  }

  lemma HomeIsUnique(t: Trie, p: Path, g: Path)
    requires p <= g && KeptFrom(t, 0, p) && ActiveFrom(t, |p|, g)
    ensures p == Home(t, g)
  {
    var n := HomeLength(t, g, 0);
    if n < |p| {
      assert p[..n] == g[..n];
      assert DropsAt(t, p, n);
      assert false;
    }
    if |p| < |g| {
      assert DropsAt(t, g, |p|);
    }
  }

  // ---- In terms of the keys ---------------------------------------------------------

  ghost predicate HasFieldAt(entries: seq<Setting>, p: Path, f: string) {
    exists i :: 0 <= i < |entries| && GroupOf(entries[i].key) == p && FieldOf(entries[i].key) == f
  }

  ghost predicate HasKeyUnder(entries: seq<Setting>, p: Path) {
    exists i :: 0 <= i < |entries| && p <= GroupOf(entries[i].key)
  }

  lemma FieldAtExactly(entries: seq<Setting>, p: Path, f: string)
    ensures var t := InsertAll(EMPTY_TRIE, entries);
      && (p in t && f in t[p] <==> HasFieldAt(entries, p, f))
      && forall key :: GroupOf(key) == p && FieldOf(key) == f && p in t && f in t[p] ==>
           LastWith(entries, key) == Some(t[p][f])
  {
    var t := InsertAll(EMPTY_TRIE, entries);
    BuildKeepsShape(entries);
    if p in t && f in t[p] {
      var row: Setting := t[p][f];
      var key := row.key;
      LookupIsExact(entries, key);
      LastWithIsTheOne(entries, key);
      var i :| 0 <= i < |entries| && entries[i].key == key;
      assert GroupOf(entries[i].key) == p;
    }
    if i :| 0 <= i < |entries| && GroupOf(entries[i].key) == p && FieldOf(entries[i].key) == f {
      LookupIsExact(entries, entries[i].key);
      LastWithIsTheOne(entries, entries[i].key);
    }
    forall key | GroupOf(key) == p && FieldOf(key) == f && p in t && f in t[p]
      ensures LastWith(entries, key) == Some(t[p][f])
    {
      LookupIsExact(entries, key);
    }
  }

  /** A group collapses exactly when it has a mode of its own and settings under both of its buckets. */
  lemma CollapsesExactly(entries: seq<Setting>, p: Path)
    ensures Collapses(InsertAll(EMPTY_TRIE, entries), p) <==>
      HasFieldAt(entries, p, "mode") && HasKeyUnder(entries, p + ["sandbox"]) && HasKeyUnder(entries, p + ["production"])
  {
    FieldAtExactly(entries, p, "mode");
    GroupsAreExact(entries, p + ["sandbox"]);
    GroupsAreExact(entries, p + ["production"]);
  }

  /** Production is active exactly when the mode stored last is PRODUCTION; otherwise, even without a value, sandbox is. */
  lemma ActiveExactly(entries: seq<Setting>, p: Path, key: string)
    requires Collapses(InsertAll(EMPTY_TRIE, entries), p) && GroupOf(key) == p && FieldOf(key) == "mode"
    ensures LastWith(entries, key).Some?
    ensures Active(InsertAll(EMPTY_TRIE, entries), p) ==
      if LastWith(entries, key).value.value == Some("PRODUCTION") then "production" else "sandbox"
  {
    FieldAtExactly(entries, p, "mode");
  }

  // ---- What is shown --------------------------------------------------------------

  /** A field of the built tree is shown: it has a tab, only active steps lie below its home, and nothing overrides it. */
  ghost predicate Visible(t: Trie, g: Path, f: string) {
    Home(t, g) != [] && ActiveFrom(t, |Home(t, g)|, g) && !Overridden(t, g, f)
  }

  ghost function Shown(settings: seq<Setting>, slots: seq<Setting>): seq<Item> {
    Rendered(Merge(InsertAll(EMPTY_TRIE, Entries(settings, slots))))
  }

  ghost predicate ShowsKey(items: seq<Item>, key: string) {
    exists i :: 0 <= i < |items| && items[i].setting.key == key
  }

  /** Every shown item comes from one field of the built tree, which determines it. */
  lemma ItemOrigin(t: Trie, item: Item)
    requires WellFormed(t) && IsField(Merge(t), item) && item.group != []
    ensures var g := Origin(t, item.group, item.name);
      && g in t && item.name in t[g] && t[g][item.name] == item.setting
      && item.group == Home(t, g) && Visible(t, g, item.name)
  {
    OriginHoldsTheField(t, item.group, item.name);
    HomeIsUnique(t, item.group, Origin(t, item.group, item.name));
    OverriddenExactly(t, Origin(t, item.group, item.name), item.name);
  }

  lemma VisibleIsShown(t: Trie, g: Path, f: string)
    requires WellFormed(t) && g in t && f in t[g] && Visible(t, g, f)
    ensures IsField(Merge(t), Item(Home(t, g), f, t[g][f]))
  {
    HomeIsKept(t, g);
    OverriddenExactly(t, g, f);
    FieldReachesTheTop(t, Home(t, g), g, f);
  }

  /** No two items show the same key. */
  lemma KeysShownOnce(t: Trie, a: Item, b: Item)
    requires WellFormed(t) && InPlace(t) && a != b
    requires IsField(Merge(t), a) && a.group != [] && IsField(Merge(t), b) && b.group != []
    ensures a.setting.key != b.setting.key
  {
    ItemOrigin(t, a);
    ItemOrigin(t, b);
  }

  lemma ShownItems(settings: seq<Setting>, slots: seq<Setting>, item: Item)
    ensures var t := InsertAll(EMPTY_TRIE, Entries(settings, slots));
      WellFormed(t) && InPlace(t)
      && (item in Shown(settings, slots) <==> IsField(Merge(t), item) && item.group != [])
  {
    BuildKeepsShape(Entries(settings, slots));
    MergeKeepsShape(InsertAll(EMPTY_TRIE, Entries(settings, slots)));
    EveryFieldOnce(Merge(InsertAll(EMPTY_TRIE, Entries(settings, slots))));
  }

  lemma ShownIsVisible(settings: seq<Setting>, slots: seq<Setting>, item: Item)
    requires item in Shown(settings, slots)
    ensures var entries, key := Entries(settings, slots), item.setting.key;
      LastWith(entries, key) == Some(item.setting)
      && Visible(InsertAll(EMPTY_TRIE, entries), GroupOf(key), FieldOf(key))
  {
    var entries := Entries(settings, slots);
    ShownItems(settings, slots, item);
    ItemOrigin(InsertAll(EMPTY_TRIE, entries), item);
    LookupIsExact(entries, item.setting.key);
  }

  lemma VisibleKeyIsShown(settings: seq<Setting>, slots: seq<Setting>, key: string)
    requires var entries := Entries(settings, slots);
      LastWith(entries, key).Some? && Visible(InsertAll(EMPTY_TRIE, entries), GroupOf(key), FieldOf(key))
    ensures ShowsKey(Shown(settings, slots), key)
  {
    var entries := Entries(settings, slots);
    var t, g, f := InsertAll(EMPTY_TRIE, entries), GroupOf(key), FieldOf(key);
    LookupIsExact(entries, key);
    LastWithIsTheOne(entries, key);
    var item := Item(Home(t, g), f, t[g][f]);
    ShownItems(settings, slots, item);
    VisibleIsShown(t, g, f);
    var items := Shown(settings, slots);
    var i :| 0 <= i < |items| && items[i] == item;
    assert items[i].setting.key == key;
  }

  lemma NoKeyTwice(settings: seq<Setting>, slots: seq<Setting>)
    ensures var items := Shown(settings, slots);
      forall i, j :: 0 <= i < j < |items| ==> items[i].setting.key != items[j].setting.key
  {
    var items, t := Shown(settings, slots), InsertAll(EMPTY_TRIE, Entries(settings, slots));
    BuildKeepsShape(Entries(settings, slots));
    MergeKeepsShape(t);
    EveryFieldOnce(Merge(t));
    forall i, j | 0 <= i < j < |items|
      ensures items[i].setting.key != items[j].setting.key
    {
      assert items[i] in items && items[j] in items;
      KeysShownOnce(t, items[i], items[j]);
    }
  }

  /**
   For every list of settings and slots: each shown item is the last entry of its key, no key is
   shown twice, and a key is shown exactly when it has an entry whose field is visible.
   */
  lemma SettingsShownExactly(settings: seq<Setting>, slots: seq<Setting>, key: string)
    ensures var items := Shown(settings, slots);
      var entries := Entries(settings, slots);
      && (forall i, j :: 0 <= i < j < |items| ==> items[i].setting.key != items[j].setting.key)
      && (forall item :: item in items && item.setting.key == key ==> LastWith(entries, key) == Some(item.setting))
      && (ShowsKey(items, key) <==>
          LastWith(entries, key).Some? && Visible(InsertAll(EMPTY_TRIE, entries), GroupOf(key), FieldOf(key)))
  {
    var entries := Entries(settings, slots);
    NoKeyTwice(settings, slots);
    forall item | item in Shown(settings, slots) && item.setting.key == key
      ensures LastWith(entries, key) == Some(item.setting)
      ensures Visible(InsertAll(EMPTY_TRIE, entries), GroupOf(key), FieldOf(key))
    {
      ShownIsVisible(settings, slots, item);
    }
    if LastWith(entries, key).Some? && Visible(InsertAll(EMPTY_TRIE, entries), GroupOf(key), FieldOf(key)) {
      VisibleKeyIsShown(settings, slots, key);
    }
  }

  // ---- The promise, and what it takes ----------------------------------------------

  /** The group lies under "production" while its owner's mode is not PRODUCTION, or under "sandbox" while it is. */
  ghost predicate InInactiveBucket(t: Trie, g: Path) {
    exists i :: 0 <= i < |g| && DropsAt(t, g, i)
      && (g[i] == "production") != (t[g[..i]]["mode"].value == Some("PRODUCTION"))
  }

  /** Buckets hold no sub-groups, and their fields have names their owner does not use. */
  ghost predicate TidyBuckets(t: Trie) {
    forall p :: Collapses(t, p) ==>
      && (forall b, k :: IsBucket(b) ==> p + [b] + [k] !in t)
      && (forall f :: f in t[p + [Active(t, p)]] ==> f !in t[p])
  }

  lemma InactiveIsHidden(t: Trie, g: Path, f: string)
    requires InInactiveBucket(t, g)
    ensures !Visible(t, g, f)
  {
  }

  lemma TwoDown(t: Trie, g: Path, n: nat)
    requires WellFormed(t) && g in t && n + 1 < |g|
    ensures g[..n] + [g[n]] + [g[n + 1]] in t
  {
    assert g[..n + 2] == g[..n] + [g[n]] + [g[n + 1]];
  }

  lemma TidyIsVisible(t: Trie, g: Path, f: string)
    requires WellFormed(t) && TidyBuckets(t) && t[[]] == map[] && !InInactiveBucket(t, g)
    requires g in t && f in t[g]
    ensures Visible(t, g, f)
  {
    var n := HomeLength(t, g, 0);
    if n < |g| {
      var p := g[..n];
      assert Collapses(t, p) && g[n] == Active(t, p);
      if n + 1 < |g| {
        TwoDown(t, g, n);
        assert false;
      }
      assert g == p + [g[n]];
      assert !Collapses(t, g) by {
        assert p + [g[n]] + ["sandbox"] !in t;
      }
    } else if Collapses(t, g) {
      TidyNeverOverrides(t, g, f);
    }
    if !Collapses(t, g) {
      OverriddenExactly(t, g, f);
    }
  }

  lemma TidyNeverOverrides(t: Trie, g: Path, f: string)
    requires TidyBuckets(t) && Collapses(t, g) && f in t[g]
    ensures !Overridden(t, g, f)
  {
    OverriddenExactly(t, g, f);
    var c := g + [Active(t, g)];
    assert c + ["sandbox"] !in t;
    assert Final(t, c) == t[c];
  }

  lemma NoRootFields(entries: seq<Setting>)
    requires WellFormed(InsertAll(EMPTY_TRIE, entries)) && InPlace(InsertAll(EMPTY_TRIE, entries))
    requires forall key :: IsConfigured(entries, key) ==> |Split(key)| >= 2
    ensures InsertAll(EMPTY_TRIE, entries)[[]] == map[]
  {
    var t := InsertAll(EMPTY_TRIE, entries);
    forall f
      ensures f !in t[[]]
    {
      if f in t[[]] {
        var row: Setting := t[[]][f];
        LookupIsExact(entries, row.key);
        LastWithIsTheOne(entries, row.key);
        assert false;
      }
    }
  }

  lemma ConfiguredConcat(a: seq<Setting>, b: seq<Setting>, key: string)
    ensures IsConfigured(a + b, key) <==> IsConfigured(a, key) || IsConfigured(b, key)
  {
    var c := a + b;
    assert forall i :: 0 <= i < |a| ==> c[i] == a[i];
    assert forall i :: 0 <= i < |b| ==> c[|a| + i] == b[i];
    if IsConfigured(a, key) {
      var i :| 0 <= i < |a| && a[i].key == key;
      assert c[i].key == key;
    }
    if IsConfigured(b, key) {
      var i :| 0 <= i < |b| && b[i].key == key;
      assert c[|a| + i].key == key;
    }
    if IsConfigured(c, key) {
      var i :| 0 <= i < |c| && c[i].key == key;
      assert i >= |a| ==> b[i - |a|].key == key;
    }
  }

  lemma {:induction false} EntriesAreBoth(settings: seq<Setting>, slots: seq<Setting>, key: string)
    ensures IsConfigured(Entries(settings, slots), key) <==> IsConfigured(settings, key) || IsConfigured(slots, key)
  {
    if slots == [] {
      assert Entries(settings, slots) == settings;
    } else {
      var init, last := slots[..|slots| - 1], slots[|slots| - 1];
      var more: seq<Setting> := if IsConfigured(settings, last.key) then [] else [last.(value := None)];
      EntriesAreBoth(settings, init, key);
      assert Entries(settings, slots) == Entries(settings, init) + more;
      ConfiguredConcat(Entries(settings, init), more, key);
      ConfiguredConcat(init, [last], key);
      assert slots == init + [last] && [last][0] == last;
      assert more != [] ==> more[0].key == last.key;
    }
  }

  /**
   With keys of at least two segments and tidy buckets, the panel shows exactly the configured keys
   and the unconfigured known slots, less those of inactive buckets.
   */
  lemma NothingIsDropped(settings: seq<Setting>, slots: seq<Setting>, key: string)
    requires forall i :: 0 <= i < |settings| ==> |Split(settings[i].key)| >= 2
    requires forall i :: 0 <= i < |slots| ==> |Split(slots[i].key)| >= 2
    requires TidyBuckets(InsertAll(EMPTY_TRIE, Entries(settings, slots)))
    ensures ShowsKey(Shown(settings, slots), key) <==>
      (IsConfigured(settings, key) || IsConfigured(slots, key))
      && !InInactiveBucket(InsertAll(EMPTY_TRIE, Entries(settings, slots)), GroupOf(key))
  {
    var entries := Entries(settings, slots);
    var t := InsertAll(EMPTY_TRIE, entries);
    SettingsShownExactly(settings, slots, key);
    LookupIsExact(entries, key);
    LastWithIsTheOne(entries, key);
    forall k
      ensures IsConfigured(entries, k) <==> IsConfigured(settings, k) || IsConfigured(slots, k)
    {
      EntriesAreBoth(settings, slots, k);
    }
    BuildKeepsShape(entries);
    NoRootFields(entries);
    if LastWith(entries, key).Some? {
      if InInactiveBucket(t, GroupOf(key)) {
        InactiveIsHidden(t, GroupOf(key), FieldOf(key));
      } else {
        TidyIsVisible(t, GroupOf(key), FieldOf(key));
      }
    }
  }

  // ---- What is lost otherwise --------------------------------------------------------

  /** The root has no tab of its own: a key without a dot is stored but never shown. */
  lemma OneSegmentKeysAreNeverShown(settings: seq<Setting>, slots: seq<Setting>, key: string)
    requires |Split(key)| == 1
    ensures !ShowsKey(Shown(settings, slots), key)
  {
    SettingsShownExactly(settings, slots, key);
  }

  /** Only a bucket's own fields are taken over: what lies in a sub-group of a bucket is never shown, active or not. */
  lemma BucketSubGroupsAreNeverShown(settings: seq<Setting>, slots: seq<Setting>, p: Path, b: string, key: string)
    requires var t := InsertAll(EMPTY_TRIE, Entries(settings, slots));
      Collapses(t, p) && IsBucket(b) && !Collapses(t, p + [b])
    requires p + [b] < GroupOf(key)
    ensures !ShowsKey(Shown(settings, slots), key)
  {
    var t, g := InsertAll(EMPTY_TRIE, Entries(settings, slots)), GroupOf(key);
    assert g[..|p|] == p && g[|p|] == b && g[..|p| + 1] == p + [b];
    assert DropsAt(t, g, |p|);
    assert HomeLength(t, g, 0) <= |p|;
    SettingsShownExactly(settings, slots, key);
  }

  function Plain(key: string): Setting {
    Setting(key, false, false, None)
  }

  /** A dot-free path with a stored setting at its end is a field of the tree, and no other is. */
  lemma StoredField(entries: seq<Setting>, g: Path, f: string)
    requires '.' !in f && forall i :: 0 <= i < |g| ==> '.' !in g[i]
    ensures var t, key := InsertAll(EMPTY_TRIE, entries), Join(g + [f]);
      && GroupOf(key) == g && FieldOf(key) == f
      && ((g in t && f in t[g]) <==> IsConfigured(entries, key))
  {
    var key := Join(g + [f]);
    SplitJoin(g + [f]);
    LookupIsExact(entries, key);
    LastWithIsTheOne(entries, key);
  }

  /** A stored mode with a setting in each bucket makes the group collapse. */
  lemma StoredModeCollapses(entries: seq<Setting>, f: string)
    requires '.' !in f
    requires IsConfigured(entries, Join(["a"] + ["mode"]))
    requires IsConfigured(entries, Join(["a", "sandbox"] + [f]))
    requires IsConfigured(entries, Join(["a", "production"] + [f]))
    ensures var t := InsertAll(EMPTY_TRIE, entries);
      && Collapses(t, ["a"])
      && var c := ["a"] + [Active(t, ["a"])]; c in t && f in t[c]
  {
    StoredField(entries, ["a"], "mode");
    StoredField(entries, ["a", "sandbox"], f);
    StoredField(entries, ["a", "production"], f);
    PathSnoc();
  }

  lemma PathSnoc()
    ensures ["a"] + ["sandbox"] == ["a", "sandbox"] && ["a"] + ["production"] == ["a", "production"]
  {
  }

  lemma NoModeAtTheRoot(entries: seq<Setting>)
    requires !IsConfigured(entries, "mode")
    ensures !Collapses(InsertAll(EMPTY_TRIE, entries), [])
  {
    assert "mode" == Join([] + ["mode"]);
    StoredField(entries, [], "mode");
  }

  /** a.mode, a.key, a.sandbox.key and a.production.key. */
  const CLASH := [
    Plain(Join(["a"] + ["mode"])), Plain(Join(["a"] + ["key"])),
    Plain(Join(["a", "sandbox"] + ["key"])), Plain(Join(["a", "production"] + ["key"]))]

  lemma ClashKeys()
    ensures IsConfigured(CLASH, Join(["a"] + ["mode"])) && IsConfigured(CLASH, Join(["a"] + ["key"]))
    ensures IsConfigured(CLASH, Join(["a", "sandbox"] + ["key"]))
    ensures IsConfigured(CLASH, Join(["a", "production"] + ["key"]))
    ensures !IsConfigured(CLASH, "mode")
  {
    assert CLASH[0].key == Join(["a"] + ["mode"]) && CLASH[1].key == Join(["a"] + ["key"]);
    assert CLASH[2].key == Join(["a", "sandbox"] + ["key"]) && CLASH[3].key == Join(["a", "production"] + ["key"]);
    StartsWithHead(["a"], "mode");
    StartsWithHead(["a"], "key");
    StartsWithHead(["a", "sandbox"], "key");
    StartsWithHead(["a", "production"], "key");
  }

  lemma StartsWithHead(g: Path, f: string)
    requires g != [] && g[0] == "a"
    ensures Join(g + [f]) != "mode"
  {
    var segments := g + [f];
    assert Join(segments) == segments[0] + "." + Join(segments[1..]);
    assert Join(segments)[0] == 'a';
  }

  lemma TopGroupsAreActive(t: Trie, k: string)
    requires !Collapses(t, [])
    ensures !InInactiveBucket(t, [k])
  {
  }

  lemma OverriddenIsHidden(settings: seq<Setting>, slots: seq<Setting>, key: string)
    requires Overridden(InsertAll(EMPTY_TRIE, Entries(settings, slots)), GroupOf(key), FieldOf(key))
    ensures !ShowsKey(Shown(settings, slots), key)
  {
    SettingsShownExactly(settings, slots, key);
  }

  /** A field of the active bucket takes the name of a field of its owner: the owner's setting disappears. */
  lemma NameClashHidesASetting()
    ensures var key := Join(["a"] + ["key"]);
      && IsConfigured(CLASH, key)
      && !InInactiveBucket(InsertAll(EMPTY_TRIE, Entries(CLASH, [])), GroupOf(key))
      && !ShowsKey(Shown(CLASH, []), key)
  {
    var t := InsertAll(EMPTY_TRIE, CLASH);
    EntriesStart(CLASH);
    ClashKeys();
    StoredModeCollapses(CLASH, "key");
    StoredField(CLASH, ["a"], "key");
    NoModeAtTheRoot(CLASH);
    TopGroupsAreActive(t, "a");
    var c := ["a"] + [Active(t, ["a"])];
    assert c[..1] == ["a"];
    assert HoldsBelow(t, ["a"], c, "key");
    OverriddenIsHidden(CLASH, [], Join(["a"] + ["key"]));
  }
}
