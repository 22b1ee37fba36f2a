/**
 The settings tree as a value: each group path with the fields that lie directly in it. Building
 inserts every setting under its dotted key; merging folds the active credential bucket into the
 group that selects it and drops both buckets.
 */
module SettingsTrie {
  import opened Prelude
  import opened SettingsKeys

  type Path = seq<string>
  datatype Setting = Setting(key: string, isSwitch: bool, isEncrypted: bool, value: Option<string>)
  type Fields = map<string, Setting>
  type Trie = map<Path, Fields>

  const EMPTY_TRIE: Trie := map[[] := map[]]

  /** Every group above a group is there too. */
  ghost predicate WellFormed(t: Trie) {
    [] in t && forall p, n :: p in t && 0 <= n <= |p| ==> p[..n] in t
  }

  /** Every field lies where its key says. */
  ghost predicate InPlace(t: Trie) {
    forall p, f :: p in t && f in t[p] ==> GroupOf(t[p][f].key) == p && FieldOf(t[p][f].key) == f
  }

  // ---- Building --------------------------------------------------------------

  function WithGroups(t: Trie, p: Path): Trie {
    map q | q in t.Keys + (set n | 0 <= n <= |p| :: p[..n]) :: if q in t then t[q] else map[]
  }

  function Insert(t: Trie, s: Setting): Trie {
    var p := GroupOf(s.key);
    var grown := WithGroups(t, p);
    assert p[..|p|] == p;
    grown[p := grown[p][FieldOf(s.key) := s]]
  }

  function InsertAll(t: Trie, entries: seq<Setting>): Trie {
    if entries == [] then t else Insert(InsertAll(t, entries[..|entries| - 1]), entries[|entries| - 1])
  }

  predicate IsConfigured(settings: seq<Setting>, key: string) {
    exists i :: 0 <= i < |settings| && settings[i].key == key
  }

  /** The known slots no setting is stored for yet, as fields without a value. */
  function Unconfigured(settings: seq<Setting>, slots: seq<Setting>): seq<Setting> {
    if slots == [] then [] else
    var last := slots[|slots| - 1];
    Unconfigured(settings, slots[..|slots| - 1])
    + if IsConfigured(settings, last.key) then [] else [last.(value := None)]
  }

  function Entries(settings: seq<Setting>, slots: seq<Setting>): seq<Setting> {
    settings + Unconfigured(settings, slots)
  }

  lemma EntriesStart(settings: seq<Setting>)
    ensures Entries(settings, []) == settings
  {
  }

  function Lookup(t: Trie, key: string): Option<Setting> {
    var p, f := GroupOf(key), FieldOf(key);
    if p in t && f in t[p] then Some(t[p][f]) else None
  }

  function LastWith(entries: seq<Setting>, key: string): Option<Setting> {
    if entries == [] then None else
    var last := entries[|entries| - 1];
    if last.key == key then Some(last) else LastWith(entries[..|entries| - 1], key)
  }

  ghost predicate HasGroup(entries: seq<Setting>, p: Path) {
    p == [] || exists i :: 0 <= i < |entries| && p <= GroupOf(entries[i].key)
  }

  lemma InsertDomain(t: Trie, s: Setting, q: Path)
    ensures q in Insert(t, s) <==> q in t || q <= GroupOf(s.key)
  {
    var p := GroupOf(s.key);
    if q <= p {
      assert q == p[..|q|];
    }
  }

  lemma InsertKeepsShape(t: Trie, s: Setting)
    requires WellFormed(t) && InPlace(t)
    ensures WellFormed(Insert(t, s)) && InPlace(Insert(t, s))
  {
    var t' := Insert(t, s);
    forall p, n | p in t' && 0 <= n <= |p|
      ensures p[..n] in t'
    {
      InsertDomain(t, s, p);
      InsertDomain(t, s, p[..n]);
    }
    InsertDomain(t, s, []);
  }

  lemma InsertThenLookup(t: Trie, s: Setting, key: string)
    ensures Lookup(Insert(t, s), key) == if key == s.key then Some(s) else Lookup(t, key)
  {
    InsertDomain(t, s, GroupOf(key));
    if GroupOf(key) == GroupOf(s.key) && FieldOf(key) == FieldOf(s.key) {
      KeyFromParts(key, s.key);
    }
  }

  lemma {:induction false} BuildKeepsShape(entries: seq<Setting>)
    ensures WellFormed(InsertAll(EMPTY_TRIE, entries)) && InPlace(InsertAll(EMPTY_TRIE, entries))
  {
    if entries != [] {
      BuildKeepsShape(entries[..|entries| - 1]);
      InsertKeepsShape(InsertAll(EMPTY_TRIE, entries[..|entries| - 1]), entries[|entries| - 1]);
    }
  }

  /** Looking a key up in the tree gives the last setting inserted under it, and nothing for any other key. */
  lemma {:induction false} LookupIsExact(entries: seq<Setting>, key: string)
    ensures Lookup(InsertAll(EMPTY_TRIE, entries), key) == LastWith(entries, key)
  {
    if entries != [] {
      LookupIsExact(entries[..|entries| - 1], key);
      InsertThenLookup(InsertAll(EMPTY_TRIE, entries[..|entries| - 1]), entries[|entries| - 1], key);
    }
  }

  lemma HasGroupSnoc(init: seq<Setting>, last: Setting, p: Path)
    ensures HasGroup(init + [last], p) <==> HasGroup(init, p) || p <= GroupOf(last.key)
  {
    var entries := init + [last];
    assert entries[|init|] == last;
    if HasGroup(init, p) && p != [] {
      var i :| 0 <= i < |init| && p <= GroupOf(init[i].key);
      assert entries[i] == init[i];
    }
  }

  /** The groups of the tree are the root and the groups some key passes through. */
  lemma {:induction false} GroupsAreExact(entries: seq<Setting>, p: Path)
    ensures p in InsertAll(EMPTY_TRIE, entries) <==> HasGroup(entries, p)
  {
    if entries != [] {
      var init, last := entries[..|entries| - 1], entries[|entries| - 1];
      GroupsAreExact(init, p);
      InsertDomain(InsertAll(EMPTY_TRIE, init), last, p);
      HasGroupSnoc(init, last, p);
      assert entries == init + [last];
    }
  }

  ghost predicate DistinctKeys(entries: seq<Setting>) {
    forall i, j :: 0 <= i < j < |entries| ==> entries[i].key != entries[j].key
  }

  lemma {:induction false} LastWithIsTheOne(entries: seq<Setting>, key: string)
    ensures LastWith(entries, key).Some? ==> LastWith(entries, key).value in entries && LastWith(entries, key).value.key == key
    ensures IsConfigured(entries, key) <==> LastWith(entries, key).Some?
    ensures DistinctKeys(entries) ==>
      forall s :: s in entries && s.key == key ==> LastWith(entries, key) == Some(s)
  {
    if entries != [] {
      var init, last := entries[..|entries| - 1], entries[|entries| - 1];
      LastWithIsTheOne(init, key);
      assert forall i :: 0 <= i < |init| ==> init[i] == entries[i];
      assert forall s :: s in entries <==> s in init || s == last;
      if IsConfigured(entries, key) && last.key != key {
        var i :| 0 <= i < |entries| && entries[i].key == key;
        assert init[i].key == key;
      }
      if IsConfigured(init, key) {
        var i :| 0 <= i < |init| && init[i].key == key;
        assert entries[i].key == key;
      }
      if DistinctKeys(entries) {
        forall s | s in entries && s.key == key
          ensures LastWith(entries, key) == Some(s)
        {
          if s in init {
            var i :| 0 <= i < |init| && init[i] == s;
            assert entries[i].key != last.key;
          }
        }
      }
    }
  }

  /** The last entry of a key is one with no other of that key after it. */
  lemma {:induction false} LastWithIsLast(entries: seq<Setting>, key: string, i: nat)
    requires i < |entries| && entries[i].key == key && forall j :: i < j < |entries| ==> entries[j].key != key
    ensures LastWith(entries, key) == Some(entries[i])
  {
    if i < |entries| - 1 {
      LastWithIsLast(entries[..|entries| - 1], key, i);
    }
  }

  /** A known slot never hides a stored setting; where nothing is stored it stands as listed, but without a value. */
  lemma {:induction false} SlotsOnlyFillGaps(settings: seq<Setting>, slots: seq<Setting>, key: string)
    ensures LastWith(Entries(settings, slots), key) ==
      match LastWith(settings, key)
      case Some(stored) => Some(stored)
      case None => (match LastWith(slots, key) case Some(slot) => Some(slot.(value := None)) case None => None)
  {
    if slots == [] {
      EntriesStart(settings);
    } else {
      var init, last := slots[..|slots| - 1], slots[|slots| - 1];
      SlotsOnlyFillGaps(settings, init, key);
      var before := Entries(settings, init);
      StoredIsFound(settings, last.key);
      if IsConfigured(settings, last.key) {
        assert Entries(settings, slots) == before;
      } else {
        assert Entries(settings, slots) == before + [last.(value := None)];
        assert (before + [last.(value := None)])[..|before|] == before;
      }
    }
  }

  lemma StoredIsFound(settings: seq<Setting>, key: string)
    ensures IsConfigured(settings, key) <==> LastWith(settings, key).Some?
  {
    LastWithIsTheOne(settings, key);
  }

  /** The tree does not depend on the order in which the settings arrive. */
  lemma BuildIgnoresOrder(a: seq<Setting>, b: seq<Setting>)
    requires DistinctKeys(a) && DistinctKeys(b) && forall s :: s in a <==> s in b
    ensures InsertAll(EMPTY_TRIE, a) == InsertAll(EMPTY_TRIE, b)
  {
    GroupsAgree(a, b);
    GroupsAgree(b, a);
    FieldsAgree(a, b);
    FieldsAgree(b, a);
    SameTrie(InsertAll(EMPTY_TRIE, a), InsertAll(EMPTY_TRIE, b));
  }

  ghost predicate FieldsWithin(s: Trie, t: Trie) {
    forall p, f :: p in s && f in s[p] ==> p in t && f in t[p] && t[p][f] == s[p][f]
  }

  lemma SameTrie(s: Trie, t: Trie)
    requires (forall p :: p in s <==> p in t) && FieldsWithin(s, t) && FieldsWithin(t, s)
    ensures s == t
  {
    forall p | p in s
      ensures s[p] == t[p]
    {
      var a, b := s[p], t[p];
      assert forall f :: f in a ==> f in b && b[f] == a[f];
      assert forall f :: f in b ==> f in a;
    }
  }

  lemma GroupsAgree(a: seq<Setting>, b: seq<Setting>)
    requires forall s :: s in a ==> s in b
    ensures forall p :: p in InsertAll(EMPTY_TRIE, a) ==> p in InsertAll(EMPTY_TRIE, b)
  {
    forall p | p in InsertAll(EMPTY_TRIE, a)
      ensures p in InsertAll(EMPTY_TRIE, b)
    {
      GroupsAreExact(a, p);
      GroupsAreExact(b, p);
      if p != [] {
        var i :| 0 <= i < |a| && p <= GroupOf(a[i].key);
        assert a[i] in b;
        var j :| 0 <= j < |b| && b[j] == a[i];
        assert p <= GroupOf(b[j].key);
      }
    }
  }

  lemma FieldsAgree(a: seq<Setting>, b: seq<Setting>)
    requires DistinctKeys(a) && DistinctKeys(b) && forall s :: s in a ==> s in b
    ensures FieldsWithin(InsertAll(EMPTY_TRIE, a), InsertAll(EMPTY_TRIE, b))
  {
    var s, t := InsertAll(EMPTY_TRIE, a), InsertAll(EMPTY_TRIE, b);
    BuildKeepsShape(a);
    forall p, f | p in s && f in s[p]
      ensures p in t && f in t[p] && t[p][f] == s[p][f]
    {
      var row: Setting := s[p][f];
      var key := row.key;
      LookupIsExact(a, key);
      LookupIsExact(b, key);
      LastWithIsTheOne(a, key);
      LastWithIsTheOne(b, key);
    }
  }

  // ---- Merging the active credentials ------------------------------------------

  predicate IsBucket(name: string) {
    name == "sandbox" || name == "production"
  }

  predicate Collapses(t: Trie, p: Path) {
    p in t && "mode" in t[p] && p + ["sandbox"] in t && p + ["production"] in t
  }

  function Active(t: Trie, p: Path): string
    requires Collapses(t, p)
  {
    if t[p]["mode"].value == Some("PRODUCTION") then "production" else "sandbox"
  }

  ghost function Below(t: Trie, p: Path): set<Path> {
    set q | q in t && p <= q
  }

  lemma BelowShrinks(t: Trie, p: Path, k: string)
    requires p in t
    ensures Below(t, p + [k]) < Below(t, p)
  {
    assert p in Below(t, p) && p !in Below(t, p + [k]);
  }

  /** A group's fields after merging: those of the active bucket, merged likewise, override its own. */
  ghost function Final(t: Trie, p: Path): Fields
    requires p in t
    decreases Below(t, p)
  {
    if Collapses(t, p) then
      BelowShrinks(t, p, Active(t, p));
      t[p] + Final(t, p + [Active(t, p)])
    else t[p]
  }

  /** Step i of the path goes into a bucket of a collapsing group. */
  predicate DropsAt(t: Trie, p: Path, i: nat)
    requires i < |p|
  {
    Collapses(t, p[..i]) && IsBucket(p[i])
  }

  predicate KeptFrom(t: Trie, n: nat, p: Path) {
    forall i :: n <= i < |p| ==> !DropsAt(t, p, i)
  }

  /** The whole tree merged: groups inside a dropped bucket go, the others get their final fields. */
  ghost function Merge(t: Trie): Trie {
    map p | p in t && KeptFrom(t, 0, p) :: Final(t, p)
  }

  /** The merged tree has exactly the groups that no step takes into a bucket of a collapsing group. */
  lemma KeptExactly(t: Trie, p: Path)
    ensures p in Merge(t) <==>
      p in t && forall i :: 0 <= i < |p| && Collapses(t, p[..i]) ==> p[i] != "sandbox" && p[i] != "production"
  {
    if p in t && forall i :: 0 <= i < |p| && Collapses(t, p[..i]) ==> p[i] != "sandbox" && p[i] != "production" {
      forall i | 0 <= i < |p|
        ensures !DropsAt(t, p, i)
      {
      }
    }
    if p in Merge(t) {
      forall i | 0 <= i < |p| && Collapses(t, p[..i])
        ensures p[i] != "sandbox" && p[i] != "production"
      {
        assert !DropsAt(t, p, i);
      }
    }
  }

  lemma KeptPrefix(t: Trie, p: Path, n: nat)
    requires KeptFrom(t, 0, p) && n <= |p|
    ensures KeptFrom(t, 0, p[..n])
  {
    forall i | 0 <= i < n
      ensures !DropsAt(t, p[..n], i)
    {
      assert p[..n][..i] == p[..i];
      assert !DropsAt(t, p, i);
    }
  }

  lemma MergeKeepsShape(t: Trie)
    requires WellFormed(t)
    ensures WellFormed(Merge(t))
  {
    forall p, n | p in Merge(t) && 0 <= n <= |p|
      ensures p[..n] in Merge(t)
    {
      KeptPrefix(t, p, n);
    }
  }

  lemma KeptChild(t: Trie, p: Path, k: string)
    requires KeptFrom(t, 0, p)
    ensures KeptFrom(t, 0, p + [k]) <==> !(Collapses(t, p) && IsBucket(k))
  {
    var q := p + [k];
    assert q[..|p|] == p;
    forall i | 0 <= i < |p|
      ensures !DropsAt(t, q, i)
    {
      assert q[..i] == p[..i];
      assert !DropsAt(t, p, i);
    }
    assert DropsAt(t, q, |p|) <==> Collapses(t, p) && IsBucket(k);
  }

  /** After merging no group has a mode and both buckets. */
  lemma MergeLeavesNothingToCollapse(t: Trie, p: Path)
    ensures !Collapses(Merge(t), p)
  {
    if p in Merge(t) {
      KeptChild(t, p, "sandbox");
      assert !Collapses(t, p) ==> Merge(t)[p] == t[p];
    }
  }

  /** Merging twice is merging once. */
  lemma MergeIsIdempotent(t: Trie)
    ensures Merge(Merge(t)) == Merge(t)
  {
    var m := Merge(t);
    forall p | p in m
      ensures KeptFrom(m, 0, p) && Final(m, p) == m[p]
    {
      MergeLeavesNothingToCollapse(t, p);
      forall i | 0 <= i < |p|
        ensures !DropsAt(m, p, i)
      {
        MergeLeavesNothingToCollapse(t, p[..i]);
      }
    }
  }

  /** Outside collapsing groups nothing changes: such a group keeps exactly its fields and its sub-groups. */
  lemma MergeIsLocal(t: Trie, p: Path)
    requires p in Merge(t) && !Collapses(t, p)
    ensures p in t && Merge(t)[p] == t[p]
    ensures forall k :: p + [k] in Merge(t) <==> p + [k] in t
  {
    forall k
      ensures p + [k] in Merge(t) <==> p + [k] in t
    {
      KeptChild(t, p, k);
    }
  }
}
