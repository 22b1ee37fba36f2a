/** Dot-separated setting keys, and the orders the settings panel sorts names by. */
module SettingsKeys {
  import opened Prelude

  // ---- Keys and segments -----------------------------------------------------

  /** key.split('.'): always at least one segment, possibly empty ones. */
  function Split(key: string): (segments: seq<string>)
    ensures |segments| >= 1
  {
    if key == "" then [""] else
    var rest := Split(key[1..]);
    if key[0] == '.' then [""] + rest else [[key[0]] + rest[0]] + rest[1..]
  }

  function Join(segments: seq<string>): string
    requires |segments| >= 1
  {
    if |segments| == 1 then segments[0] else segments[0] + "." + Join(segments[1..])
  }

  lemma {:induction false} JoinSplit(key: string)
    ensures Join(Split(key)) == key
  {
    if key != "" {
      JoinSplit(key[1..]);
      var rest := Split(key[1..]);
      assert key == [key[0]] + key[1..];
      if key[0] == '.' {
        assert Split(key)[1..] == rest;
      } else {
        assert Split(key)[1..] == rest[1..];
      }
    }
  }

  lemma {:induction false} SplitJoin(segments: seq<string>)
    requires |segments| >= 1 && forall i :: 0 <= i < |segments| ==> '.' !in segments[i]
    ensures Split(Join(segments)) == segments
    decreases |segments|, |segments[0]|
  {
    var head, key := segments[0], Join(segments);
    if head == "" {
      if |segments| > 1 {
        SplitJoin(segments[1..]);
        assert key[1..] == Join(segments[1..]);
      }
    } else {
      var shorter := [head[1..]] + segments[1..];
      assert shorter[1..] == segments[1..];
      SplitJoin(shorter);
      assert key[0] == head[0] && key[1..] == Join(shorter);
      assert head == [head[0]] + head[1..];
      assert segments == [head] + segments[1..];
    }
  }

  /** The group a key's field lives in, and the field's name there. */
  function GroupOf(key: string): seq<string> {
    Split(key)[..|Split(key)| - 1]
  }

  function FieldOf(key: string): string {
    Split(key)[|Split(key)| - 1]
  }

  /** A key is determined by its group and its field. */
  lemma KeyFromParts(a: string, b: string)
    requires GroupOf(a) == GroupOf(b) && FieldOf(a) == FieldOf(b)
    ensures a == b
  {
    JoinSplit(a);
    JoinSplit(b);
    LastApart(Split(a));
    LastApart(Split(b));
  }

  lemma LastApart<T>(s: seq<T>)
    requires s != []
    ensures s == s[..|s| - 1] + [s[|s| - 1]]
  {
  }

  // ---- Orders ------------------------------------------------------------------

  /** Alphabetical order by code unit. */
  predicate Less(a: string, b: string) {
    b != "" && (a == "" || a[0] < b[0] || (a[0] == b[0] && Less(a[1..], b[1..])))
  }

  /** Sub-groups sort by name; the fields of a block put the switches first. */
  datatype Order = Alphabetical | SwitchesFirst(switches: set<string>)

  predicate Precedes(o: Order, a: string, b: string) {
    match o
    case Alphabetical => Less(a, b)
    case SwitchesFirst(switches) =>
      if (a in switches) != (b in switches) then a in switches else Less(a, b)
  }

  /** The strings agree up to k, where the first ends or has the smaller character. */
  ghost predicate SmallerAt(a: string, b: string, k: nat) {
    k <= |a| && k < |b| && (forall i :: 0 <= i < k ==> a[i] == b[i]) && (k == |a| || a[k] < b[k])
  }

  /** The order is that of dictionaries. */
  lemma {:induction false} LessIsLexicographic(a: string, b: string)
    ensures Less(a, b) <==> exists k: nat :: SmallerAt(a, b, k)
  {
    if a == "" || b == "" || a[0] != b[0] {
      assert Less(a, b) ==> SmallerAt(a, b, 0);
    } else {
      LessIsLexicographic(a[1..], b[1..]);
      if k: nat :| SmallerAt(a[1..], b[1..], k) {
        SmallerFurther(a, b, k);
      }
      if k: nat :| SmallerAt(a, b, k) {
        SmallerFurther(a, b, k - 1);
      }
    }
  }

  lemma SmallerFurther(a: string, b: string, k: nat)
    requires a != "" && b != "" && a[0] == b[0]
    ensures SmallerAt(a, b, k + 1) <==> SmallerAt(a[1..], b[1..], k)
  {
    if SmallerAt(a[1..], b[1..], k) {
      forall i | 0 <= i < k + 1
        ensures a[i] == b[i]
      {
        assert i > 0 ==> a[i] == a[1..][i - 1] && b[i] == b[1..][i - 1];
      }
    }
  }

  lemma {:induction false} LessIsTotal(a: string, b: string)
    ensures Less(a, b) || Less(b, a) || a == b
    ensures !(Less(a, b) && Less(b, a)) && !Less(a, a)
    decreases |a|
  {
    if a != "" {
      LessIsTotal(a[1..], a[1..]);
      if b != "" {
        LessIsTotal(a[1..], b[1..]);
        assert a == [a[0]] + a[1..] && b == [b[0]] + b[1..];
      }
    }
  }

  lemma {:induction false} LessIsTransitive(a: string, b: string, c: string)
    requires Less(a, b) && Less(b, c)
    ensures Less(a, c)
  {
    if a != "" && a[0] == b[0] == c[0] {
      LessIsTransitive(a[1..], b[1..], c[1..]);
    }
  }

  lemma PrecedesIsTotal(o: Order, a: string, b: string)
    ensures Precedes(o, a, b) || Precedes(o, b, a) || a == b
    ensures !(Precedes(o, a, b) && Precedes(o, b, a))
  {
    LessIsTotal(a, b);
  }

  lemma PrecedesIsTransitive(o: Order, a: string, b: string, c: string)
    requires Precedes(o, a, b) && Precedes(o, b, c)
    ensures Precedes(o, a, c)
  {
    if Less(a, b) && Less(b, c) {
      LessIsTransitive(a, b, c);
    }
  }

  // ---- Sorting -------------------------------------------------------------------

  predicate IsFirst(o: Order, names: set<string>, a: string) {
    a in names && forall b :: b in names && b != a ==> Precedes(o, a, b)
  }

  lemma {:induction false} FirstExists(o: Order, names: set<string>)
    requires names != {}
    ensures exists a :: IsFirst(o, names, a)
    decreases |names|
  {
    var x :| x in names;
    var others := names - {x};
    if others == {} {
      assert forall b :: b in names && b != x ==> b in others;
      assert IsFirst(o, names, x);
    } else {
      FirstExists(o, others);
      var y :| IsFirst(o, others, y);
      PrecedesIsTotal(o, x, y);
      var first := if Precedes(o, x, y) then x else y;
      forall b | b in names && b != first
        ensures Precedes(o, first, b)
      {
        if first == x && b != y {
          PrecedesIsTransitive(o, x, y, b);
        }
      }
      assert IsFirst(o, names, first);
    }
  }

  lemma FirstIsUnique(o: Order, names: set<string>, a: string, b: string)
    requires IsFirst(o, names, a) && IsFirst(o, names, b)
    ensures a == b
  {
    PrecedesIsTotal(o, a, b);
  }

  /** Object.entries(...).sort(...): names are distinct and the order is total, so the result is unique. */
  ghost function Sorted(names: set<string>, o: Order): seq<string>
    decreases |names|
  {
    if names == {} then [] else
    FirstExists(o, names);
    var a :| IsFirst(o, names, a);
    [a] + Sorted(names - {a}, o)
  }

  ghost predicate InOrder(s: seq<string>, o: Order) {
    forall i, j :: 0 <= i < j < |s| ==> Precedes(o, s[i], s[j])
  }

  lemma FirstThenRest(a: string, rest: seq<string>, names: set<string>, o: Order)
    requires IsFirst(o, names, a) && Lists(rest, names - {a}) && InOrder(rest, o)
    ensures Lists([a] + rest, names) && InOrder([a] + rest, o)
  {
  }

  /** Sorting keeps every name, once, in order. */
  lemma {:induction false} SortedIsSorted(names: set<string>, o: Order)
    ensures Lists(Sorted(names, o), names) && InOrder(Sorted(names, o), o)
    decreases |names|
  {
    if names != {} {
      FirstExists(o, names);
      var a := Sorted(names, o)[0];
      assert IsFirst(o, names, a);
      SortedIsSorted(names - {a}, o);
      FirstThenRest(a, Sorted(names - {a}, o), names, o);
      assert Sorted(names, o) == [a] + Sorted(names - {a}, o);
    }
  }

  lemma {:induction false} SortingIsUnique(s: seq<string>, t: seq<string>, names: set<string>, o: Order)
    requires Lists(s, names) && Lists(t, names) && InOrder(s, o) && InOrder(t, o)
    ensures s == t
  {
    EmptyLists(s, names);
    EmptyLists(t, names);
    if s != [] {
      assert IsFirst(o, names, s[0]) && IsFirst(o, names, t[0]);
      FirstIsUnique(o, names, s[0], t[0]);
      DropFirst(s, names);
      DropFirst(t, names);
      SortingIsUnique(s[1..], t[1..], names - {s[0]}, o);
    }
  }

  lemma EmptyLists(s: seq<string>, names: set<string>)
    requires Lists(s, names)
    ensures s == [] <==> names == {}
  {
    if s != [] {
      assert s[0] in s;
    }
  }

  lemma DropFirst(s: seq<string>, names: set<string>)
    requires Lists(s, names) && s != []
    ensures Lists(s[1..], names - {s[0]})
  {
  }
}
