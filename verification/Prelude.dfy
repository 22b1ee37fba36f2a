/** Small shared vocabulary: optional values, and lists that enumerate a set exactly once. */
module Prelude {
  datatype Option<+T> = None | Some(value: T) {
    function GetOr(default: T): T {
      match this
      case None => default
      case Some(v) => v
    }
  }

  ghost predicate NoDuplicates<T>(s: seq<T>) {
    forall i, j :: 0 <= i < j < |s| ==> s[i] != s[j]
  }

  /** The list holds every member of the set once and nothing else. */
  ghost predicate Lists<T>(s: seq<T>, members: set<T>) {
    && NoDuplicates(s)
    && (forall x :: x in s ==> x in members)
    && (forall x :: x in members ==> x in s)
  }
}
