/**
 Uploaded images waiting to be attached. A consumer reads which references are usable, then, in a
 transaction, writes its rows and marks the references consumed; it rolls back when the number of
 references it managed to mark is not the number it asked for. A row stands for its reference's file.
 */
module MediaUploads {
  import opened Prelude

  type Id = nat

  datatype Use = QuoteAttachment | NegotiationImage | ChatImage
  datatype Ref = Ref(user: Id, use: Use, expiresAt: nat, consumed: bool)
  /** `author` is the user whose call attached the image. */
  datatype Image = Image(author: Id, target: Id, use: Use, file: Id, order: nat)
  datatype Uploads = Uploads(refs: seq<Ref>, images: seq<Image>, now: nat)

  /** What a consumer carries from its read into its transaction. */
  datatype Consumer = Finished | Consumer(user: Id, target: Id, use: Use, ids: seq<Id>)

  // ---- The two statements ----------------------------------------------------

  predicate IsUsable(ref: Ref, user: Id, use: Use, now: nat) {
    !ref.consumed && ref.user == user && ref.use == use && now < ref.expiresAt
  }

  /** The positions below n, in table order, that the list names and the flags allow. */
  function Selected(flags: seq<bool>, ids: seq<Id>, n: nat): seq<Id>
    requires n <= |flags|
  {
    if n == 0 then [] else
    var before := Selected(flags, ids, n - 1);
    if flags[n - 1] && (n - 1) in ids then before + [n - 1] else before
  }

  lemma {:induction false} SelectedLists(flags: seq<bool>, ids: seq<Id>, n: nat)
    requires n <= |flags|
    ensures forall i: nat :: i in Selected(flags, ids, n) <==> i < n && flags[i] && i in ids
    ensures NoDuplicates(Selected(flags, ids, n))
  {
    if n > 0 {
      SelectedLists(flags, ids, n - 1);
      NoDuplicatesSnoc(Selected(flags, ids, n - 1), n - 1);
    }
  }

  function UsableFlags(d: Uploads, user: Id, use: Use): (flags: seq<bool>) {
    seq(|d.refs|, i requires 0 <= i < |d.refs| => IsUsable(d.refs[i], user, use, d.now))
  }

  function PendingFlags(d: Uploads): (flags: seq<bool>) {
    seq(|d.refs|, i requires 0 <= i < |d.refs| => !d.refs[i].consumed)
  }

  function UsableRefs(d: Uploads, user: Id, ids: seq<Id>, use: Use): seq<Id> {
    Selected(UsableFlags(d, user, use), ids, |d.refs|)
  }

  function Consumed(refs: seq<Ref>, ids: seq<Id>): seq<Ref> {
    seq(|refs|, i requires 0 <= i < |refs| => if i in ids then refs[i].(consumed := true) else refs[i])
  }

  function MarkedCount(d: Uploads, ids: seq<Id>): nat {
    |Selected(PendingFlags(d), ids, |d.refs|)|
  }

  // ---- The consumer ------------------------------------------------------------

  function OpenConsumer(d: Uploads, user: Id, use: Use, target: Id, ids: seq<Id>): Option<Consumer> {
    if |UsableRefs(d, user, ids, use)| == |ids| then Some(Consumer(user, target, use, ids)) else None
  }

  function NewImages(user: Id, target: Id, use: Use, ids: seq<Id>): seq<Image> {
    seq(|ids|, i requires 0 <= i < |ids| => Image(user, target, use, ids[i], i))
  }

  /** None is the rollback. */
  function AttachTx(d: Uploads, c: Consumer): Option<Uploads>
    requires c.Consumer?
  {
    if MarkedCount(d, c.ids) != |c.ids| then None else
    Some(Uploads(Consumed(d.refs, c.ids), d.images + NewImages(c.user, c.target, c.use, c.ids), d.now))
  }

  ghost function Members<T>(s: seq<T>): set<T> {
    set x | x in s
  }

  /** Comparing lengths is an exact test: no repetition, and every id names an allowed row. */
  lemma LengthCheckIsExact(flags: seq<bool>, ids: seq<Id>)
    ensures |Selected(flags, ids, |flags|)| == |ids| <==>
      NoDuplicates(ids) && forall id :: id in ids ==> id < |flags| && flags[id]
  {
    var found := Selected(flags, ids, |flags|);
    SelectedLists(flags, ids, |flags|);
    SizeOfList(found);
    SizeOfList(ids);
    assert Members(found) <= Members(ids);
    ProperSubsetIsSmaller(Members(found), Members(ids));
    if |found| == |ids| {
      forall id | id in ids
        ensures id < |flags| && flags[id]
      {
        assert id in Members(ids);
        assert id in found;
      }
    }
    if forall id :: id in ids ==> id < |flags| && flags[id] {
      assert forall id :: id in ids ==> id in found;
      assert Members(found) == Members(ids);
    }
  }

  lemma ProperSubsetIsSmaller<T>(a: set<T>, b: set<T>)
    requires a <= b
    ensures |a| <= |b|
    ensures |a| == |b| ==> a == b
  {
    assert b == a + (b - a);
    assert |b| == |a| + |b - a|;
  }

  /** A list is as long as its set of members exactly when nothing repeats. */
  lemma {:induction false} SizeOfList<T>(s: seq<T>)
    ensures |Members(s)| <= |s|
    ensures |Members(s)| == |s| <==> NoDuplicates(s)
  {
    if s != [] {
      var init, last := s[..|s| - 1], s[|s| - 1];
      SizeOfList(init);
      assert s == init + [last];
      assert Members(s) == Members(init) + {last};
      NoDuplicatesSnoc(init, last);
    }
  }

  lemma NoDuplicatesSnoc<T>(init: seq<T>, last: T)
    ensures NoDuplicates(init + [last]) <==> NoDuplicates(init) && last !in init
  {
    var s := init + [last];
    assert forall i :: 0 <= i < |init| ==> s[i] == init[i];
    assert s[|init|] == last;
  }

  // ---- Runs ----------------------------------------------------------------------

  datatype Action =
    | CreateRef(user: Id, use: Use, expiresAt: nat)
    | Read(user: Id, use: Use, target: Id, ids: seq<Id>)
    | Attach(consumer: Id)
    | Tick(elapsed: nat)

  datatype State = State(db: Uploads, consumers: seq<Consumer>)

  function Step(s: State, a: Action): State {
    match a
    case CreateRef(user, use, expiresAt) =>
      s.(db := s.db.(refs := s.db.refs + [Ref(user, use, expiresAt, false)]))
    case Read(user, use, target, ids) =>
      (match OpenConsumer(s.db, user, use, target, ids)
       case None => s
       case Some(c) => s.(consumers := s.consumers + [c]))
    case Attach(c) =>
      if c < |s.consumers| && s.consumers[c].Consumer? then
        State(AttachTx(s.db, s.consumers[c]).GetOr(s.db), s.consumers[c := Finished])
      else s
    case Tick(elapsed) => s.(db := s.db.(now := s.db.now + elapsed))
  }

  function Run(s: State, actions: seq<Action>): State
    decreases |actions|
  {
    if actions == [] then s else Step(Run(s, actions[..|actions| - 1]), actions[|actions| - 1])
  }

  ghost predicate Reachable(s: State) {
    exists actions :: Run(State(Uploads([], [], 0), []), actions) == s
  }

  // ---- Spent at most once ----------------------------------------------------------

  predicate IsAttached(images: seq<Image>, id: Id) {
    exists i :: 0 <= i < |images| && images[i].file == id
  }

  /** The reference is the user's own, for that use. */
  predicate IsOwn(refs: seq<Ref>, id: Id, user: Id, use: Use) {
    id < |refs| && refs[id].user == user && refs[id].use == use
  }

  /** A reference is consumed exactly when one image shows its file, attached by its owner for the use it was made for. */
  ghost predicate SpentOnce(d: Uploads) {
    && (forall i :: 0 <= i < |d.images| ==> IsOwn(d.refs, d.images[i].file, d.images[i].author, d.images[i].use))
    && (forall i, j :: 0 <= i < j < |d.images| ==> d.images[i].file != d.images[j].file)
    && (forall id :: 0 <= id < |d.refs| ==> (d.refs[id].consumed <==> IsAttached(d.images, id)))
  }

  ghost predicate ConsumerOk(d: Uploads, c: Consumer) {
    c.Consumer? ==>
      NoDuplicates(c.ids) && forall id :: id in c.ids ==> IsOwn(d.refs, id, c.user, c.use)
  }

  ghost predicate Safe(s: State) {
    && SpentOnce(s.db)
    && forall c :: 0 <= c < |s.consumers| ==> ConsumerOk(s.db, s.consumers[c])
  }

  /**
   An attachment succeeds exactly when every reference it read is still pending, expired since or not. It then
   appends one image a reference, in order, and consumes those references and no others.
   */
  lemma AttachesAllOrNone(d: Uploads, c: Consumer)
    requires c.Consumer? && ConsumerOk(d, c)
    ensures AttachTx(d, c).Some? <==> forall id :: id in c.ids ==> !d.refs[id].consumed
    ensures AttachTx(d, c).Some? ==>
      var d' := AttachTx(d, c).value;
      && d.images <= d'.images && |d'.images| == |d.images| + |c.ids|
      && (forall i :: 0 <= i < |c.ids| ==> d'.images[|d.images| + i] == Image(c.user, c.target, c.use, c.ids[i], i))
      && |d'.refs| == |d.refs| && d'.now == d.now
      && (forall id :: 0 <= id < |d.refs| ==>
            d'.refs[id] == if id in c.ids then d.refs[id].(consumed := true) else d.refs[id])
  {
    LengthCheckIsExact(PendingFlags(d), c.ids);
  }

  lemma AttachedOnce(d: Uploads, c: Consumer)
    requires c.Consumer? && ConsumerOk(d, c) && SpentOnce(d) && forall id :: id in c.ids ==> !d.refs[id].consumed
    ensures var images := d.images + NewImages(c.user, c.target, c.use, c.ids);
      forall i, j :: 0 <= i < j < |images| ==> images[i].file != images[j].file
  {
  }

  lemma AttachedAfter(images: seq<Image>, c: Consumer, id: Id)
    requires c.Consumer?
    ensures IsAttached(images + NewImages(c.user, c.target, c.use, c.ids), id) <==> IsAttached(images, id) || id in c.ids
  {
    var after := images + NewImages(c.user, c.target, c.use, c.ids);
    if IsAttached(images, id) {
      var i :| 0 <= i < |images| && images[i].file == id;
      assert after[i].file == id;
    }
    if id in c.ids {
      var k :| 0 <= k < |c.ids| && c.ids[k] == id;
      assert after[|images| + k].file == id;
    }
  }

  lemma AttachKeepsSpentOnce(d: Uploads, c: Consumer)
    requires c.Consumer? && ConsumerOk(d, c) && SpentOnce(d) && AttachTx(d, c).Some?
    ensures SpentOnce(AttachTx(d, c).value)
  {
    AttachesAllOrNone(d, c);
    AttachedOnce(d, c);
    var d' := AttachTx(d, c).value;
    forall id | 0 <= id < |d'.refs|
      ensures d'.refs[id].consumed <==> IsAttached(d'.images, id)
    {
      AttachedAfter(d.images, c, id);
    }
    forall i | 0 <= i < |d'.images|
      ensures IsOwn(d'.refs, d'.images[i].file, d'.images[i].author, d'.images[i].use)
    {
      if i < |d.images| {
        assert IsOwn(d.refs, d.images[i].file, d.images[i].author, d.images[i].use);
      } else {
        assert c.ids[i - |d.images|] in c.ids;
      }
    }
  }

  /** A read succeeds exactly for distinct references, each pending, unexpired, the user's own and for this use. */
  lemma ReadIsOk(d: Uploads, user: Id, use: Use, target: Id, ids: seq<Id>)
    ensures OpenConsumer(d, user, use, target, ids).Some? <==>
      NoDuplicates(ids)
      && forall id :: id in ids ==>
           id < |d.refs| && !d.refs[id].consumed && d.refs[id].user == user && d.refs[id].use == use
           && d.now < d.refs[id].expiresAt
    ensures OpenConsumer(d, user, use, target, ids).Some? ==>
      && OpenConsumer(d, user, use, target, ids) == Some(Consumer(user, target, use, ids))
      && ConsumerOk(d, OpenConsumer(d, user, use, target, ids).value)
  {
    LengthCheckIsExact(UsableFlags(d, user, use), ids);
    assert forall id :: 0 <= id < |d.refs| ==> UsableFlags(d, user, use)[id] == IsUsable(d.refs[id], user, use, d.now);
  }

  lemma AttachIsSafe(s: State, c: Id)
    requires Safe(s) && c < |s.consumers| && s.consumers[c].Consumer? && AttachTx(s.db, s.consumers[c]).Some?
    ensures var after := AttachTx(s.db, s.consumers[c]).value;
      SpentOnce(after) && s.db.images <= after.images
      && forall k :: 0 <= k < |s.consumers| ==> ConsumerOk(after, s.consumers[k])
  {
    assert ConsumerOk(s.db, s.consumers[c]);
    AttachKeepsSpentOnce(s.db, s.consumers[c]);
    forall k | 0 <= k < |s.consumers|
      ensures ConsumerOk(AttachTx(s.db, s.consumers[c]).value, s.consumers[k])
    {
      assert ConsumerOk(s.db, s.consumers[k]);
    }
  }

  lemma StepIsSafe(s: State, a: Action)
    requires Safe(s)
    ensures Safe(Step(s, a))
    ensures s.db.images <= Step(s, a).db.images
  {
    match a
    case CreateRef(_, _, _) =>
      assert forall i :: 0 <= i < |s.db.images| ==>
        IsOwn(s.db.refs, s.db.images[i].file, s.db.images[i].author, s.db.images[i].use);
    case Read(user, use, target, ids) => ReadIsOk(s.db, user, use, target, ids);
    case Attach(c) =>
      if c < |s.consumers| && s.consumers[c].Consumer? && AttachTx(s.db, s.consumers[c]).Some? {
        AttachIsSafe(s, c);
      }
    case Tick(_) =>
  }

  lemma {:induction false} RunIsSafe(s: State, actions: seq<Action>)
    requires Safe(s)
    ensures Safe(Run(s, actions))
    ensures s.db.images <= Run(s, actions).db.images
  {
    if actions != [] {
      RunIsSafe(s, actions[..|actions| - 1]);
      StepIsSafe(Run(s, actions[..|actions| - 1]), actions[|actions| - 1]);
    }
  }

  /** In every interleaving of stale reads and attachments, and ever after: one image per spent reference. */
  lemma UploadsAreSpentOnce(s: State, actions: seq<Action>)
    requires Reachable(s)
    ensures SpentOnce(s.db) && SpentOnce(Run(s, actions).db)
    ensures s.db.images <= Run(s, actions).db.images
  {
    var start := State(Uploads([], [], 0), []);
    var before :| Run(start, before) == s;
    RunIsSafe(start, before);
    RunIsSafe(s, actions);
  }

  /** What each action leaves: a fresh reference of its user, a consumer of what was read, an attachment spent. */
  lemma StepEffect(s: State, a: Action)
    ensures match a
      case CreateRef(user, use, expiresAt) =>
        Step(s, a) == s.(db := s.db.(refs := s.db.refs + [Ref(user, use, expiresAt, false)]))
      case Read(user, use, target, ids) =>
        Step(s, a).db == s.db
        && Step(s, a).consumers == s.consumers
             + if OpenConsumer(s.db, user, use, target, ids).Some? then [Consumer(user, target, use, ids)] else []
      case Attach(c) =>
        |Step(s, a).consumers| == |s.consumers|
        && (forall k :: 0 <= k < |s.consumers| ==> Step(s, a).consumers[k] == if k == c then Finished else s.consumers[k])
        && (c >= |s.consumers| || s.consumers[c] == Finished ==> Step(s, a).db == s.db)
      case Tick(elapsed) => Step(s, a) == s.(db := s.db.(now := s.db.now + elapsed))
  {
  }

  /** Nobody's upload is ever attached by anyone else, nor for another use, however stale the reads. */
  lemma OnlyOwnersAttach(s: State, i: Id, c: Id)
    requires Reachable(s)
    ensures i < |s.db.images| ==> IsOwn(s.db.refs, s.db.images[i].file, s.db.images[i].author, s.db.images[i].use)
    ensures c < |s.consumers| && s.consumers[c].Consumer? ==>
      forall id :: id in s.consumers[c].ids ==> IsOwn(s.db.refs, id, s.consumers[c].user, s.consumers[c].use)
  {
    UploadsAreSpentOnce(s, []);
    var start := State(Uploads([], [], 0), []);
    var before :| Run(start, before) == s;
    RunIsSafe(start, before);
    assert c < |s.consumers| ==> ConsumerOk(s.db, s.consumers[c]);
  }

  // ---- The repository ----------------------------------------------------------------

  ghost predicate MarkedBelow(before: seq<Ref>, refs: seq<Ref>, ids: seq<Id>, n: nat) {
    |refs| == |before|
    && forall k :: 0 <= k < |refs| ==>
         refs[k] == if k < n && k in ids then before[k].(consumed := true) else before[k]
  }

  lemma MarkNext(before: seq<Ref>, refs: seq<Ref>, ids: seq<Id>, n: nat)
    requires n < |refs| && MarkedBelow(before, refs, ids, n)
    ensures refs[n] == before[n]
    ensures MarkedBelow(before,
      if n in ids && !refs[n].consumed then refs[n := refs[n].(consumed := true)] else refs, ids, n + 1)
  {
  }

  class Repository {
    var refs: seq<Ref>
    var images: seq<Image>
    var now: nat

    function Snapshot(): Uploads
      reads this
    {
      Uploads(refs, images, now)
    }

    method FindUsablePendingRefs(user: Id, ids: seq<Id>, use: Use) returns (found: seq<Id>)
      ensures found == UsableRefs(Snapshot(), user, ids, use)
      ensures NoDuplicates(found) && forall id: nat :: id in found <==>
        id in ids && id < |refs| && !refs[id].consumed && refs[id].user == user && refs[id].use == use
        && now < refs[id].expiresAt
    {
      SelectedLists(UsableFlags(Snapshot(), user, use), ids, |refs|);
      found := [];
      for i := 0 to |refs|
        invariant found == Selected(UsableFlags(Snapshot(), user, use), ids, i)
      {
        if i in ids && IsUsable(refs[i], user, use, now) {
          found := found + [i];
        }
      }
    }

    method MarkConsumed(ids: seq<Id>) returns (count: nat)
      modifies this`refs
      ensures refs == Consumed(old(refs), ids)
      ensures count == MarkedCount(old(Snapshot()), ids)
    {
      ghost var before, flags := refs, PendingFlags(Snapshot());
      count := 0;
      var i := 0;
      while i < |refs|
        invariant 0 <= i <= |refs| == |before|
        invariant MarkedBelow(before, refs, ids, i)
        invariant count == |Selected(flags, ids, i)|
      {
        MarkNext(before, refs, ids, i);
        if i in ids && !refs[i].consumed {
          refs := refs[i := refs[i].(consumed := true)];
          count := count + 1;
        }
        i := i + 1;
      }
      assert refs == Consumed(before, ids);
    }

    /** The images are written first, so a lost race has them to take back. */
    method Attach(user: Id, target: Id, use: Use, ids: seq<Id>) returns (ok: bool)
      modifies this
      ensures match AttachTx(old(Snapshot()), Consumer(user, target, use, ids))
              case Some(after) => ok && Snapshot() == after
              case None => !ok && Snapshot() == old(Snapshot())
    {
      var savedRefs, savedImages := refs, images;
      for order := 0 to |ids|
        invariant images == savedImages + NewImages(user, target, use, ids)[..order]
        invariant refs == savedRefs && now == old(now)
      {
        images := images + [Image(user, target, use, ids[order], order)];
      }
      var count := MarkConsumed(ids);
      ok := count == |ids|;
      if !ok {
        refs, images := savedRefs, savedImages;
      }
    }
  }
}
