/**
 How many financial events one engagement can have. The reading of a receipt takes the newest event
 for the only one; a step can add a second exactly by approving a payment of an engagement whose
 cancellation is on the ledger, or by recording a cancellation of an engagement already paid.
 */
module TerminalEvents {
  import opened Prelude
  import opened Tables
  import opened Writes
  import opened Protocol
  import opened Lifecycle
  import opened Payments
  import opened Safety
  import opened Effects

  ghost predicate OneEvent(events: seq<Event>) {
    forall i, j :: 0 <= i < j < |events| ==> events[i].engagement != events[j].engagement
  }

  ghost predicate HasEvent(events: seq<Event>, e: Id) {
    exists i :: 0 <= i < |events| && events[i].engagement == e
  }

  predicate IsCancellationRow(row: Entry, e: Id) {
    row.engagement == Some(e) && (row.kind == CustomerCancellationFee || row.kind == Refund)
  }

  predicate HasCancellationRow(ledger: seq<Entry>, e: Id) {
    exists i :: 0 <= i < |ledger| && IsCancellationRow(ledger[i], e)
  }

  function OtherStamp(a: Attempt, role: Party): Option<nat> {
    if role == CustomerParty then a.professionalConfirmedAt else a.customerConfirmedAt
  }

  /** A cash attempt that this role's confirmation completes. */
  predicate AwaitsOnly(a: Attempt, e: Id, role: Party) {
    a.engagement == e && a.payMethod == Cash && a.status == AttemptPending && OtherStamp(a, role).Some?
  }

  /** The transaction records a cancellation of a paid engagement, or a payment of a cancelled one. */
  ghost predicate CommitIsSecondEvent(d: Db, call: Call) {
    match call
    case CancelByCustomerCall(e, readStatus, _) =>
      readStatus == InProgress && d.commissionPercent.Some? && IsCancellable(d, e) && HasApproved(d.attempts, e)
    case CancelByProfessionalCall(e, _) => IsCancellable(d, e) && HasApproved(d.attempts, e)
    case ConfirmCashCall(e, role, _) =>
      e < |d.engagements| && d.commissionPercent.Some? && HasCancellationRow(d.ledger, e)
      && exists a :: 0 <= a < |d.attempts| && AwaitsOnly(d.attempts[a], e, role)
    case _ => false
  }

  ghost predicate DirectIsSecondEvent(d: Db, s: Statement) {
    s.ApplyPaymentResult? && s.approved && d.commissionPercent.Some?
    && s.attempt < |d.attempts| && d.attempts[s.attempt].status == AttemptPending
    && HasCancellationRow(d.ledger, d.attempts[s.attempt].engagement)
  }

  ghost predicate SecondEvent(s: State, a: Action) {
    match a
    case Commit(c) => c < |s.calls| && CommitIsSecondEvent(s.db, s.calls[c])
    case Direct(statement) => DirectIsSecondEvent(s.db, statement)
    case _ => false
  }

  // ---- What the tables show of the events -----------------------------------

  ghost predicate HasCancellation(events: seq<Event>, e: Id) {
    exists i :: 0 <= i < |events| && IsCancellationOf(events[i], e)
  }

  lemma {:induction false} CancellationsShow(events: seq<Event>, e: Id)
    ensures HasCancellationRow(LedgerOf(events), e) <==> HasCancellation(events, e)
  {
    if events != [] {
      var init, last := events[..|events| - 1], events[|events| - 1];
      CancellationsShow(init, e);
      var before, rows := LedgerOf(init), EventRows(last);
      assert HasCancellationRow(rows, e) <==> IsCancellationOf(last, e) by {
        assert IsCancellationOf(last, e) ==> IsCancellationRow(rows[0], e);
      }
      RowsOfEither(before, rows, e);
      assert IsCancellationOf(last, e) ==> IsCancellationOf(events[|init|], e);
      assert forall i :: 0 <= i < |init| ==> events[i] == init[i];
    }
  }

  lemma RowsOfEither(a: seq<Entry>, b: seq<Entry>, e: Id)
    ensures HasCancellationRow(a + b, e) <==> HasCancellationRow(a, e) || HasCancellationRow(b, e)
  {
    forall i | 0 <= i < |a| && IsCancellationRow(a[i], e)
      ensures IsCancellationRow((a + b)[i], e)
    {
    }
    forall i | 0 <= i < |b| && IsCancellationRow(b[i], e)
      ensures IsCancellationRow((a + b)[|a| + i], e)
    {
    }
  }

  lemma EventIsEither(events: seq<Event>, e: Id)
    ensures HasEvent(events, e) <==> HasPayment(events, e) || HasCancellation(events, e)
  {
  }

  /** While an engagement is not cancelled, it has an event exactly when it is paid. */
  lemma EventsBeforeCancellation(d: Db, events: seq<Event>, e: Id)
    requires MoneyOk(d, events) && IsCancellable(d, e)
    ensures HasEvent(events, e) <==> HasApproved(d.attempts, e)
  {
  }

  /** While an attempt is pending, its engagement has an event exactly when its cancellation is on the ledger. */
  lemma EventsBeforeApproval(d: Db, events: seq<Event>, a: Id)
    requires MoneyOk(d, events) && a < |d.attempts| && d.attempts[a].status == AttemptPending
    ensures HasEvent(events, d.attempts[a].engagement) <==> HasCancellationRow(d.ledger, d.attempts[a].engagement)
  {
    var e := d.attempts[a].engagement;
    EventIsEither(events, e);
    NothingPaidWhilePending(events, d.attempts, a);
    CancellationsShow(events, e);
  }

  lemma OneMoreEvent(events: seq<Event>, more: seq<Event>)
    requires OneEvent(events) && |more| <= 1
    ensures OneEvent(events + more) <==> !(more != [] && HasEvent(events, more[0].engagement))
  {
    var logged := events + more;
    if more != [] && HasEvent(events, more[0].engagement) {
      var i :| 0 <= i < |events| && events[i].engagement == more[0].engagement;
      assert logged[i].engagement == logged[|events|].engagement;
    }
  }

  // ---- The condition --------------------------------------------------------

  lemma CashCompletion(d: Db, e: Id, role: Party)
    requires OneActive(d.attempts)
    ensures forall b :: 0 <= b < |d.attempts| && AwaitsOnly(d.attempts[b], e, role) ==>
      ActiveAttempt(d.attempts, e) == Some(b)
  {
  }

  /** A committed confirmation is paid for exactly when it completes a pending cash attempt. */
  lemma CompletionIsTheEvent(d: Db, e: Id, role: Party, price: nat)
    requires OneActive(d.attempts) && ConfirmCashTx(d, e, role, price).Committed?
    ensures var more := ConfirmCashTx(d, e, role, price).events;
      e < |d.engagements|
      && (more == [] || (|more| == 1 && more[0].engagement == e && d.commissionPercent.Some?))
      && (more != [] <==> exists a :: 0 <= a < |d.attempts| && AwaitsOnly(d.attempts[a], e, role))
  {
  }

  lemma CashSecondEvent(d: Db, events: seq<Event>, e: Id, role: Party, price: nat)
    requires MoneyOk(d, events) && ConfirmCashTx(d, e, role, price).Committed?
    ensures var more := ConfirmCashTx(d, e, role, price).events;
      |more| <= 1
      && (more != [] && HasEvent(events, more[0].engagement) <==>
            CommitIsSecondEvent(d, ConfirmCashCall(e, role, price)))
  {
    CompletionIsTheEvent(d, e, role, price);
    if a :| 0 <= a < |d.attempts| && AwaitsOnly(d.attempts[a], e, role) {
      EventsBeforeApproval(d, events, a);
    }
  }

  lemma CommitSecondEvent(d: Db, events: seq<Event>, call: Call)
    requires MoneyOk(d, events) && CommitTx(d, call).Committed?
    ensures var more := CommitTx(d, call).events;
      |more| <= 1
      && (more != [] && HasEvent(events, more[0].engagement) <==> CommitIsSecondEvent(d, call))
  {
    match call
    case CancelByCustomerCall(e, _, _) => EventsBeforeCancellation(d, events, e);
    case CancelByProfessionalCall(e, _) => EventsBeforeCancellation(d, events, e);
    case ConfirmCashCall(e, role, price) => CashSecondEvent(d, events, e, role, price);
    case _ =>
  }

  lemma DirectSecondEvent(d: Db, events: seq<Event>, s: Statement)
    requires MoneyOk(d, events) && DirectTx(d, s).Committed?
    ensures var more := DirectTx(d, s).events;
      |more| <= 1
      && (more != [] && HasEvent(events, more[0].engagement) <==> DirectIsSecondEvent(d, s))
  {
    if s.ApplyPaymentResult? {
      EventsBeforeApproval(d, events, s.attempt);
    }
  }

  lemma RefusedCashIsNoEvent(d: Db, events: seq<Event>, e: Id, role: Party, price: nat)
    requires MoneyOk(d, events) && ConfirmCashTx(d, e, role, price).RolledBack?
    ensures !CommitIsSecondEvent(d, ConfirmCashCall(e, role, price))
  {
    CashCompletion(d, e, role);
  }

  lemma RefusedCommitIsNoEvent(d: Db, events: seq<Event>, call: Call)
    requires MoneyOk(d, events) && CommitTx(d, call).RolledBack?
    ensures !CommitIsSecondEvent(d, call)
  {
    match call
    case ConfirmCashCall(e, role, price) => RefusedCashIsNoEvent(d, events, e, role, price);
    case _ =>
  }

  lemma RefusedDirectIsNoEvent(d: Db, s: Statement)
    requires AttemptsOk(d.attempts, d.engagements) && DirectTx(d, s).RolledBack?
    ensures !DirectIsSecondEvent(d, s)
  {
  }

  /** From tables with one event an engagement, exactly these steps lead to an engagement with two. */
  lemma SecondEventExactly(s: State, a: Action)
    requires Invariant(s) && OneEvent(s.events)
    ensures OneEvent(Step(s, a).events) <==> !SecondEvent(s, a)
  {
    if ActionTx(s, a).Committed? {
      match a {
        case Commit(c) => CommitSecondEvent(s.db, s.events, s.calls[c]);
        case Direct(statement) => DirectSecondEvent(s.db, s.events, statement);
      }
      OneMoreEvent(s.events, ActionTx(s, a).events);
    } else {
      match a
      case Commit(c) => if c < |s.calls| { RefusedCommitIsNoEvent(s.db, s.events, s.calls[c]); }
      case Direct(statement) => RefusedDirectIsNoEvent(s.db, statement);
      case _ =>
    }
  }

  /** No action of the run records a second event. */
  ghost predicate NoSecondEvent(s: State, actions: seq<Action>)
    decreases |actions|
  {
    actions != [] ==>
      var init := actions[..|actions| - 1];
      NoSecondEvent(s, init) && !SecondEvent(Run(s, init), actions[|actions| - 1])
  }

  /** Over a whole run: engagements have one event each exactly when no step of it was such a step. */
  lemma {:induction false} OneEventExactly(s: State, actions: seq<Action>)
    requires Invariant(s) && OneEvent(s.events)
    ensures OneEvent(Run(s, actions).events) <==> NoSecondEvent(s, actions)
  {
    if actions != [] {
      var init, last := actions[..|actions| - 1], actions[|actions| - 1];
      OneEventExactly(s, init);
      RunIsSafe(s, init);
      EventsOnlyGrow(Run(s, init), last);
      if OneEvent(Run(s, init).events) {
        SecondEventExactly(Run(s, init), last);
      }
    }
  }

  lemma EventsOnlyGrow(s: State, a: Action)
    ensures OneEvent(Step(s, a).events) ==> OneEvent(s.events)
  {
    assert s.events <= Step(s, a).events;
  }

  // ---- The ledger's own rows ------------------------------------------------

  function RowsOf(ledger: seq<Entry>, e: Id): seq<Entry> {
    if ledger == [] then [] else
    var last := ledger[|ledger| - 1];
    RowsOf(ledger[..|ledger| - 1], e) + if last.engagement == Some(e) then [last] else []
  }

  lemma {:induction false} RowsOfConcat(a: seq<Entry>, b: seq<Entry>, e: Id)
    ensures RowsOf(a + b, e) == RowsOf(a, e) + RowsOf(b, e)
  {
    if b == [] {
      assert a + b == a;
    } else {
      assert (a + b)[..|a + b| - 1] == a + b[..|b| - 1];
      RowsOfConcat(a, b[..|b| - 1], e);
    }
  }

  lemma {:induction false} OwnRows(rows: seq<Entry>, owner: Id, e: Id)
    requires forall i :: 0 <= i < |rows| ==> rows[i].engagement == Some(owner)
    ensures RowsOf(rows, e) == if owner == e then rows else []
  {
    if rows != [] { OwnRows(rows[..|rows| - 1], owner, e); }
  }

  lemma OneMoreOf(events: seq<Event>, ev: Event, e: Id)
    ensures HasEvent(events + [ev], e) <==> HasEvent(events, e) || ev.engagement == e
  {
    forall i | 0 <= i < |events| && events[i].engagement == e
      ensures (events + [ev])[i].engagement == e
    {
    }
    assert (events + [ev])[|events|] == ev;
  }

  lemma RowsGrow(events: seq<Event>, ev: Event, e: Id)
    ensures RowsOf(LedgerOf(events + [ev]), e) ==
      RowsOf(LedgerOf(events), e) + if ev.engagement == e then EventRows(ev) else []
  {
    LedgerOfAppended(events, ev);
    RowsOfConcat(LedgerOf(events), EventRows(ev), e);
    OwnRows(EventRows(ev), ev.engagement, e);
  }

  lemma OneMoreRow(events: seq<Event>, ev: Event, e: Id)
    requires RowsOf(LedgerOf(events), e) != [] <==> HasEvent(events, e)
    ensures RowsOf(LedgerOf(events + [ev]), e) != [] <==> HasEvent(events + [ev], e)
  {
    RowsGrow(events, ev, e);
    OneMoreOf(events, ev, e);
    assert |EventRows(ev)| > 0;
  }

  lemma {:induction false} RowsOfEvents(events: seq<Event>, e: Id)
    ensures RowsOf(LedgerOf(events), e) != [] <==> HasEvent(events, e)
  {
    if events != [] {
      var init, last := events[..|events| - 1], events[|events| - 1];
      assert init + [last] == events;
      RowsOfEvents(init, e);
      OneMoreRow(init, last, e);
    }
  }

  /** The rows of an engagement's newest event are all its rows exactly as long as it has no earlier event. */
  lemma ReceiptIsComplete(events: seq<Event>, newest: Event)
    ensures RowsOf(LedgerOf(events + [newest]), newest.engagement) == EventRows(newest)
      <==> !HasEvent(events, newest.engagement)
  {
    RowsGrow(events, newest, newest.engagement);
    RowsOfEvents(events, newest.engagement);
    var earlier, rows := RowsOf(LedgerOf(events), newest.engagement), EventRows(newest);
    assert earlier + rows == rows ==> |earlier| == 0;
  }

  /** The fee, the platform's commission and the professional's net, next to each other and without remainder. */
  predicate IsChargeGroup(ledger: seq<Entry>, i: Id) {
    && i + 2 < |ledger|
    && ledger[i].kind == CustomerCancellationFee
    && ledger[i + 1] == ledger[i].(kind := PlatformCommission, amount := ledger[i + 1].amount)
    && ledger[i + 2] == ledger[i].(kind := ProfessionalNetCredit, amount := ledger[i + 2].amount)
    && ledger[i].amount + ledger[i + 1].amount + ledger[i + 2].amount == 0
  }

  /** One cancellation row an engagement at most: a refund, or the head of a whole charge. */
  ghost predicate CancellationRowsOk(ledger: seq<Entry>) {
    && (forall i, e: Id :: 0 <= i < |ledger| && IsCancellationRow(ledger[i], e) ==>
          ledger[i].kind == Refund || IsChargeGroup(ledger, i))
    && (forall i, j, e: Id :: 0 <= i < j < |ledger| && IsCancellationRow(ledger[i], e) ==> !IsCancellationRow(ledger[j], e))
  }

  lemma {:induction false} EventsLeaveOneCancellation(events: seq<Event>)
    requires EventsDistinct(events)
    ensures CancellationRowsOk(LedgerOf(events))
  {
    if events != [] {
      var init, last := events[..|events| - 1], events[|events| - 1];
      EventsLeaveOneCancellation(init);
      forall e: Id | IsCancellationOf(last, e)
        ensures !HasCancellationRow(LedgerOf(init), e)
      {
        CancellationsShow(init, e);
        forall i | 0 <= i < |init|
          ensures !IsCancellationOf(init[i], e)
        {
          assert IsCancellation(events[i]) ==> !IsCancellationOf(events[|init|], events[i].engagement);
        }
      }
      AppendedRowsOk(LedgerOf(init), last);
    }
  }

  lemma AppendedRowsOk(ledger: seq<Entry>, ev: Event)
    requires CancellationRowsOk(ledger)
    requires forall e: Id :: IsCancellationOf(ev, e) ==> !HasCancellationRow(ledger, e)
    ensures CancellationRowsOk(ledger + EventRows(ev))
  {
    var rows := EventRows(ev);
    var after := ledger + rows;
    forall i, e: Id | 0 <= i < |after| && IsCancellationRow(after[i], e)
      ensures after[i].kind == Refund || IsChargeGroup(after, i)
      ensures i >= |ledger| ==> i == |ledger| && IsCancellationOf(ev, e)
    {
      if i < |ledger| {
        assert ledger[i].kind == Refund || IsChargeGroup(ledger, i);
      } else {
        assert after[i] == rows[i - |ledger|];
        assert |rows| == 3 ==> after[|ledger| + 1] == rows[1] && after[|ledger| + 2] == rows[2];
      }
    }
    forall i, j, e: Id | 0 <= i < j < |after| && IsCancellationRow(after[i], e)
      ensures !IsCancellationRow(after[j], e)
    {
      if i < |ledger| {
        assert IsCancellationRow(ledger[i], e) && HasCancellationRow(ledger, e);
      }
    }
  }

  /** However many cancellations raced: no cancellation row, one whole charge, or one refund, for every engagement. */
  lemma OneCancellationOnTheLedger(s: State)
    requires Reachable(s)
    ensures CancellationRowsOk(s.db.ledger)
    ensures forall e: Id :: HasCancellationRow(s.db.ledger, e) ==>
      e < |s.db.engagements| && s.db.engagements[e].status == Cancelled
  {
    ReachableIsSafe(s);
    EventsLeaveOneCancellation(s.events);
    forall e: Id | HasCancellationRow(s.db.ledger, e)
      ensures e < |s.db.engagements| && s.db.engagements[e].status == Cancelled
    {
      CancellationsShow(s.events, e);
      var i :| 0 <= i < |s.events| && IsCancellationOf(s.events[i], e);
      assert EventOk(s.events[i], s.db.engagements);
    }
  }
}
