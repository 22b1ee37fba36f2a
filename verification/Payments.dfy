/** Payment attempts and the financial events behind the ledger. */
module Payments {
  import opened Prelude
  import opened Tables
  import opened Writes
  import opened Protocol
  import opened Lifecycle

  predicate IsPayment(ev: Event) {
    ev.CashDebt? || ev.DigitalPayment?
  }

  predicate IsCancellation(ev: Event) {
    ev.CancellationCharge? || ev.FullRefund?
  }

  predicate IsPaymentOf(ev: Event, e: Id) {
    IsPayment(ev) && ev.engagement == e
  }

  predicate IsCancellationOf(ev: Event, e: Id) {
    IsCancellation(ev) && ev.engagement == e
  }

  /** The ledger is nothing but the rows of its events, in order. */
  function LedgerOf(events: seq<Event>): seq<Entry> {
    if events == [] then [] else
    LedgerOf(events[..|events| - 1]) + EventRows(events[|events| - 1])
  }

  ghost predicate HasApproved(attempts: seq<Attempt>, e: Id) {
    exists a :: 0 <= a < |attempts| && attempts[a].engagement == e && attempts[a].status == Approved
  }

  ghost predicate HasPayment(events: seq<Event>, e: Id) {
    exists i :: 0 <= i < |events| && IsPaymentOf(events[i], e)
  }

  ghost predicate EventOk(ev: Event, engagements: seq<Engagement>) {
    && ev.engagement < |engagements|
    && (!ev.FullRefund? ==>
          ev.professional == engagements[ev.engagement].professional && engagements[ev.engagement].startedAt.Some?)
    && (IsCancellation(ev) ==> engagements[ev.engagement].status == Cancelled)
  }

  /** The partial unique index: one active attempt an engagement. */
  ghost predicate OneActive(attempts: seq<Attempt>) {
    forall a, b :: 0 <= a < b < |attempts| && attempts[a].engagement == attempts[b].engagement ==>
      !(IsActive(attempts[a]) && IsActive(attempts[b]))
  }

  ghost predicate AttemptsOk(attempts: seq<Attempt>, engagements: seq<Engagement>) {
    && OneActive(attempts)
    && (forall a :: 0 <= a < |attempts| ==>
          attempts[a].engagement < |engagements| && engagements[attempts[a].engagement].startedAt.Some?)
  }

  /** No engagement is paid twice, whatever the methods, and none is cancelled twice. */
  ghost predicate EventsDistinct(events: seq<Event>) {
    && (forall i, j :: 0 <= i < j < |events| && IsPayment(events[i]) ==> !IsPaymentOf(events[j], events[i].engagement))
    && (forall i, j :: 0 <= i < j < |events| && IsCancellation(events[i]) ==>
          !IsCancellationOf(events[j], events[i].engagement))
  }

  ghost predicate PaymentsMatch(events: seq<Event>, attempts: seq<Attempt>) {
    && (forall i :: 0 <= i < |events| && IsPayment(events[i]) ==> HasApproved(attempts, events[i].engagement))
    && (forall a :: 0 <= a < |attempts| && attempts[a].status == Approved ==> HasPayment(events, attempts[a].engagement))
  }

  ghost predicate MoneyOk(d: Db, events: seq<Event>) {
    && AttemptsOk(d.attempts, d.engagements)
    && (forall i :: 0 <= i < |events| ==> EventOk(events[i], d.engagements))
    && EventsDistinct(events)
    && PaymentsMatch(events, d.attempts)
    && d.ledger == LedgerOf(events)
  }

  lemma LedgerOfAppended(events: seq<Event>, ev: Event)
    ensures LedgerOf(events + [ev]) == LedgerOf(events) + EventRows(ev)
  {
  }

  /** Facts about engagements that the payment invariants rest on never go away. */
  ghost predicate SameBilling(a: Engagement, b: Engagement) {
    && a.professional == b.professional
    && (a.startedAt.Some? ==> b.startedAt.Some?)
    && (a.status == Cancelled ==> b.status == Cancelled)
  }

  ghost predicate BillingKept(t: seq<Engagement>, t': seq<Engagement>) {
    |t| <= |t'| && forall e :: 0 <= e < |t| ==> SameBilling(t[e], t'[e])
  }

  lemma MoneyFrame(d: Db, d': Db, events: seq<Event>)
    requires MoneyOk(d, events) && BillingKept(d.engagements, d'.engagements)
    requires d'.attempts == d.attempts && d'.ledger == d.ledger
    ensures MoneyOk(d', events)
  {
  }

  lemma EventsStayDistinct(events: seq<Event>, ev: Event)
    requires EventsDistinct(events)
    requires IsPayment(ev) ==> !HasPayment(events, ev.engagement)
    requires IsCancellation(ev) ==> forall i :: 0 <= i < |events| ==> !IsCancellationOf(events[i], ev.engagement)
    ensures EventsDistinct(events + [ev])
  {
  }

  lemma CancellationStaysMatched(events: seq<Event>, ev: Event, attempts: seq<Attempt>)
    requires PaymentsMatch(events, attempts) && IsCancellation(ev)
    ensures PaymentsMatch(events + [ev], attempts)
  {
    var logged := events + [ev];
    forall i | 0 <= i < |logged| && IsPayment(logged[i])
      ensures HasApproved(attempts, logged[i].engagement)
    {
      assert i < |events|;
    }
    forall a | 0 <= a < |attempts| && attempts[a].status == Approved
      ensures HasPayment(logged, attempts[a].engagement)
    {
      PaymentStays(events, ev, attempts[a].engagement);
    }
  }

  /** A cancellation that wins its race is the first one recorded for the engagement. */
  lemma CancellationKeepsMoney(d: Db, events: seq<Event>, e: Id, ev: Event)
    requires MoneyOk(d, events) && CancelIfActive(d, e).count == 1
    requires ev.engagement == e && IsCancellation(ev)
    requires ev.CancellationCharge? ==>
      ev.professional == d.engagements[e].professional && d.engagements[e].startedAt.Some?
    ensures MoneyOk(CancelIfActive(d, e).db.(ledger := d.ledger + EventRows(ev)), events + [ev])
  {
    MoneyFrame(d, CancelIfActive(d, e).db, events);
    LedgerOfAppended(events, ev);
    forall i | 0 <= i < |events|
      ensures !IsCancellationOf(events[i], e)
    {
      assert EventOk(events[i], d.engagements);
    }
    EventsStayDistinct(events, ev);
    CancellationStaysMatched(events, ev, d.attempts);
  }

  lemma PaymentStays(events: seq<Event>, ev: Event, e: Id)
    ensures HasPayment(events, e) ==> HasPayment(events + [ev], e)
  {
    if HasPayment(events, e) {
      var i :| 0 <= i < |events| && IsPaymentOf(events[i], e);
      assert IsPaymentOf((events + [ev])[i], e);
    }
  }

  lemma ApprovedStays(before: seq<Attempt>, after: seq<Attempt>, e: Id)
    requires |before| <= |after|
    requires forall a :: 0 <= a < |before| && before[a].status == Approved ==>
      after[a].status == Approved && after[a].engagement == before[a].engagement
    ensures HasApproved(before, e) ==> HasApproved(after, e)
  {
  }

  /** Changes to attempts that approve nothing record nothing. */
  lemma UnapprovedKeepsMoney(d: Db, events: seq<Event>, attempts: seq<Attempt>)
    requires MoneyOk(d, events) && AttemptsOk(attempts, d.engagements)
    requires |d.attempts| <= |attempts|
    requires forall a :: 0 <= a < |d.attempts| ==> attempts[a].engagement == d.attempts[a].engagement
    requires forall a :: 0 <= a < |attempts| ==>
      (attempts[a].status == Approved <==> a < |d.attempts| && d.attempts[a].status == Approved)
    ensures MoneyOk(d.(attempts := attempts), events)
  {
  }

  lemma ApprovalMatches(events: seq<Event>, ev: Event, attempts: seq<Attempt>, a: Id)
    requires PaymentsMatch(events, attempts)
    requires a < |attempts| && attempts[a].status == AttemptPending && IsPaymentOf(ev, attempts[a].engagement)
    ensures PaymentsMatch(events + [ev], attempts[a := attempts[a].(status := Approved)])
  {
    var after, logged := attempts[a := attempts[a].(status := Approved)], events + [ev];
    assert after[a].engagement == ev.engagement && after[a].status == Approved;
    assert IsPaymentOf(logged[|events|], ev.engagement);
    forall i | 0 <= i < |logged| && IsPayment(logged[i])
      ensures HasApproved(after, logged[i].engagement)
    {
      if i < |events| {
        ApprovedStays(attempts, after, events[i].engagement);
      }
    }
    forall b | 0 <= b < |after| && after[b].status == Approved
      ensures HasPayment(logged, after[b].engagement)
    {
      PaymentStays(events, ev, after[b].engagement);
    }
  }

  /** A pending attempt holds its engagement's active slot: nothing has been paid there. */
  lemma NothingPaidWhilePending(events: seq<Event>, attempts: seq<Attempt>, a: Id)
    requires PaymentsMatch(events, attempts) && OneActive(attempts)
    requires a < |attempts| && attempts[a].status == AttemptPending
    ensures !HasPayment(events, attempts[a].engagement)
  {
    assert !HasApproved(attempts, attempts[a].engagement);
  }

  /** An approval is recorded once: the active slot was its own, so nothing was paid before. */
  lemma ApprovalKeepsMoney(d: Db, events: seq<Event>, a: Id, ev: Event)
    requires MoneyOk(d, events)
    requires a < |d.attempts| && d.attempts[a].status == AttemptPending
    requires IsPaymentOf(ev, d.attempts[a].engagement)
    requires ev.professional == d.engagements[d.attempts[a].engagement].professional
    ensures MoneyOk(d.(attempts := d.attempts[a := d.attempts[a].(status := Approved)],
                       ledger := d.ledger + EventRows(ev)), events + [ev])
  {
    LedgerOfAppended(events, ev);
    NothingPaidWhilePending(events, d.attempts, a);
    EventsStayDistinct(events, ev);
    ApprovalMatches(events, ev, d.attempts, a);
  }

  lemma UpsertKeepsMoney(d: Db, events: seq<Event>, e: Id, role: Party, price: nat)
    requires MoneyOk(d, events) && e < |d.engagements| && d.engagements[e].startedAt.Some?
    requires UpsertCashConfirmation(d, e, role, price).Some?
    ensures var upserted := UpsertCashConfirmation(d, e, role, price).value;
      MoneyOk(d.(attempts := upserted.0), events)
      && upserted.1 < |upserted.0| && upserted.0[upserted.1].engagement == e
  {
    UnapprovedKeepsMoney(d, events, UpsertCashConfirmation(d, e, role, price).value.0);
  }

  lemma ConfirmCashKeepsMoney(d: Db, events: seq<Event>, e: Id, role: Party, price: nat)
    requires MoneyOk(d, events) && e < |d.engagements| && d.engagements[e].startedAt.Some?
    requires ConfirmCashTx(d, e, role, price).Committed?
    ensures var tx := ConfirmCashTx(d, e, role, price); MoneyOk(tx.db, events + tx.events)
  {
    var chosen := SetPaymentMethodIfUnset(d, e, Cash).db;
    MoneyFrame(d, chosen, events);
    UpsertKeepsMoney(chosen, events, e, role, price);
    var (attempts, a) := UpsertCashConfirmation(chosen, e, role, price).value;
    if BothConfirmed(attempts[a]) && attempts[a].status == AttemptPending {
      ApprovalKeepsMoney(chosen.(attempts := attempts), events, a,
        CashDebt(e, d.engagements[e].professional, price, d.commissionPercent.value));
    } else {
      assert events + [] == events;
    }
  }

  lemma ApplyPaymentKeepsMoney(d: Db, events: seq<Event>, a: Id, approved: bool)
    requires MoneyOk(d, events) && ApplyPaymentTx(d, a, approved).Committed?
    ensures var tx := ApplyPaymentTx(d, a, approved); MoneyOk(tx.db, events + tx.events)
  {
    var tx := ApplyPaymentTx(d, a, approved);
    if approved {
      var attempt := d.attempts[a];
      var ev := DigitalPayment(attempt.engagement, d.engagements[attempt.engagement].professional,
                               attempt.amount, d.commissionPercent.value);
      ApprovalKeepsMoney(d, events, a, ev);
      MoneyFrame(d.(attempts := d.attempts[a := attempt.(status := Approved)], ledger := d.ledger + EventRows(ev)),
                 tx.db, events + [ev]);
    } else {
      UnapprovedKeepsMoney(d, events, tx.db.attempts);
      assert events + [] == events;
    }
  }

  lemma CommitKeepsMoneyOk(d: Db, events: seq<Event>, call: Call)
    requires MoneyOk(d, events) && LifecycleOk(d.engagements, d.now)
    requires WorkCallOk(d, call) && CommitTx(d, call).Committed?
    ensures var tx := CommitTx(d, call); MoneyOk(tx.db, events + tx.events)
  {
    var tx := CommitTx(d, call);
    var d' := tx.db;
    assert events + [] == events;
    match call
    case CancelByCustomerCall(e, readStatus, price) =>
      if readStatus == InProgress {
        CancellationKeepsMoney(d, events, e, tx.events[0]);
      } else {
        MoneyFrame(d, tx.db, events);
      }
    case CancelByProfessionalCall(e, price) => CancellationKeepsMoney(d, events, e, tx.events[0]);
    case ConfirmCashCall(e, role, price) => ConfirmCashKeepsMoney(d, events, e, role, price);
    case PayDigitallyCall(e, price) => UnapprovedKeepsMoney(d, events, tx.db.attempts);
    case _ => MoneyFrame(d, d', events);
  }

  lemma DirectKeepsMoneyOk(d: Db, events: seq<Event>, s: Statement)
    requires MoneyOk(d, events) && DirectTx(d, s).Committed?
    ensures var tx := DirectTx(d, s); MoneyOk(tx.db, events + tx.events)
  {
    var tx := DirectTx(d, s);
    match s
    case ApplyPaymentResult(a, approved) => ApplyPaymentKeepsMoney(d, events, a, approved);
    case _ =>
      assert events + [] == events;
      MoneyFrame(d, tx.db, events);
  }
}
