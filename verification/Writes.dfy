/**
 What each guarded statement and each transaction does to the tables, as functions.
 A statement is a compare-and-swap: it reports how many rows it changed.
 A transaction whose compare-and-swap loses rolls everything back.
 */
module Writes {
  import opened Prelude
  import opened Tables
  import opened Money

  datatype Write = Write(db: Db, count: nat)

  /** One financial event: the rows one transaction appends to the ledger together. */
  datatype Event =
    | CancellationCharge(engagement: Id, professional: Id, price: nat, percent: nat)
    | FullRefund(engagement: Id, price: nat)
    | CashDebt(engagement: Id, professional: Id, price: nat, percent: nat)
    | DigitalPayment(engagement: Id, professional: Id, price: nat, percent: nat)

  datatype Tx = Committed(db: Db, events: seq<Event>) | RolledBack

  // ---- Requests, quotes and engagements ----------------------------------

  function TransitionToEngagedIfOpen(d: Db, r: Id, q: Id): Write {
    if r < |d.requests| && d.requests[r].status == Open then
      Write(d.(requests := d.requests[r := d.requests[r].(status := Engaged, acceptedQuote := Some(q))]), 1)
    else
      Write(d, 0)
  }

  function CancelRequestIfOpen(d: Db, r: Id): Write {
    if r < |d.requests| && d.requests[r].status == Open then
      Write(d.(requests := d.requests[r := d.requests[r].(status := RequestCancelled)]), 1)
    else
      Write(d, 0)
  }

  function MoveQuoteIfSent(d: Db, q: Id, status: QuoteStatus): Write {
    if q < |d.quotes| && d.quotes[q].status == Sent then
      Write(d.(quotes := d.quotes[q := d.quotes[q].(status := status)]), 1)
    else
      Write(d, 0)
  }

  function TransitionToAcceptedIfSent(d: Db, q: Id, r: Id): Write {
    if q < |d.quotes| && d.quotes[q].request == r then
      MoveQuoteIfSent(d, q, QuoteAccepted)
    else
      Write(d, 0)
  }

  predicate IsSentSibling(quotes: seq<Quote>, i: Id, r: Id, q: Id)
    requires i < |quotes|
  {
    quotes[i].request == r && quotes[i].status == Sent && i != q
  }

  function RejectSiblingsSent(quotes: seq<Quote>, r: Id, q: Id): seq<Quote> {
    seq(|quotes|, i requires 0 <= i < |quotes| =>
      if IsSentSibling(quotes, i, r, q) then quotes[i].(status := QuoteRejected) else quotes[i])
  }

  /** The unique indexes on an engagement's request and on its quote. */
  predicate EngagementKeyTaken(engagements: seq<Engagement>, r: Id, q: Id) {
    exists e :: 0 <= e < |engagements| && (engagements[e].request == r || engagements[e].quote == q)
  }

  function NewEngagement(r: Id, q: Id, customer: Id, professional: Id): Engagement {
    Engagement(r, q, customer, professional, Accepted, None, None, None, None, None)
  }

  function AcceptQuoteTx(d: Db, r: Id, q: Id, customer: Id, professional: Id): Tx {
    var engaged := TransitionToEngagedIfOpen(d, r, q);
    if engaged.count != 1 then RolledBack else
    var accepted := TransitionToAcceptedIfSent(engaged.db, q, r);
    if accepted.count != 1 then RolledBack else
    if EngagementKeyTaken(d.engagements, r, q) then RolledBack else
    Committed(
      accepted.db.(
        quotes := RejectSiblingsSent(accepted.db.quotes, r, q),
        engagements := d.engagements + [NewEngagement(r, q, customer, professional)]),
      [])
  }

  // ---- Price negotiation ---------------------------------------------------

  predicate IsPendingOn(proposals: seq<Proposal>, p: Id, q: Id)
    requires p < |proposals|
  {
    proposals[p].quote == q && proposals[p].status == ProposalPending
  }

  predicate HasPendingProposal(proposals: seq<Proposal>, q: Id) {
    exists p :: 0 <= p < |proposals| && IsPendingOn(proposals, p, q)
  }

  function SupersedePending(proposals: seq<Proposal>, q: Id): seq<Proposal> {
    seq(|proposals|, p requires 0 <= p < |proposals| =>
      if IsPendingOn(proposals, p, q) then proposals[p].(status := Superseded) else proposals[p])
  }

  function PostPriceTx(d: Db, q: Id, role: Party, price: nat): Tx {
    Committed(
      d.(proposals := SupersedePending(d.proposals, q) + [Proposal(q, role, price, ProposalPending)]), [])
  }

  function ResolveProposalIfPending(d: Db, p: Id, status: ProposalStatus): Write {
    if p < |d.proposals| && d.proposals[p].status == ProposalPending then
      Write(d.(proposals := d.proposals[p := d.proposals[p].(status := status)]), 1)
    else
      Write(d, 0)
  }

  function AcceptProposalTx(d: Db, p: Id, q: Id, price: nat): Tx {
    var resolved := ResolveProposalIfPending(d, p, ProposalAccepted);
    if resolved.count != 1 || q >= |d.quotes| then RolledBack else
    Committed(
      resolved.db.(quotes := d.quotes[q := d.quotes[q].(negotiatedPrice := Some(price))]), [])
  }

  // ---- Work execution ------------------------------------------------------

  function StartWorkIfAccepted(d: Db, e: Id): Write {
    if e < |d.engagements| && d.engagements[e].status == Accepted then
      Write(d.(engagements := d.engagements[e :=
        d.engagements[e].(status := InProgress, startedAt := Some(d.now))]), 1)
    else
      Write(d, 0)
  }

  function FinishWorkIfInProgress(d: Db, e: Id): Write {
    if e < |d.engagements| && d.engagements[e].status == InProgress then
      Write(d.(engagements := d.engagements[e :=
        d.engagements[e].(status := PendingConfirmation, finishedAt := Some(d.now))]), 1)
    else
      Write(d, 0)
  }

  function CompleteIfPendingConfirmation(d: Db, e: Id): Write {
    if e < |d.engagements| && d.engagements[e].status == PendingConfirmation then
      Write(d.(engagements := d.engagements[e :=
        d.engagements[e].(status := Completed, completedAt := Some(d.now))]), 1)
    else
      Write(d, 0)
  }

  function CancelIfActive(d: Db, e: Id): Write {
    if e < |d.engagements| && (d.engagements[e].status == Accepted || d.engagements[e].status == InProgress) then
      Write(d.(engagements := d.engagements[e :=
        d.engagements[e].(status := Cancelled, cancelledAt := Some(d.now))]), 1)
    else
      Write(d, 0)
  }

  // ---- Visits --------------------------------------------------------------

  predicate SlotTaken(appointments: seq<Appointment>, a: Id)
    requires a < |appointments|
  {
    exists b :: 0 <= b < |appointments| && b != a && Clashes(appointments[a], appointments[b])
  }

  /** None is the exclusion-constraint violation: the statement throws and changes nothing. */
  function ConfirmIfPending(d: Db, a: Id): Option<Write> {
    if a < |d.appointments| && d.appointments[a].status == AppointmentPending then
      if SlotTaken(d.appointments, a) then None else
      Some(Write(d.(appointments := d.appointments[a :=
        d.appointments[a].(status := Confirmed, confirmedAt := Some(d.now))]), 1))
    else
      Some(Write(d, 0))
  }

  function CancelAppointmentIfActive(d: Db, a: Id): Write {
    if a < |d.appointments| && d.appointments[a].status != AppointmentCancelled then
      Write(d.(appointments := d.appointments[a :=
        d.appointments[a].(status := AppointmentCancelled, cancelledAt := Some(d.now))]), 1)
    else
      Write(d, 0)
  }

  function CountConfirmed(appointments: seq<Appointment>, e: Id): (count: nat)
    ensures count > 0 <==>
            exists a :: 0 <= a < |appointments| && appointments[a].engagement == e && appointments[a].status == Confirmed
  {
    if appointments == [] then 0 else
    var last := appointments[|appointments| - 1];
    CountConfirmed(appointments[..|appointments| - 1], e)
    + if last.engagement == e && last.status == Confirmed then 1 else 0
  }

  // ---- Money ---------------------------------------------------------------

  function EventRows(ev: Event): seq<Entry> {
    match ev
    case CancellationCharge(e, professional, price, percent) =>
      var fee := RoundPercent(price, percent);
      var split := ComputeCommission(fee, percent);
      [Entry(CustomerCancellationFee, 0 - fee, Some(e), Some(professional), Some(percent)),
       Entry(PlatformCommission, split.commission, Some(e), Some(professional), Some(percent)),
       Entry(ProfessionalNetCredit, split.net, Some(e), Some(professional), Some(percent))]
    case FullRefund(e, price) =>
      [Entry(Refund, price, Some(e), None, None)]
    case CashDebt(e, professional, price, percent) =>
      [Entry(CashCommissionDebt, RoundPercent(price, percent), Some(e), Some(professional), Some(percent))]
    case DigitalPayment(e, professional, price, percent) =>
      var split := ComputeCommission(price, percent);
      [Entry(CustomerCharge, 0 - price, Some(e), Some(professional), Some(percent)),
       Entry(PlatformCommission, split.commission, Some(e), Some(professional), Some(percent)),
       Entry(ProfessionalNetCredit, split.net, Some(e), Some(professional), Some(percent))]
  }

  /** The charge applies only when the status read before the transaction was IN_PROGRESS. */
  function CancelByCustomerTx(d: Db, e: Id, readStatus: EngagementStatus, price: nat): Tx {
    var cancelled := CancelIfActive(d, e);
    if cancelled.count != 1 then RolledBack else
    if readStatus != InProgress then Committed(cancelled.db, []) else
    if d.commissionPercent == None then RolledBack else
    RecordEvent(cancelled.db,
      CancellationCharge(e, d.engagements[e].professional, price, d.commissionPercent.value))
  }

  function CancelByProfessionalTx(d: Db, e: Id, price: nat): Tx {
    var cancelled := CancelIfActive(d, e);
    if cancelled.count != 1 then RolledBack else RecordEvent(cancelled.db, FullRefund(e, price))
  }

  function RecordEvent(d: Db, ev: Event): Tx {
    Committed(d.(ledger := d.ledger + EventRows(ev)), [ev])
  }

  function SetPaymentMethodIfUnset(d: Db, e: Id, payMethod: PaymentMethod): Write {
    if e < |d.engagements| && d.engagements[e].paymentMethod == None then
      Write(d.(engagements := d.engagements[e := d.engagements[e].(paymentMethod := Some(payMethod))]), 1)
    else
      Write(d, 0)
  }

  /** The row a partial unique index allows at most one of: the engagement's active attempt. */
  function ActiveAttempt(attempts: seq<Attempt>, e: Id): (found: Option<Id>)
    ensures found.Some? ==> found.value < |attempts| && attempts[found.value].engagement == e && IsActive(attempts[found.value])
    ensures found.None? ==> forall a :: 0 <= a < |attempts| && attempts[a].engagement == e ==> !IsActive(attempts[a])
  {
    if attempts == [] then None else
    var last := |attempts| - 1;
    if attempts[last].engagement == e && IsActive(attempts[last]) then Some(last) else
    ActiveAttempt(attempts[..last], e)
  }

  function Stamp(a: Attempt, role: Party, now: nat): Attempt {
    match role
    case CustomerParty => a.(customerConfirmedAt := Some(now))
    case ProfessionalParty => a.(professionalConfirmedAt := Some(now))
  }

  /** The upserted attempts and the row's position; None when a digital attempt holds the slot. */
  function UpsertCashConfirmation(d: Db, e: Id, role: Party, price: nat): Option<(seq<Attempt>, Id)> {
    match ActiveAttempt(d.attempts, e)
    case None =>
      Some((d.attempts + [Stamp(Attempt(e, Cash, AttemptPending, price, None, None), role, d.now)], |d.attempts|))
    case Some(a) =>
      if d.attempts[a].payMethod == Cash then
        Some((d.attempts[a := Stamp(d.attempts[a], role, d.now)], a))
      else
        None
  }

  predicate BothConfirmed(a: Attempt) {
    a.customerConfirmedAt.Some? && a.professionalConfirmedAt.Some?
  }

  function ConfirmCashTx(d: Db, e: Id, role: Party, price: nat): Tx {
    if e >= |d.engagements| then RolledBack else
    var chosen := SetPaymentMethodIfUnset(d, e, Cash).db;
    match UpsertCashConfirmation(chosen, e, role, price)
    case None => RolledBack
    case Some((attempts, a)) =>
      assert a < |attempts|;
      if BothConfirmed(attempts[a]) && attempts[a].status == AttemptPending then
        if d.commissionPercent == None then RolledBack else
        RecordEvent(
          chosen.(attempts := attempts[a := attempts[a].(status := Approved)]),
          CashDebt(e, d.engagements[e].professional, price, d.commissionPercent.value))
      else
        Committed(chosen.(attempts := attempts), [])
  }

  function CreatePendingAttemptTx(d: Db, e: Id, price: nat): Tx {
    if e >= |d.engagements| || ActiveAttempt(d.attempts, e).Some? then RolledBack else
    Committed(d.(attempts := d.attempts + [Attempt(e, MercadoPago, AttemptPending, price, None, None)]), [])
  }

  /** The provider's answer for one attempt. The statement does not look at the attempt's method. */
  function ApplyPaymentTx(d: Db, a: Id, approved: bool): Tx {
    if a >= |d.attempts| || d.attempts[a].status != AttemptPending then RolledBack else
    var attempt := d.attempts[a];
    if !approved then
      Committed(d.(attempts := d.attempts[a := attempt.(status := AttemptRejected)]), [])
    else if d.commissionPercent == None || attempt.engagement >= |d.engagements| then RolledBack else
    RecordEvent(
      SetPaymentMethodIfUnset(
        d.(attempts := d.attempts[a := attempt.(status := Approved)]), attempt.engagement, MercadoPago).db,
      DigitalPayment(attempt.engagement, d.engagements[attempt.engagement].professional,
                     attempt.amount, d.commissionPercent.value))
  }
}
