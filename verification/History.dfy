/**
 What no action ever undoes. The relation is reflexive and transitive, so it spans whole runs:
 terminal states stay terminal, stamps are written once, original prices never change,
 resolved proposals never change again and the ledger only grows.
 */
module History {
  import opened Prelude
  import opened Tables
  import opened Writes
  import opened Protocol
  import opened Lifecycle

  ghost predicate Kept<T(!new)>(before: Option<T>, after: Option<T>) {
    before.Some? ==> after == before
  }

  ghost predicate KeepsRequest(a: Request, b: Request) {
    a.customer == b.customer && (a.status != Open ==> b == a)
  }

  ghost predicate KeepsQuote(a: Quote, b: Quote) {
    && a.request == b.request && a.professional == b.professional && a.price == b.price
    && (a.status != Sent ==> b.status == a.status)
    && (a.negotiatedPrice.Some? ==> b.negotiatedPrice.Some?)
  }

  ghost predicate KeepsProposal(a: Proposal, b: Proposal) {
    && a.quote == b.quote && a.proposedBy == b.proposedBy && a.price == b.price
    && (a.status != ProposalPending ==> b == a)
  }

  ghost predicate KeepsEngagement(a: Engagement, b: Engagement) {
    && a.request == b.request && a.quote == b.quote
    && a.customer == b.customer && a.professional == b.professional
    && (a.status == b.status || Rank(b.status) < Rank(a.status))
    && Kept(a.startedAt, b.startedAt) && Kept(a.finishedAt, b.finishedAt)
    && Kept(a.completedAt, b.completedAt) && Kept(a.cancelledAt, b.cancelledAt)
    && Kept(a.paymentMethod, b.paymentMethod)
  }

  ghost predicate KeepsAppointment(a: Appointment, b: Appointment) {
    && SameVisit(a, b) && a.professional == b.professional
    && a.startsAt == b.startsAt && a.endsAt == b.endsAt
    && (a.status == AppointmentCancelled ==> b == a)
    && (a.status == Confirmed ==> b.status != AppointmentPending)
  }

  ghost predicate KeepsAttempt(a: Attempt, b: Attempt) {
    && a.engagement == b.engagement && a.payMethod == b.payMethod && a.amount == b.amount
    && (a.status != AttemptPending ==> b.status == a.status)
    && (a.customerConfirmedAt.Some? ==> b.customerConfirmedAt.Some?)
    && (a.professionalConfirmedAt.Some? ==> b.professionalConfirmedAt.Some?)
  }

  ghost predicate KeepsRequests(t: seq<Request>, t': seq<Request>) {
    |t| <= |t'| && forall i :: 0 <= i < |t| ==> KeepsRequest(t[i], t'[i])
  }

  ghost predicate KeepsQuotes(t: seq<Quote>, t': seq<Quote>) {
    |t| <= |t'| && forall i :: 0 <= i < |t| ==> KeepsQuote(t[i], t'[i])
  }

  ghost predicate KeepsProposals(t: seq<Proposal>, t': seq<Proposal>) {
    |t| <= |t'| && forall i :: 0 <= i < |t| ==> KeepsProposal(t[i], t'[i])
  }

  ghost predicate KeepsEngagements(t: seq<Engagement>, t': seq<Engagement>) {
    |t| <= |t'| && forall i :: 0 <= i < |t| ==> KeepsEngagement(t[i], t'[i])
  }

  ghost predicate KeepsAppointments(t: seq<Appointment>, t': seq<Appointment>) {
    |t| <= |t'| && forall i :: 0 <= i < |t| ==> KeepsAppointment(t[i], t'[i])
  }

  ghost predicate KeepsAttempts(t: seq<Attempt>, t': seq<Attempt>) {
    |t| <= |t'| && forall i :: 0 <= i < |t| ==> KeepsAttempt(t[i], t'[i])
  }

  ghost predicate KeepsHistory(d: Db, d': Db) {
    && KeepsRequests(d.requests, d'.requests) && KeepsQuotes(d.quotes, d'.quotes)
    && KeepsProposals(d.proposals, d'.proposals) && KeepsEngagements(d.engagements, d'.engagements)
    && KeepsAppointments(d.appointments, d'.appointments) && KeepsAttempts(d.attempts, d'.attempts)
    && d.ledger <= d'.ledger && d.now <= d'.now
  }

  lemma KeepsHistoryTransitive(a: Db, b: Db, c: Db)
    requires KeepsHistory(a, b) && KeepsHistory(b, c)
    ensures KeepsHistory(a, c)
  {
    forall i | 0 <= i < |a.requests|
      ensures KeepsRequest(a.requests[i], c.requests[i])
    {
      assert KeepsRequest(a.requests[i], b.requests[i]) && KeepsRequest(b.requests[i], c.requests[i]);
    }
    forall i | 0 <= i < |a.quotes|
      ensures KeepsQuote(a.quotes[i], c.quotes[i])
    {
      assert KeepsQuote(a.quotes[i], b.quotes[i]) && KeepsQuote(b.quotes[i], c.quotes[i]);
    }
    forall i | 0 <= i < |a.proposals|
      ensures KeepsProposal(a.proposals[i], c.proposals[i])
    {
      assert KeepsProposal(a.proposals[i], b.proposals[i]) && KeepsProposal(b.proposals[i], c.proposals[i]);
    }
    forall i | 0 <= i < |a.engagements|
      ensures KeepsEngagement(a.engagements[i], c.engagements[i])
    {
      assert KeepsEngagement(a.engagements[i], b.engagements[i]) && KeepsEngagement(b.engagements[i], c.engagements[i]);
    }
    forall i | 0 <= i < |a.appointments|
      ensures KeepsAppointment(a.appointments[i], c.appointments[i])
    {
      assert KeepsAppointment(a.appointments[i], b.appointments[i]) && KeepsAppointment(b.appointments[i], c.appointments[i]);
    }
    forall i | 0 <= i < |a.attempts|
      ensures KeepsAttempt(a.attempts[i], c.attempts[i])
    {
      assert KeepsAttempt(a.attempts[i], b.attempts[i]) && KeepsAttempt(b.attempts[i], c.attempts[i]);
    }
  }

  lemma CommitKeepsOffers(d: Db, call: Call)
    requires CommitTx(d, call).Committed?
    ensures var d' := CommitTx(d, call).db;
            KeepsRequests(d.requests, d'.requests) && KeepsQuotes(d.quotes, d'.quotes)
            && KeepsProposals(d.proposals, d'.proposals)
  {
  }

  lemma OneEngagementKept(t: seq<Engagement>, e: Id, row: Engagement)
    requires e < |t| && KeepsEngagement(t[e], row)
    ensures KeepsEngagements(t, t[e := row])
  {
  }

  lemma CancelKeepsEngagements(d: Db, e: Id)
    requires LifecycleOk(d.engagements, d.now) && CancelIfActive(d, e).count == 1
    ensures KeepsEngagements(d.engagements, CancelIfActive(d, e).db.engagements)
  {
  }

  lemma ConfirmCashKeepsEngagements(d: Db, e: Id, role: Party, price: nat)
    requires ConfirmCashTx(d, e, role, price).Committed?
    ensures KeepsEngagements(d.engagements, ConfirmCashTx(d, e, role, price).db.engagements)
  {
    OneEngagementKept(d.engagements, e, ConfirmCashTx(d, e, role, price).db.engagements[e]);
  }

  lemma CommitKeepsEngagements(d: Db, call: Call)
    requires LifecycleOk(d.engagements, d.now) && CommitTx(d, call).Committed?
    ensures KeepsEngagements(d.engagements, CommitTx(d, call).db.engagements)
  {
    var after := CommitTx(d, call).db.engagements;
    match call
    case AcceptQuoteCall(_, _, _, _) => assert after[..|d.engagements|] == d.engagements;
    case StartWorkCall(e) =>
      assert StampsMatchPath(d.engagements[e], d.now);
      OneEngagementKept(d.engagements, e, after[e]);
    case CancelByCustomerCall(e, _, _) => CancelKeepsEngagements(d, e);
    case CancelByProfessionalCall(e, _) => CancelKeepsEngagements(d, e);
    case ConfirmCashCall(e, role, price) => ConfirmCashKeepsEngagements(d, e, role, price);
    case _ =>
  }

  lemma ConfirmCashKeepsAttempts(d: Db, e: Id, role: Party, price: nat)
    requires ConfirmCashTx(d, e, role, price).Committed?
    ensures var d' := ConfirmCashTx(d, e, role, price).db;
            KeepsAttempts(d.attempts, d'.attempts) && d.ledger <= d'.ledger
  {
  }

  lemma CommitKeepsMoney(d: Db, call: Call)
    requires CommitTx(d, call).Committed?
    ensures var d' := CommitTx(d, call).db;
            KeepsAttempts(d.attempts, d'.attempts) && d.ledger <= d'.ledger && d.now <= d'.now
            && d'.appointments == d.appointments
  {
    if call.ConfirmCashCall? {
      ConfirmCashKeepsAttempts(d, call.engagement, call.role, call.price);
    }
  }

  lemma CommitKeepsHistory(d: Db, call: Call)
    requires WorkOk(d) && CommitTx(d, call).Committed?
    ensures KeepsHistory(d, CommitTx(d, call).db)
  {
    CommitKeepsOffers(d, call);
    CommitKeepsEngagements(d, call);
    CommitKeepsMoney(d, call);
  }

  lemma DirectKeepsOffers(d: Db, s: Statement)
    requires DirectTx(d, s).Committed?
    ensures var d' := DirectTx(d, s).db;
            KeepsRequests(d.requests, d'.requests) && KeepsQuotes(d.quotes, d'.quotes)
            && KeepsProposals(d.proposals, d'.proposals)
  {
  }

  lemma DirectKeepsEngagements(d: Db, s: Statement)
    requires WorkOk(d) && DirectTx(d, s).Committed?
    ensures KeepsEngagements(d.engagements, DirectTx(d, s).db.engagements)
  {
    var after := DirectTx(d, s).db.engagements;
    match s
    case FinishWork(e) =>
      if after != d.engagements {
        assert StampsMatchPath(d.engagements[e], d.now);
        OneEngagementKept(d.engagements, e, after[e]);
      }
    case ConfirmCompletion(e) =>
      if after != d.engagements {
        assert StampsMatchPath(d.engagements[e], d.now);
        OneEngagementKept(d.engagements, e, after[e]);
      }
    case ApplyPaymentResult(a, _) =>
      if after != d.engagements {
        OneEngagementKept(d.engagements, d.attempts[a].engagement, after[d.attempts[a].engagement]);
      }
    case _ => assert after == d.engagements;
  }

  lemma DirectKeepsAppointments(d: Db, s: Statement)
    requires WorkOk(d) && DirectTx(d, s).Committed?
    ensures KeepsAppointments(d.appointments, DirectTx(d, s).db.appointments)
  {
    var after := DirectTx(d, s).db.appointments;
    match s
    case ConfirmAppointment(a) =>
      if after != d.appointments { assert AppointmentOk(d.appointments[a], d.engagements, d.now); }
    case CancelAppointment(a) =>
    case ProposeAppointment(_, _, _) =>
    case _ => assert after == d.appointments;
  }

  lemma DirectKeepsMoney(d: Db, s: Statement)
    requires DirectTx(d, s).Committed?
    ensures var d' := DirectTx(d, s).db;
            KeepsAttempts(d.attempts, d'.attempts) && d.ledger <= d'.ledger && d.now <= d'.now
  {
  }

  lemma DirectKeepsHistory(d: Db, s: Statement)
    requires WorkOk(d) && DirectTx(d, s).Committed?
    ensures KeepsHistory(d, DirectTx(d, s).db)
  {
    DirectKeepsOffers(d, s);
    DirectKeepsEngagements(d, s);
    DirectKeepsAppointments(d, s);
    DirectKeepsMoney(d, s);
  }
}
