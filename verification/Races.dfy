/**
 Races the code accepts. Each is shown by a concrete run, beside the exact condition under which
 the stronger guarantee does hold.
 */
module Races {
  import opened Prelude
  import opened Tables
  import opened Writes
  import opened Protocol
  import opened Lifecycle
  import opened History
  import opened Market
  import opened Payments
  import opened Safety
  import opened Prices
  import opened TerminalEvents
  import C = Cash

  // ---- Quotes arriving late --------------------------------------------------

  ghost predicate NoSentQuoteOnEngaged(d: Db) {
    forall q :: 0 <= q < |d.quotes| && d.quotes[q].status == Sent && d.quotes[q].request < |d.requests| ==>
      d.requests[d.quotes[q].request].status != Engaged
  }

  /** A quote submitted on a read that has gone stale: the insert carries no guard. */
  predicate StepIsLateQuote(s: State, a: Action) {
    a.Commit? && a.call < |s.calls| && s.calls[a.call].SubmitQuoteCall?
    && s.calls[a.call].request < |s.db.requests| && s.db.requests[s.calls[a.call].request].status == Engaged
  }

  lemma CommitAndLateQuotes(d: Db, call: Call)
    requires NoSentQuoteOnEngaged(d) && OfferCallOk(d, call) && CommitTx(d, call).Committed?
    requires WinnersOk(d.requests, d.quotes, d.engagements)
    ensures NoSentQuoteOnEngaged(CommitTx(d, call).db) <==>
      !(call.SubmitQuoteCall? && d.requests[call.request].status == Engaged)
  {
    var d' := CommitTx(d, call).db;
    match call
    case SubmitQuoteCall(r, _, _) =>
      assert d'.quotes[|d.quotes|].status == Sent && d'.quotes[|d.quotes|].request == r;
    case AcceptQuoteCall(r, q, _, _) =>
      forall p | 0 <= p < |d'.quotes| && d'.quotes[p].status == Sent && d'.quotes[p].request < |d'.requests|
        ensures d'.requests[d'.quotes[p].request].status != Engaged
      {
        assert d.quotes[p].status == Sent;
      }
    case _ =>
  }

  lemma DirectAndLateQuotes(d: Db, s: Statement)
    requires NoSentQuoteOnEngaged(d) && DirectTx(d, s).Committed?
    requires WinnersOk(d.requests, d.quotes, d.engagements)
    ensures NoSentQuoteOnEngaged(DirectTx(d, s).db)
  {
    var d' := DirectTx(d, s).db;
    forall q | 0 <= q < |d'.quotes| && d'.quotes[q].status == Sent && d'.quotes[q].request < |d'.requests|
      ensures d'.requests[d'.quotes[q].request].status != Engaged
    {
      assert QuoteOk(q, d.requests, d.quotes);
      assert d.quotes[q].status == Sent;
    }
  }

  /** Accepting rejects every sibling still sent; only a late submission can add one afterwards. */
  lemma SentQuotesOnEngagedExactlyByLateSubmission(s: State, a: Action)
    requires Invariant(s) && NoSentQuoteOnEngaged(s.db)
    ensures NoSentQuoteOnEngaged(Step(s, a).db) <==> !StepIsLateQuote(s, a)
  {
    if ActionTx(s, a).Committed? {
      match a
      case Commit(c) =>
        assert CallOk(s.db, s.calls[c]);
        CommitAndLateQuotes(s.db, s.calls[c]);
      case Direct(statement) => DirectAndLateQuotes(s.db, statement);
    }
  }

  // ---- Building runs ---------------------------------------------------------

  lemma ReachableStep(s: State, a: Action)
    requires Reachable(s)
    ensures Reachable(Step(s, a))
  {
    var actions :| Run(Initial(), actions) == s;
    assert (actions + [a])[..|actions|] == actions;
    assert Run(Initial(), actions + [a]) == Step(s, a);
  }

  lemma BeginFrom(s: State, intent: Intent, call: Call) returns (s': State)
    requires Reachable(s) && OpenCall(s.db, intent) == Some(call)
    ensures Reachable(s') && s' == State(s.db, s.calls + [call], s.events)
  {
    s' := Step(s, Begin(intent));
    ReachableStep(s, Begin(intent));
  }

  lemma CommitFrom(s: State, c: Id, d: Db, events: seq<Event>) returns (s': State)
    requires Reachable(s) && c < |s.calls| && CommitTx(s.db, s.calls[c]) == Committed(d, events)
    ensures Reachable(s') && s' == State(d, s.calls[c := Closed], s.events + events)
  {
    s' := Step(s, Commit(c));
    ReachableStep(s, Commit(c));
  }

  lemma DirectFrom(s: State, statement: Statement, d: Db) returns (s': State)
    requires Reachable(s) && DirectTx(s.db, statement) == Committed(d, [])
    ensures Reachable(s') && s' == State(d, s.calls, s.events)
  {
    s' := Step(s, Direct(statement));
    ReachableStep(s, Direct(statement));
  }

  // ---- The runs --------------------------------------------------------------

  const OPEN_REQUEST := [Request(3, Open, None)]
  const SENT_QUOTE := [Quote(0, 7, 100, None, Sent)]
  const CHOSEN := [Quote(0, 7, 100, None, QuoteAccepted)]
  const PROPOSED := [Proposal(0, ProfessionalParty, 80, ProposalPending)]
  const JOB := NewEngagement(0, 0, 3, 7)

  /** One open request of customer 3 with one quote, of professional 7 at 100. */
  lemma QuoteSent() returns (s: State)
    ensures Reachable(s) && s.calls == [Closed] && s.events == []
    ensures s.db == InitialDb().(requests := OPEN_REQUEST, quotes := SENT_QUOTE)
  {
    assert Run(Initial(), []) == Initial();
    var s1 := DirectFrom(Initial(), PublishRequest(3), InitialDb().(requests := OPEN_REQUEST));
    var s2 := BeginFrom(s1, SubmitQuote(0, 7, 100), SubmitQuoteCall(0, 7, 100));
    s := CommitFrom(s2, 0, InitialDb().(requests := OPEN_REQUEST, quotes := SENT_QUOTE), []);
  }

  /** The customer has read that quote and is about to accept it. */
  lemma AcceptRead() returns (s: State)
    ensures Reachable(s)
    ensures s.db == InitialDb().(requests := OPEN_REQUEST, quotes := SENT_QUOTE)
    ensures s.calls == [Closed, AcceptQuoteCall(0, 0, 3, 7)] && s.events == []
  {
    var s0 := QuoteSent();
    s := BeginFrom(s0, AcceptQuote(3, 0), AcceptQuoteCall(0, 0, 3, 7));
  }

  /** Accepting the one quote there is. */
  lemma AcceptOnlyQuote(d: Db)
    requires d.requests == OPEN_REQUEST && d.quotes == SENT_QUOTE && d.engagements == []
    ensures AcceptQuoteTx(d, 0, 0, 3, 7) == Committed(
      d.(requests := [Request(3, Engaged, Some(0))], quotes := CHOSEN, engagements := [JOB]), [])
  {
  }

  /** While that acceptance is open another professional is about to submit a quote. */
  lemma OtherQuoteRead() returns (s: State)
    ensures Reachable(s)
    ensures s.db == InitialDb().(requests := OPEN_REQUEST, quotes := SENT_QUOTE)
    ensures s.calls == [Closed, AcceptQuoteCall(0, 0, 3, 7), SubmitQuoteCall(0, 8, 90)]
  {
    var s0 := AcceptRead();
    s := BeginFrom(s0, SubmitQuote(0, 8, 90), SubmitQuoteCall(0, 8, 90));
  }

  lemma LateQuoteHappens() returns (s: State, a: Action)
    ensures Reachable(s) && NoSentQuoteOnEngaged(s.db) && StepIsLateQuote(s, a)
  {
    var s0 := OtherQuoteRead();
    AcceptOnlyQuote(s0.db);
    s := CommitFrom(s0, 1, AcceptQuoteTx(s0.db, 0, 0, 3, 7).db, []);
    a := Commit(2);
  }

  /** While that acceptance is open the professional proposes 80. */
  lemma ProposalPosted() returns (s: State)
    ensures Reachable(s)
    ensures s.db == InitialDb().(requests := OPEN_REQUEST, quotes := SENT_QUOTE, proposals := PROPOSED)
    ensures s.calls == [Closed, AcceptQuoteCall(0, 0, 3, 7), Closed]
  {
    var s0 := AcceptRead();
    var s1 := BeginFrom(s0, PostPrice(0, ProfessionalParty, 80), PostPriceCall(0, ProfessionalParty, 80));
    assert SupersedePending([], 0) == [];
    s := CommitFrom(s1, 2, s0.db.(proposals := PROPOSED), []);
  }

  /** The customer reads the proposal. */
  lemma ProposedMeanwhile() returns (s: State)
    ensures Reachable(s)
    ensures s.db == InitialDb().(requests := OPEN_REQUEST, quotes := SENT_QUOTE, proposals := PROPOSED)
    ensures s.calls == [Closed, AcceptQuoteCall(0, 0, 3, 7), Closed, AcceptProposalCall(0, 0, 80)]
  {
    var s0 := ProposalPosted();
    s := BeginFrom(s0, AcceptProposal(0, CustomerParty), AcceptProposalCall(0, 0, 80));
  }

  /** A proposal read while its quote was open, accepted after it: the engaged job's price goes from 100 to 80. */
  lemma AgreedPriceCanChange() returns (s: State, a: Action)
    ensures Reachable(s) && StepIsLateAcceptance(s, a)
    ensures |s.db.engagements| == 1 && PriceOf(s.db, 0) == 100
    ensures |Step(s, a).db.engagements| == 1 && PriceOf(Step(s, a).db, 0) == 80
  {
    var s0 := ProposedMeanwhile();
    AcceptOnlyQuote(s0.db);
    s := CommitFrom(s0, 1, AcceptQuoteTx(s0.db, 0, 0, 3, 7).db, []);
    a := Commit(3);
  }

  lemma JobAccepted() returns (s: State)
    ensures Reachable(s)
    ensures s.db == InitialDb().(requests := [Request(3, Engaged, Some(0))], quotes := CHOSEN, engagements := [JOB])
    ensures s.calls == [Closed, Closed] && s.events == []
  {
    var s0 := AcceptRead();
    AcceptOnlyQuote(s0.db);
    s := CommitFrom(s0, 1, AcceptQuoteTx(s0.db, 0, 0, 3, 7).db, []);
  }

  lemma VisitProposed() returns (s: State)
    ensures Reachable(s)
    ensures s.db.engagements == [JOB] && s.db.quotes == CHOSEN && s.db.attempts == [] && s.events == []
    ensures s.db.appointments == [Appointment(0, 7, 5, 6, AppointmentPending, None, None)]
    ensures s.calls == [Closed, Closed] && s.db.now == 0
  {
    var s0 := JobAccepted();
    s := DirectFrom(s0, ProposeAppointment(0, 5, 6),
      s0.db.(appointments := [Appointment(0, 7, 5, 6, AppointmentPending, None, None)]));
  }

  const VISIT := Appointment(0, 7, 5, 6, Confirmed, Some(0), None)

  lemma VisitAgreed() returns (s: State)
    ensures Reachable(s)
    ensures s.db.engagements == [JOB] && s.db.quotes == CHOSEN && s.db.attempts == [] && s.events == []
    ensures s.db.appointments == [VISIT] && s.calls == [Closed, Closed]
  {
    var s0 := VisitProposed();
    s := DirectFrom(s0, ConfirmAppointment(0), s0.db.(appointments := [VISIT]));
  }

  /** The job with a visit confirmed and a commission of ten percent. */
  lemma VisitConfirmed() returns (s: State)
    ensures Reachable(s)
    ensures s.db.engagements == [JOB] && s.db.quotes == CHOSEN && s.db.attempts == [] && s.events == []
    ensures s.db.appointments == [VISIT]
    ensures s.calls == [Closed, Closed] && s.db.commissionPercent == Some(10)
  {
    var s0 := VisitAgreed();
    s := DirectFrom(s0, SetCommissionPercent(Some(10)), s0.db.(commissionPercent := Some(10)));
  }

  /** Its professional has read it and is about to start. */
  lemma AboutToStart() returns (s: State)
    ensures Reachable(s)
    ensures s.db.engagements == [JOB] && s.db.quotes == CHOSEN && s.db.attempts == [] && s.events == []
    ensures s.calls == [Closed, Closed, StartWorkCall(0)] && s.db.commissionPercent == Some(10)
  {
    var s0 := VisitConfirmed();
    assert s0.db.appointments[0].engagement == 0 && s0.db.appointments[0].status == Confirmed;
    s := BeginFrom(s0, StartWork(7, 0), StartWorkCall(0));
  }

  /** The customer has read the job as accepted, and the start is committed meanwhile. */
  lemma StaleCancellation() returns (s: State)
    ensures Reachable(s) && s.events == [] && |s.calls| == 4
    ensures s.calls[3] == CancelByCustomerCall(0, Accepted, 100)
    ensures s.db.engagements == [JOB.(status := InProgress, startedAt := Some(s.db.now))]
  {
    var s0 := AboutToStart();
    var s1 := BeginFrom(s0, CancelByCustomer(3, 0), CancelByCustomerCall(0, Accepted, 100));
    s := CommitFrom(s1, 2, StartWorkIfAccepted(s1.db, 0).db, []);
  }

  /** A cancellation read before the start is committed after it: work in progress is cancelled without charge. */
  lemma WorkInProgressCanBeCancelledFree() returns (s: State, a: Action)
    ensures Reachable(s) && |s.db.engagements| == 1 && s.db.engagements[0].status == InProgress
    ensures |Step(s, a).db.engagements| == 1 && Step(s, a).db.engagements[0].status == Cancelled
    ensures Step(s, a).events == []
  {
    s := StaleCancellation();
    a := Commit(3);
  }

  lemma WorkStarted() returns (s: State)
    ensures Reachable(s) && |s.calls| == 3 && s.events == []
    ensures s.db.engagements == [JOB.(status := InProgress, startedAt := Some(s.db.now))]
    ensures s.db.quotes == CHOSEN && s.db.commissionPercent == Some(10) && s.db.attempts == []
  {
    var s0 := AboutToStart();
    s := CommitFrom(s0, 2, StartWorkIfAccepted(s0.db, 0).db, []);
  }

  /** Work under way, and the customer has confirmed paying in cash. */
  lemma HalfConfirmed() returns (s: State)
    ensures Reachable(s) && |s.calls| == 4 && s.events == []
    ensures s.db.engagements == [JOB.(status := InProgress, startedAt := Some(s.db.now), paymentMethod := Some(Cash))]
    ensures s.db.quotes == CHOSEN && s.db.commissionPercent == Some(10)
    ensures s.db.attempts == [Attempt(0, Cash, AttemptPending, 100, Some(s.db.now), None)]
  {
    var s0 := WorkStarted();
    var s1 := BeginFrom(s0, ConfirmCash(0, CustomerParty), ConfirmCashCall(0, CustomerParty, 100));
    FirstConfirmation(s1.db);
    s := CommitFrom(s1, 3, ConfirmCashTx(s1.db, 0, CustomerParty, 100).db, []);
  }

  lemma FirstConfirmation(d: Db)
    requires d.engagements == [JOB.(status := InProgress, startedAt := Some(d.now))]
    requires ActiveAttempt(d.attempts, 0) == None
    ensures ConfirmCashTx(d, 0, CustomerParty, 100) == Committed(
      d.(engagements := [d.engagements[0].(paymentMethod := Some(Cash))],
         attempts := d.attempts + [Attempt(0, Cash, AttemptPending, 100, Some(d.now), None)]), [])
  {
  }

  lemma SecondConfirmation(d: Db)
    requires d.engagements == [JOB.(status := InProgress, startedAt := Some(d.now), paymentMethod := Some(Cash))]
    requires d.attempts == [Attempt(0, Cash, AttemptPending, 100, Some(d.now), None)] && d.commissionPercent == Some(10)
    ensures var tx := ConfirmCashTx(d, 0, ProfessionalParty, 100);
      tx.Committed? && tx.events == [CashDebt(0, 7, 100, 10)]
      && tx.db.engagements == d.engagements && tx.db.quotes == d.quotes && tx.db.commissionPercent == Some(10)
      && tx.db.now == d.now
  {
  }

  const REJECTED_CARD := Attempt(0, MercadoPago, AttemptRejected, 100, None, None)

  /** Work under way, and the customer is paying by card. */
  lemma CardPending() returns (s: State)
    ensures Reachable(s) && |s.calls| == 4 && s.events == []
    ensures s.db.engagements == [JOB.(status := InProgress, startedAt := Some(s.db.now))]
    ensures s.db.quotes == CHOSEN && s.db.commissionPercent == Some(10)
    ensures s.db.attempts == [REJECTED_CARD.(status := AttemptPending)]
  {
    var s0 := WorkStarted();
    var s1 := BeginFrom(s0, PayDigitally(0), PayDigitallyCall(0, 100));
    assert ActiveAttempt(s1.db.attempts, 0) == None;
    s := CommitFrom(s1, 3, CreatePendingAttemptTx(s1.db, 0, 100).db, []);
  }

  lemma CardRejected() returns (s: State)
    ensures Reachable(s) && |s.calls| == 4 && s.events == []
    ensures s.db.engagements == [JOB.(status := InProgress, startedAt := Some(s.db.now))]
    ensures s.db.quotes == CHOSEN && s.db.commissionPercent == Some(10) && s.db.attempts == [REJECTED_CARD]
  {
    var s0 := CardPending();
    s := DirectFrom(s0, ApplyPaymentResult(0, false), s0.db.(attempts := [REJECTED_CARD]));
  }

  /** The card was rejected, and the customer is about to confirm paying the same amount in cash. */
  lemma CashReadAfterCard() returns (s: State)
    ensures Reachable(s) && s.db.commissionPercent == Some(10) && s.db.attempts == [REJECTED_CARD]
    ensures s.db.engagements == [JOB.(status := InProgress, startedAt := Some(s.db.now))]
    ensures |s.calls| == 5 && s.calls[4] == ConfirmCashCall(0, CustomerParty, 100)
  {
    var s0 := CardRejected();
    s := BeginFrom(s0, ConfirmCash(0, CustomerParty), ConfirmCashCall(0, CustomerParty, 100));
  }

  lemma CashAfterCard() returns (s: State)
    ensures Reachable(s) && s.db.commissionPercent == Some(10) && |s.db.engagements| == 1
    ensures s.db.attempts == [REJECTED_CARD, Attempt(0, Cash, AttemptPending, 100, Some(s.db.now), None)]
  {
    var s0 := CashReadAfterCard();
    FirstConfirmation(s0.db);
    s := CommitFrom(s0, 4, ConfirmCashTx(s0.db, 0, CustomerParty, 100).db, []);
  }

  /**
   A second card payment under the reference given out with the first answers late, is correlated by
   engagement, and approves the cash attempt that only the customer has confirmed.
   */
  lemma ProviderAnswerCanApproveCash() returns (s: State, a: Action)
    ensures Reachable(s) && C.StepAdoptsCash(s, a)
    ensures |s.db.attempts| == 2 && s.db.attempts[0] == REJECTED_CARD
    ensures var d := Step(s, a).db;
      |d.attempts| == 2 && d.attempts[1].payMethod == Cash && d.attempts[1].status == Approved
      && d.attempts[1].amount == REJECTED_CARD.amount && !BothConfirmed(d.attempts[1])
  {
    s := CashAfterCard();
    a := Direct(ApplyPaymentResult(1, true));
  }

  lemma SecondCashRead() returns (s: State)
    ensures Reachable(s) && |s.calls| == 5 && s.calls[4] == ConfirmCashCall(0, ProfessionalParty, 100)
    ensures s.db.engagements == [JOB.(status := InProgress, startedAt := Some(s.db.now), paymentMethod := Some(Cash))]
    ensures s.db.quotes == CHOSEN && s.db.commissionPercent == Some(10) && s.events == []
    ensures s.db.attempts == [Attempt(0, Cash, AttemptPending, 100, Some(s.db.now), None)]
  {
    var s0 := HalfConfirmed();
    s := BeginFrom(s0, ConfirmCash(0, ProfessionalParty), ConfirmCashCall(0, ProfessionalParty, 100));
  }

  /** Both parties confirmed: the job is paid in cash while work is in progress. */
  lemma PaidInCash() returns (s: State)
    ensures Reachable(s) && |s.calls| == 5
    ensures s.db.engagements == [JOB.(status := InProgress, startedAt := Some(s.db.now), paymentMethod := Some(Cash))]
    ensures s.db.quotes == CHOSEN && s.db.commissionPercent == Some(10)
    ensures s.events == [CashDebt(0, 7, 100, 10)]
  {
    var s0 := SecondCashRead();
    SecondConfirmation(s0.db);
    var tx := ConfirmCashTx(s0.db, 0, ProfessionalParty, 100);
    s := CommitFrom(s0, 4, tx.db, tx.events);
  }

  /** The customer has read that job as in progress and is about to cancel it. */
  lemma PaidAndCancelling() returns (s: State)
    ensures Reachable(s) && |s.calls| == 6 && s.calls[5] == CancelByCustomerCall(0, InProgress, 100)
    ensures s.db.engagements == [JOB.(status := InProgress, startedAt := Some(s.db.now), paymentMethod := Some(Cash))]
    ensures s.db.commissionPercent == Some(10) && s.events == [CashDebt(0, 7, 100, 10)]
  {
    var s0 := PaidInCash();
    s := BeginFrom(s0, CancelByCustomer(3, 0), CancelByCustomerCall(0, InProgress, 100));
  }

  lemma CashDebtMeansPaid(s: State)
    requires Reachable(s) && s.events == [CashDebt(0, 7, 100, 10)]
    ensures HasApproved(s.db.attempts, 0)
  {
    ReachableIsSafe(s);
    assert IsPayment(s.events[0]);
  }

  /** A job can carry two financial events: paid in cash while in progress, then cancelled with a charge. */
  lemma PaidJobCanStillBeCharged() returns (s: State, a: Action)
    ensures Reachable(s) && OneEvent(s.events) && SecondEvent(s, a)
    ensures Step(s, a).events == [CashDebt(0, 7, 100, 10), CancellationCharge(0, 7, 100, 10)]
  {
    s := PaidAndCancelling();
    a := Commit(5);
    CashDebtMeansPaid(s);
  }
}
