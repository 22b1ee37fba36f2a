/**
 What each committed transaction and statement leaves in the tables, row by row and in the tables' own terms:
 which rows it touches, what they become, and that no other row of any table differs.
 */
module Effects {
  import opened Prelude
  import opened Tables
  import opened Writes
  import opened Protocol

  /** The tables differ in row i at most. */
  ghost predicate OnlyRow<T(!new)>(before: seq<T>, after: seq<T>, i: Id) {
    |after| == |before| && i < |before| && forall k :: 0 <= k < |before| && k != i ==> after[k] == before[k]
  }

  /** One action at most touches the tables: its transaction's result, or nothing. */
  lemma StepEffect(s: State, a: Action)
    ensures match ActionTx(s, a)
            case Committed(d, events) => Step(s, a).db == d && Step(s, a).events == s.events + events
            case RolledBack => Step(s, a).db == s.db && Step(s, a).events == s.events
    ensures a.Commit? && a.call < |s.calls| ==>
      OnlyRow(s.calls, Step(s, a).calls, a.call) && Step(s, a).calls[a.call] == Closed
    ensures a.Direct? ==> Step(s, a).calls == s.calls
    ensures a.Begin? || a.RereadPrice? ==> Step(s, a).db == s.db
  {
  }

  // ---- What a call is opened with ----------------------------------------------

  ghost predicate IsPendingFor(row: Proposal, q: Id) {
    row.quote == q && row.status == ProposalPending
  }

  ghost predicate IsConfirmedFor(row: Appointment, e: Id) {
    row.engagement == e && row.status == Confirmed
  }

  /** The caller's own open request, a quote still on offer for it, and no price of that quote under discussion. */
  lemma AcceptOpens(d: Db, customer: Id, q: Id)
    ensures OpenCall(d, AcceptQuote(customer, q)).Some? <==>
      && q < |d.quotes| && d.quotes[q].status == Sent
      && d.quotes[q].request < |d.requests|
      && d.requests[d.quotes[q].request].customer == customer && d.requests[d.quotes[q].request].status == Open
      && forall p :: 0 <= p < |d.proposals| ==> !IsPendingFor(d.proposals[p], q)
    ensures OpenCall(d, AcceptQuote(customer, q)).Some? ==>
      OpenCall(d, AcceptQuote(customer, q))
        == Some(AcceptQuoteCall(d.quotes[q].request, q, customer, d.quotes[q].professional))
  {
    forall p | 0 <= p < |d.proposals|
      ensures IsPendingOn(d.proposals, p, q) <==> IsPendingFor(d.proposals[p], q)
    {
    }
  }

  /** A pending proposal on a quote still on offer, accepted by the party that did not make it, at its own price. */
  lemma AcceptProposalOpens(d: Db, p: Id, role: Party)
    ensures OpenCall(d, AcceptProposal(p, role)).Some? <==>
      && p < |d.proposals| && d.proposals[p].status == ProposalPending && d.proposals[p].proposedBy != role
      && d.proposals[p].quote < |d.quotes| && d.quotes[d.proposals[p].quote].status == Sent
    ensures OpenCall(d, AcceptProposal(p, role)).Some? ==>
      OpenCall(d, AcceptProposal(p, role))
        == Some(AcceptProposalCall(p, d.proposals[p].quote, d.proposals[p].price))
  {
  }

  /** Offers are made on open requests at a positive price, prices are discussed on quotes still on offer. */
  lemma OffersOpen(d: Db, r: Id, professional: Id, q: Id, role: Party, price: nat)
    ensures OpenCall(d, SubmitQuote(r, professional, price)) ==
      if r < |d.requests| && d.requests[r].status == Open && price > 0
      then Some(SubmitQuoteCall(r, professional, price)) else None
    ensures OpenCall(d, PostPrice(q, role, price)) ==
      if q < |d.quotes| && d.quotes[q].status == Sent then Some(PostPriceCall(q, role, price)) else None
  {
  }

  /** Only its professional starts an accepted job, and only with a confirmed visit. */
  lemma StartOpens(d: Db, professional: Id, e: Id)
    ensures OpenCall(d, StartWork(professional, e)) ==
      if e < |d.engagements| && d.engagements[e].professional == professional && d.engagements[e].status == Accepted
         && exists a :: 0 <= a < |d.appointments| && IsConfirmedFor(d.appointments[a], e)
      then Some(StartWorkCall(e)) else None
  {
    if a :| 0 <= a < |d.appointments| && IsConfirmedFor(d.appointments[a], e) {
      assert d.appointments[a].engagement == e && d.appointments[a].status == Confirmed;
    }
    if a :| 0 <= a < |d.appointments| && d.appointments[a].engagement == e && d.appointments[a].status == Confirmed {
      assert IsConfirmedFor(d.appointments[a], e);
    }
  }

  /** Each party cancels its own job, before it is finished, carrying the status and the price it read. */
  lemma CancellationsOpen(d: Db, party: Id, e: Id)
    ensures OpenCall(d, CancelByCustomer(party, e)) ==
      if IsCancellable(d, e) && d.engagements[e].customer == party
      then Some(CancelByCustomerCall(e, d.engagements[e].status, PriceOf(d, e))) else None
    ensures OpenCall(d, CancelByProfessional(party, e)) ==
      if IsCancellable(d, e) && d.engagements[e].professional == party
      then Some(CancelByProfessionalCall(e, PriceOf(d, e))) else None
  {
  }

  /** Started and not cancelled. */
  ghost predicate IsOwed(d: Db, e: Id) {
    e < |d.engagements| && d.engagements[e].status != Accepted && d.engagements[e].status != Cancelled
  }

  /** Payment opens for started work that was not cancelled, by a method that does not contradict the one set. */
  lemma PaymentsOpen(d: Db, e: Id, role: Party)
    ensures OpenCall(d, ConfirmCash(e, role)) ==
      if IsOwed(d, e) && d.engagements[e].paymentMethod in {None, Some(PaymentMethod.Cash)}
      then Some(ConfirmCashCall(e, role, PriceOf(d, e))) else None
    ensures OpenCall(d, PayDigitally(e)) ==
      if IsOwed(d, e) && d.engagements[e].paymentMethod in {None, Some(MercadoPago)}
      then Some(PayDigitallyCall(e, PriceOf(d, e))) else None
  {
    if e < |d.engagements| && d.engagements[e].paymentMethod.Some? {
      assert d.engagements[e].paymentMethod.value == PaymentMethod.Cash || d.engagements[e].paymentMethod.value == MercadoPago;
    }
  }

  /** Rereading renews the price a payment carries and nothing else. */
  lemma RereadEffect(s: State, c: Id)
    ensures Step(s, RereadPrice(c)).db == s.db && Step(s, RereadPrice(c)).events == s.events
    ensures c >= |s.calls| ==> Step(s, RereadPrice(c)).calls == s.calls
    ensures c < |s.calls| ==>
      && OnlyRow(s.calls, Step(s, RereadPrice(c)).calls, c)
      && var call := s.calls[c];
         Step(s, RereadPrice(c)).calls[c] ==
           if (call.ConfirmCashCall? || call.PayDigitallyCall?) && call.engagement < |s.db.engagements|
           then call.(price := PriceOf(s.db, call.engagement)) else call
  {
  }

  // ---- The offer ------------------------------------------------------------

  /** A submitted quote is stored as submitted: on offer, at its price, not negotiated. */
  lemma SubmitEffect(d: Db, r: Id, professional: Id, price: nat)
    ensures CommitTx(d, SubmitQuoteCall(r, professional, price)) ==
      Committed(d.(quotes := d.quotes + [Quote(r, professional, price, None, Sent)]), [])
  {
  }

  ghost predicate KeyFree(engagements: seq<Engagement>, r: Id, q: Id) {
    forall e :: 0 <= e < |engagements| ==> engagements[e].request != r && engagements[e].quote != q
  }

  /** What an acceptance does to each row of each table. */
  ghost predicate OfferAccepted(d: Db, d': Db, r: Id, q: Id, customer: Id, professional: Id)
    requires r < |d.requests| && q < |d.quotes|
  {
    && d' == d.(requests := d'.requests, quotes := d'.quotes, engagements := d'.engagements)
    && OnlyRow(d.requests, d'.requests, r)
    && d'.requests[r] == Request(d.requests[r].customer, Engaged, Some(q))
    && |d'.quotes| == |d.quotes|
    && d'.quotes[q] == d.quotes[q].(status := QuoteAccepted)
    && (forall p :: 0 <= p < |d.quotes| && p != q && d.quotes[p].request == r && d.quotes[p].status == Sent ==>
          d'.quotes[p] == d.quotes[p].(status := QuoteRejected))
    && (forall p :: 0 <= p < |d.quotes| && p != q && !(d.quotes[p].request == r && d.quotes[p].status == Sent) ==>
          d'.quotes[p] == d.quotes[p])
    && |d'.engagements| == |d.engagements| + 1 && d.engagements <= d'.engagements
    && d'.engagements[|d.engagements|]
         == Engagement(r, q, customer, professional, Accepted, None, None, None, None, None)
  }

  /** Accepting engages the one request, rejects that request's other offers and touches nobody else's. */
  lemma AcceptEffect(d: Db, r: Id, q: Id, customer: Id, professional: Id)
    ensures var tx := CommitTx(d, AcceptQuoteCall(r, q, customer, professional));
      && (tx.Committed? <==>
            && r < |d.requests| && d.requests[r].status == Open
            && q < |d.quotes| && d.quotes[q].request == r && d.quotes[q].status == Sent
            && KeyFree(d.engagements, r, q))
      && (tx.Committed? ==> tx.events == [] && OfferAccepted(d, tx.db, r, q, customer, professional))
  {
  }

  // ---- The price --------------------------------------------------------------

  /** Posting supersedes the quote's pending proposals and appends one; other quotes' proposals stay. */
  lemma PostEffect(d: Db, q: Id, role: Party, price: nat)
    ensures var tx := CommitTx(d, PostPriceCall(q, role, price));
      && tx.Committed? && tx.events == []
      && tx.db == d.(proposals := tx.db.proposals)
      && |tx.db.proposals| == |d.proposals| + 1
      && tx.db.proposals[|d.proposals|] == Proposal(q, role, price, ProposalPending)
      && forall p :: 0 <= p < |d.proposals| ==>
           tx.db.proposals[p] ==
             if d.proposals[p].quote == q && d.proposals[p].status == ProposalPending
             then d.proposals[p].(status := Superseded)
             else d.proposals[p]
  {
  }

  /** Accepting a proposal resolves that one row and sets the one quote's negotiated price to its price. */
  lemma AcceptProposalEffect(d: Db, p: Id, q: Id, price: nat)
    ensures var tx := CommitTx(d, AcceptProposalCall(p, q, price));
      && (tx.Committed? <==>
            p < |d.proposals| && d.proposals[p].status == ProposalPending && q < |d.quotes|)
      && (tx.Committed? ==>
            && tx.events == []
            && tx.db == d.(proposals := tx.db.proposals, quotes := tx.db.quotes)
            && OnlyRow(d.proposals, tx.db.proposals, p)
            && tx.db.proposals[p] == d.proposals[p].(status := ProposalAccepted)
            && OnlyRow(d.quotes, tx.db.quotes, q)
            && tx.db.quotes[q] == d.quotes[q].(negotiatedPrice := Some(price)))
  {
  }

  predicate IsCancellable(d: Db, e: Id) {
    e < |d.engagements| && (d.engagements[e].status == Accepted || d.engagements[e].status == InProgress)
  }

  // ---- Work and visits ---------------------------------------------------------

  /** Only this engagement's row differs. */
  ghost predicate EngagementOnly(d: Db, d': Db, e: Id, row: Engagement) {
    d' == d.(engagements := d'.engagements) && OnlyRow(d.engagements, d'.engagements, e) && d'.engagements[e] == row
  }

  lemma StartWorkEffect(d: Db, e: Id)
    ensures var tx := CommitTx(d, StartWorkCall(e));
      && (tx.Committed? <==> e < |d.engagements| && d.engagements[e].status == Accepted)
      && (tx.Committed? ==>
            tx.events == []
            && EngagementOnly(d, tx.db, e, d.engagements[e].(status := InProgress, startedAt := Some(d.now))))
  {
  }

  lemma FinishWorkEffect(d: Db, e: Id)
    ensures var tx := DirectTx(d, FinishWork(e));
      && tx.Committed? && tx.events == []
      && if e < |d.engagements| && d.engagements[e].status == InProgress then
           EngagementOnly(d, tx.db, e, d.engagements[e].(status := PendingConfirmation, finishedAt := Some(d.now)))
         else
           tx.db == d
  {
  }

  lemma CompletionEffect(d: Db, e: Id)
    ensures var tx := DirectTx(d, ConfirmCompletion(e));
      && tx.Committed? && tx.events == []
      && if e < |d.engagements| && d.engagements[e].status == PendingConfirmation then
           EngagementOnly(d, tx.db, e, d.engagements[e].(status := Completed, completedAt := Some(d.now)))
         else
           tx.db == d
  {
  }

  ghost predicate VisitOnly(d: Db, d': Db, a: Id, row: Appointment) {
    d' == d.(appointments := d'.appointments) && OnlyRow(d.appointments, d'.appointments, a) && d'.appointments[a] == row
  }

  /** Another confirmed visit of the same professional shares a moment with this one. */
  ghost predicate HasClash(appointments: seq<Appointment>, a: Id)
    requires a < |appointments|
  {
    exists b :: 0 <= b < |appointments| && b != a && SharesAMoment(appointments[a], appointments[b])
  }

  ghost predicate SharesAMoment(visit: Appointment, other: Appointment) {
    && other.status == Confirmed && other.professional == visit.professional
    && !(other.endsAt <= visit.startsAt) && !(visit.endsAt <= other.startsAt)
  }

  lemma ConfirmVisitEffect(d: Db, a: Id)
    ensures var tx := DirectTx(d, ConfirmAppointment(a));
      if a < |d.appointments| && d.appointments[a].status == AppointmentPending then
        && (tx.Committed? <==> !HasClash(d.appointments, a))
        && (tx.Committed? ==>
              tx.events == []
              && VisitOnly(d, tx.db, a, d.appointments[a].(status := Confirmed, confirmedAt := Some(d.now))))
      else
        tx == Committed(d, [])
  {
    if a < |d.appointments| {
      forall b | 0 <= b < |d.appointments|
        ensures Clashes(d.appointments[a], d.appointments[b]) <==> SharesAMoment(d.appointments[a], d.appointments[b])
      {
      }
    }
  }

  lemma CancelVisitEffect(d: Db, a: Id)
    ensures var tx := DirectTx(d, CancelAppointment(a));
      && tx.Committed? && tx.events == []
      && if a < |d.appointments| && d.appointments[a].status != AppointmentCancelled then
           VisitOnly(d, tx.db, a, d.appointments[a].(status := AppointmentCancelled, cancelledAt := Some(d.now)))
         else
           tx.db == d
  {
  }

  /** A proposed visit belongs to the engagement's professional and is not confirmed yet. */
  lemma ProposeVisitEffect(d: Db, e: Id, startsAt: int, endsAt: int)
    ensures var tx := DirectTx(d, ProposeAppointment(e, startsAt, endsAt));
      && (tx.Committed? <==> e < |d.engagements| && startsAt < endsAt)
      && (tx.Committed? ==>
            tx == Committed(
              d.(appointments := d.appointments + [Appointment(
                e, d.engagements[e].professional, startsAt, endsAt, AppointmentPending, None, None)]),
              []))
  {
  }

  // ---- Single statements -------------------------------------------------------

  lemma RequestEffects(d: Db, customer: Id, r: Id)
    ensures DirectTx(d, PublishRequest(customer)) ==
      Committed(d.(requests := d.requests + [Request(customer, Open, None)]), [])
    ensures var tx := DirectTx(d, CancelRequest(r));
      && tx.Committed? && tx.events == []
      && if r < |d.requests| && d.requests[r].status == Open then
           && tx.db == d.(requests := tx.db.requests) && OnlyRow(d.requests, tx.db.requests, r)
           && tx.db.requests[r] == d.requests[r].(status := RequestCancelled)
         else
           tx.db == d
  {
  }

  /** Withdrawing and rejecting take exactly this quote off the offer, and only while it is on offer. */
  lemma QuoteEffects(d: Db, q: Id)
    ensures forall s :: s == WithdrawQuote(q) || s == RejectQuote(q) ==>
      && DirectTx(d, s).Committed? && DirectTx(d, s).events == []
      && var d' := DirectTx(d, s).db;
         if q < |d.quotes| && d.quotes[q].status == Sent then
           && d' == d.(quotes := d'.quotes) && OnlyRow(d.quotes, d'.quotes, q)
           && d'.quotes[q] == d.quotes[q].(status := if s.WithdrawQuote? then Withdrawn else QuoteRejected)
         else
           d' == d
  {
  }

  lemma RejectProposalEffect(d: Db, p: Id)
    ensures var tx := DirectTx(d, RejectProposal(p));
      && tx.Committed? && tx.events == []
      && if p < |d.proposals| && d.proposals[p].status == ProposalPending then
           && tx.db == d.(proposals := tx.db.proposals) && OnlyRow(d.proposals, tx.db.proposals, p)
           && tx.db.proposals[p] == d.proposals[p].(status := ProposalRejected)
         else
           tx.db == d
  {
  }

  lemma SettingAndClockEffects(d: Db, percent: Option<nat>, elapsed: nat)
    ensures DirectTx(d, SetCommissionPercent(percent)) == Committed(d.(commissionPercent := percent), [])
    ensures DirectTx(d, Tick(elapsed)) == Committed(d.(now := d.now + elapsed), [])
  {
  }
}
