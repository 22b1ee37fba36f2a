/** The protocol's guarantees over whole runs, stated for the reader of the tables. */
module Theorems {
  import opened Prelude
  import opened Tables
  import opened Writes
  import opened Protocol
  import opened Lifecycle
  import opened History
  import opened Market
  import opened Payments
  import opened Safety
  import opened Ledger
  import opened Prices
  import opened Effects
  import opened MoneyEffects

  // ---- One winner -----------------------------------------------------------

  predicate IsEngagementOf(row: Engagement, r: Id, q: Id) {
    row.request == r && row.quote == q
  }

  /** Accepted quotes are exactly the chosen ones; an engaged request has exactly one engagement, with that quote. */
  lemma OneWinnerPerRequest(s: State)
    requires Reachable(s)
    ensures forall q :: 0 <= q < |s.db.quotes| ==>
      var r := s.db.quotes[q].request;
      r < |s.db.requests| && (s.db.quotes[q].status == QuoteAccepted <==> s.db.requests[r].acceptedQuote == Some(q))
    ensures forall r :: 0 <= r < |s.db.requests| ==>
      (s.db.requests[r].status == Engaged <==>
        s.db.requests[r].acceptedQuote.Some?
        && exists e :: 0 <= e < |s.db.engagements|
             && IsEngagementOf(s.db.engagements[e], r, s.db.requests[r].acceptedQuote.value))
    ensures forall e, f :: 0 <= e < f < |s.db.engagements| ==>
      s.db.engagements[e].request != s.db.engagements[f].request && s.db.engagements[e].quote != s.db.engagements[f].quote
  {
    ReachableIsSafe(s);
    var d := s.db;
    forall q | 0 <= q < |d.quotes|
      ensures var r := d.quotes[q].request;
        r < |d.requests| && (d.quotes[q].status == QuoteAccepted <==> d.requests[r].acceptedQuote == Some(q))
    {
      assert QuoteOk(q, d.requests, d.quotes);
      assert RequestOk(d.quotes[q].request, d.requests, d.quotes, d.engagements);
    }
    forall r | 0 <= r < |d.requests|
      ensures d.requests[r].status == Engaged <==>
        d.requests[r].acceptedQuote.Some?
        && exists e :: 0 <= e < |d.engagements| && IsEngagementOf(d.engagements[e], r, d.requests[r].acceptedQuote.value)
    {
      assert RequestOk(r, d.requests, d.quotes, d.engagements);
      if d.requests[r].acceptedQuote.Some? {
        var e :| 0 <= e < |d.engagements| && d.engagements[e].request == r;
        assert EngagementOk(e, d.requests, d.quotes, d.engagements);
        assert IsEngagementOf(d.engagements[e], r, d.requests[r].acceptedQuote.value);
      }
    }
    forall e, f | 0 <= e < f < |d.engagements|
      ensures d.engagements[e].request != d.engagements[f].request && d.engagements[e].quote != d.engagements[f].quote
    {
      assert EngagementOk(e, d.requests, d.quotes, d.engagements) && EngagementOk(f, d.requests, d.quotes, d.engagements);
      assert RequestOk(d.engagements[e].request, d.requests, d.quotes, d.engagements);
      assert RequestOk(d.engagements[f].request, d.requests, d.quotes, d.engagements);
    }
  }

  /** Whatever anyone does afterwards, the winner and the loser stay what they are. */
  lemma WinnerIsFinal(s: State, actions: seq<Action>, r: Id, q: Id)
    requires Reachable(s) && r < |s.db.requests| && q < |s.db.quotes|
    requires s.db.requests[r].acceptedQuote == Some(q)
    ensures var d := Run(s, actions).db;
      && r < |d.requests| && d.requests[r].acceptedQuote == Some(q) && d.requests[r].status == Engaged
      && forall p :: 0 <= p < |d.quotes| && d.quotes[p].request == r && p != q ==> d.quotes[p].status != QuoteAccepted
  {
    ReachableIsSafe(s);
    RunIsSafe(s, actions);
    var d := Run(s, actions).db;
    assert RequestOk(r, s.db.requests, s.db.quotes, s.db.engagements);
    assert KeepsRequest(s.db.requests[r], d.requests[r]);
    forall p | 0 <= p < |d.quotes| && d.quotes[p].request == r && p != q
      ensures d.quotes[p].status != QuoteAccepted
    {
      assert QuoteOk(p, d.requests, d.quotes);
    }
  }

  /**
   An accept either performs all its writes, and those alone, or leaves every table as it was; which of the two is
   decided by the two statuses: the unique index is never what refuses it. The customer's other requests and
   everyone else's offers are never touched.
   */
  lemma AcceptIsAllOrNothing(s: State, c: Id)
    requires Reachable(s) && c < |s.calls| && s.calls[c].AcceptQuoteCall?
    ensures var call := s.calls[c];
      var d, d' := s.db, Step(s, Commit(c)).db;
      && call.request < |d.requests| && call.quote < |d.quotes|
      && call.customer == d.requests[call.request].customer
      && call.professional == d.quotes[call.quote].professional
      && if d.requests[call.request].status == Open && d.quotes[call.quote].status == Sent then
           OfferAccepted(d, d', call.request, call.quote, call.customer, call.professional)
         else
           d' == d
  {
    ReachableIsSafe(s);
    var call := s.calls[c];
    assert CallOk(s.db, call);
    AcceptEffect(s.db, call.request, call.quote, call.customer, call.professional);
    if s.db.requests[call.request].status == Open {
      OpenRequestHasNoEngagement(s.db, call.request, call.quote);
    }
  }

  // ---- Negotiation ----------------------------------------------------------

  /** A pending proposal is its quote's newest, hence the only one; the price follows the accepted ones. */
  lemma NegotiationHistory(s: State)
    requires Reachable(s)
    ensures forall p, r :: 0 <= p < r < |s.db.proposals| && s.db.proposals[p].quote == s.db.proposals[r].quote ==>
      s.db.proposals[p].status != ProposalPending
    ensures forall q :: 0 <= q < |s.db.quotes| ==>
      s.db.quotes[q].negotiatedPrice == LastAcceptedPrice(s.db.proposals, q)
  {
    ReachableIsSafe(s);
  }

  /** The price of a job is that of the last proposal accepted on its quote, or the quote's own if none was. */
  lemma PriceIsTheLastAgreed(s: State, e: Id)
    requires Reachable(s) && e < |s.db.engagements|
    ensures var q := s.db.engagements[e].quote;
      && q < |s.db.quotes|
      && (forall p: Id :: IsNewestAccepted(s.db.proposals, p, q) ==> PriceOf(s.db, e) == s.db.proposals[p].price)
      && ((forall p :: 0 <= p < |s.db.proposals| ==> !IsAcceptedOn(s.db.proposals[p], q)) ==>
            PriceOf(s.db, e) == s.db.quotes[q].price)
  {
    ReachableIsSafe(s);
    assert EngagementOk(e, s.db.requests, s.db.quotes, s.db.engagements);
    LastAcceptedIsExact(s.db.proposals, s.db.engagements[e].quote);
  }

  // ---- Lifecycle ------------------------------------------------------------

  function RankIn(s: State, e: Id): nat {
    if e < |s.db.engagements| then Rank(s.db.engagements[e].status) else 3
  }

  predicate Moves(s: State, a: Action, e: Id) {
    e < |s.db.engagements| && Step(s, a).db.engagements != s.db.engagements
    && e < |Step(s, a).db.engagements|
    && Step(s, a).db.engagements[e].status != s.db.engagements[e].status
  }

  /** How many transitions of the engagement succeeded during the run. */
  function Transitions(s: State, actions: seq<Action>, e: Id): nat
    decreases |actions|
  {
    if actions == [] then 0 else
    var init, last := actions[..|actions| - 1], actions[|actions| - 1];
    Transitions(s, init, e) + if Moves(Run(s, init), last, e) then 1 else 0
  }

  predicate Enters(s: State, a: Action, e: Id, status: EngagementStatus) {
    Moves(s, a, e) && Step(s, a).db.engagements[e].status == status
  }

  function Entries(s: State, actions: seq<Action>, e: Id, status: EngagementStatus): nat
    decreases |actions|
  {
    if actions == [] then 0 else
    var init, last := actions[..|actions| - 1], actions[|actions| - 1];
    Entries(s, init, e, status) + if Enters(Run(s, init), last, e, status) then 1 else 0
  }

  lemma RankStep(s: State, a: Action, e: Id)
    requires Invariant(s)
    ensures RankIn(Step(s, a), e) + (if Moves(s, a, e) then 1 else 0) <= RankIn(s, e)
  {
    StepIsSafe(s, a);
    if e < |s.db.engagements| {
      assert KeepsEngagement(s.db.engagements[e], Step(s, a).db.engagements[e]);
    }
  }

  /** However many callers race, an engagement makes three transitions at most, and each at most once. */
  lemma {:induction false} TransitionsAreBounded(s: State, actions: seq<Action>, e: Id, status: EngagementStatus)
    requires Invariant(s)
    ensures Transitions(s, actions, e) + RankIn(Run(s, actions), e) <= RankIn(s, e) <= 3
    ensures Entries(s, actions, e, status) <= 1
    ensures Entries(s, actions, e, status) == 1 ==> RankIn(Run(s, actions), e) <= Rank(status)
  {
    if actions != [] {
      var init, last := actions[..|actions| - 1], actions[|actions| - 1];
      TransitionsAreBounded(s, init, e, status);
      RunIsSafe(s, init);
      RankStep(Run(s, init), last, e);
    }
  }

  /** The stamps of a reachable engagement are those of its path, in time order. */
  lemma StampsTellThePath(s: State, e: Id)
    requires Reachable(s) && e < |s.db.engagements|
    ensures StampsMatchPath(s.db.engagements[e], s.db.now)
  {
    ReachableIsSafe(s);
  }

  // ---- Visits ---------------------------------------------------------------

  /** Work never started without a visit confirmed beforehand, even if that visit was cancelled since. */
  lemma StartedMeansVisited(s: State, e: Id)
    requires Reachable(s) && e < |s.db.engagements| && s.db.engagements[e].startedAt.Some?
    ensures VisitedBy(s.db.appointments, e, s.db.engagements[e].startedAt.value)
  {
    ReachableIsSafe(s);
  }

  /** Two confirmed visits of one professional: one ends before the other starts. */
  predicate DoNotCollide(a: Appointment, b: Appointment) {
    a.status == Confirmed && b.status == Confirmed && a.professional == b.professional ==>
      a.endsAt <= b.startsAt || b.endsAt <= a.startsAt
  }

  lemma NobodyIsDoubleBooked(s: State)
    requires Reachable(s)
    ensures forall a, b :: 0 <= a < b < |s.db.appointments| ==> DoNotCollide(s.db.appointments[a], s.db.appointments[b])
  {
    ReachableIsSafe(s);
    forall a, b | 0 <= a < b < |s.db.appointments|
      ensures DoNotCollide(s.db.appointments[a], s.db.appointments[b])
    {
      assert s.db.appointments[a].status == Confirmed ==> !Clashes(s.db.appointments[a], s.db.appointments[b]);
    }
  }

  function CancelVisits(visits: seq<Id>): seq<Action> {
    if visits == [] then [] else
    CancelVisits(visits[..|visits| - 1]) + [Direct(CancelAppointment(visits[|visits| - 1]))]
  }

  ghost predicate SameSlot(a: Appointment, b: Appointment) {
    a.startsAt == b.startsAt && a.endsAt == b.endsAt && a.professional == b.professional
  }

  /** The visits listed are cancelled, every other one is untouched, and no slot moves. */
  ghost predicate CancelledOnly(before: seq<Appointment>, after: seq<Appointment>, visits: seq<Id>) {
    |after| == |before|
    && forall a :: 0 <= a < |after| ==>
         SameSlot(before[a], after[a])
         && (if a in visits then after[a].status == AppointmentCancelled else after[a] == before[a])
  }

  lemma CancelStep(s: State, visit: Id)
    ensures Step(s, Direct(CancelAppointment(visit))).db.appointments == CancelAppointmentIfActive(s.db, visit).db.appointments
  {
  }

  lemma {:induction false} CancellingFreesSlots(s: State, visits: seq<Id>)
    ensures CancelledOnly(s.db.appointments, Run(s, CancelVisits(visits)).db.appointments, visits)
  {
    if visits != [] {
      var init, last := visits[..|visits| - 1], visits[|visits| - 1];
      CancellingFreesSlots(s, init);
      var actions := CancelVisits(visits);
      assert actions[..|actions| - 1] == CancelVisits(init);
      CancelStep(Run(s, CancelVisits(init)), last);
      assert forall a :: a in visits <==> a in init || a == last;
    }
  }

  /** A confirmation refused for overlap changes nothing, and goes through once every clashing visit is cancelled. */
  lemma RefusedConfirmationSucceedsOnceFree(s: State, a: Id, clashing: seq<Id>)
    requires a < |s.db.appointments| && s.db.appointments[a].status == AppointmentPending && a !in clashing
    requires forall b :: 0 <= b < |s.db.appointments| ==>
      (b != a && Clashes(s.db.appointments[a], s.db.appointments[b]) ==> b in clashing)
    ensures SlotTaken(s.db.appointments, a) <==> Step(s, Direct(ConfirmAppointment(a))).db == s.db
    ensures var freed := Run(s, CancelVisits(clashing));
      var d := Step(freed, Direct(ConfirmAppointment(a))).db;
      |d.appointments| == |s.db.appointments| && d.appointments[a].status == Confirmed
  {
    CancellingFreesSlots(s, clashing);
    var freed := Run(s, CancelVisits(clashing)).db;
    forall b | 0 <= b < |freed.appointments| && b != a
      ensures !Clashes(freed.appointments[a], freed.appointments[b])
    {
      assert SameSlot(s.db.appointments[a], freed.appointments[a]) && SameSlot(s.db.appointments[b], freed.appointments[b]);
      assert !(b in clashing) ==> !Clashes(s.db.appointments[a], s.db.appointments[b]);
    }
    assert !SlotTaken(freed.appointments, a);
    assert !SlotTaken(s.db.appointments, a) ==>
      Step(s, Direct(ConfirmAppointment(a))).db.appointments[a].status == Confirmed;
  }

  // ---- Cancellations and money ----------------------------------------------

  /** Cancellation rows exist for cancelled engagements only, once, as one charge group or one refund. */
  lemma OneCancellationOutcome(s: State, e: Id)
    requires Reachable(s)
    ensures forall i :: 0 <= i < |s.events| && IsCancellationOf(s.events[i], e) ==>
      && e < |s.db.engagements| && s.db.engagements[e].status == Cancelled
      && forall j :: 0 <= j < |s.events| && j != i ==> !IsCancellationOf(s.events[j], e)
    ensures s.db.ledger == LedgerOf(s.events)
  {
    ReachableIsSafe(s);
    forall i | 0 <= i < |s.events| && IsCancellationOf(s.events[i], e)
      ensures e < |s.db.engagements| && s.db.engagements[e].status == Cancelled
      ensures forall j :: 0 <= j < |s.events| && j != i ==> !IsCancellationOf(s.events[j], e)
    {
      assert EventOk(s.events[i], s.db.engagements);
      forall j | 0 <= j < |s.events| && j != i
        ensures !IsCancellationOf(s.events[j], e)
      {
        var first, second := if i < j then i else j, if i < j then j else i;
        assert IsCancellation(s.events[first]) ==> !IsCancellationOf(s.events[second], s.events[first].engagement);
      }
    }
  }

  /** A customer's cancellation is charged exactly when the status read beforehand was IN_PROGRESS, and then it still was. */
  lemma ChargeFollowsTheRead(s: State, c: Id)
    requires Reachable(s) && c < |s.calls| && s.calls[c].CancelByCustomerCall?
    requires ActionTx(s, Commit(c)).Committed?
    ensures var e := s.calls[c].engagement;
      && e < |s.db.engagements|
      && (Step(s, Commit(c)).events != s.events <==> s.calls[c].readStatus == InProgress)
      && (Step(s, Commit(c)).events != s.events ==> s.db.engagements[e].status == InProgress)
  {
    ReachableIsSafe(s);
    assert CallOk(s.db, s.calls[c]);
    var e := s.calls[c].engagement;
    assert StampsMatchPath(s.db.engagements[e], s.db.now);
  }

  /** Every ledger row but a refund belongs to a job whose work started after a confirmed visit. */
  lemma NoMoneyWithoutAVisit(s: State, i: Id)
    requires Reachable(s) && i < |s.events| && !s.events[i].FullRefund?
    ensures var e := s.events[i].engagement;
      && e < |s.db.engagements| && s.db.engagements[e].startedAt.Some?
      && VisitedBy(s.db.appointments, e, s.db.engagements[e].startedAt.value)
  {
    ReachableIsSafe(s);
    assert EventOk(s.events[i], s.db.engagements);
  }

  /**
   A professional's balance is the sum over their engagements of one payment's net plus one
   cancellation's net, each present only if the engagement was paid, respectively cancelled.
   */
  lemma BalanceIsAFunctionOfTheJobs(s: State, p: Id, e: Id)
    requires Reachable(s) && e < |s.db.engagements|
    ensures ProfessionalBalance(s.db.ledger, p)
      == NetOfEngagements(s.db.engagements, s.events, p, |s.db.engagements|)
    ensures EngagementNet(s.events, e) == NetOf(FindPayment(s.events, e)) + NetOf(FindCancellation(s.events, e))
    ensures FindPayment(s.events, e).Some? <==> HasApproved(s.db.attempts, e)
    ensures FindCancellation(s.events, e).Some? ==> s.db.engagements[e].status == Cancelled
  {
    ReachableIsSafe(s);
    BalanceByEngagement(s.db.engagements, s.events, p);
    NetIsPaymentPlusCancellation(s.events, e);
    if FindPayment(s.events, e).Some? {
      var i :| 0 <= i < |s.events| && s.events[i] == FindPayment(s.events, e).value;
      assert IsPayment(s.events[i]);
    }
    if FindCancellation(s.events, e).Some? {
      var i :| 0 <= i < |s.events| && s.events[i] == FindCancellation(s.events, e).value;
      assert EventOk(s.events[i], s.db.engagements);
    }
  }

  /** The net of an event at the price the engagement has today, at the percentage frozen in its rows. */
  function NetAt(found: Option<Event>, price: nat): int {
    match found
    case None => 0
    case Some(ev) => EventNet(ev.(price := price))
  }

  /**
   While no acceptance of a proposal comes late, the nets behind a balance follow from the tables: whether the
   engagement is paid and by which method, whether it was cancelled, its one price and the frozen percentage.
   */
  lemma BalanceFollowsThePrices(actions: seq<Action>, p: Id, e: Id)
    requires NoLateAcceptance(Initial(), actions) && e < |Run(Initial(), actions).db.engagements|
    ensures var s := Run(Initial(), actions);
      && ProfessionalBalance(s.db.ledger, p) == NetOfEngagements(s.db.engagements, s.events, p, |s.db.engagements|)
      && EngagementNet(s.events, e) ==
           NetAt(FindPayment(s.events, e), PriceOf(s.db, e)) + NetAt(FindCancellation(s.events, e), PriceOf(s.db, e))
      && (FindPayment(s.events, e).Some? <==> HasApproved(s.db.attempts, e))
    ensures var s := Run(Initial(), actions);
      forall found :: found == FindPayment(s.events, e) || found == FindCancellation(s.events, e) ==>
        if found == None then NetAt(found, PriceOf(s.db, e)) == 0
        else IsNet(found.value.(price := PriceOf(s.db, e)), NetAt(found, PriceOf(s.db, e)))
  {
    var s := Run(Initial(), actions);
    InitialIsSafe();
    MoneyFollowsTheAgreedPrice(Initial(), actions);
    BalanceIsAFunctionOfTheJobs(s, p, e);
    NetIsAtThePrice(s, FindPayment(s.events, e), e);
    NetIsAtThePrice(s, FindCancellation(s.events, e), e);
    forall found: Option<Event> | found.Some?
      ensures IsNet(found.value.(price := PriceOf(s.db, e)), NetAt(found, PriceOf(s.db, e)))
    {
      EventNetIsTheNet(found.value.(price := PriceOf(s.db, e)));
    }
  }

  lemma NetIsAtThePrice(s: State, found: Option<Event>, e: Id)
    requires EverythingPriced(s) && e < |s.db.engagements|
    requires found.Some? ==> found.value in s.events && found.value.engagement == e
    ensures NetOf(found) == NetAt(found, PriceOf(s.db, e))
  {
  }

  /** Money charged to customers is exactly the platform's balance plus all professionals' balances. */
  lemma MoneyIsConserved(s: State, n: nat)
    requires Reachable(s)
    requires forall e :: 0 <= e < |s.db.engagements| ==> s.db.engagements[e].professional < n
    ensures Collected(s.db.ledger) == PlatformBalance(s.db.ledger) + AllBalances(s.db.ledger, n)
  {
    ReachableIsSafe(s);
    NothingForgotten(s.events);
    forall i | 0 <= i < |s.events|
      ensures KnownEntry(Recordings(s.events)[i], n)
    {
      assert EventOk(s.events[i], s.db.engagements);
    }
    DeletionsConserveMoney(Recordings(s.events), n);
  }
}
