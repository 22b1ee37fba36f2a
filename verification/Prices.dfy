/**
 The price of a job. Money is computed from a price read before the transaction, on the
 assumption that an engagement's price never changes. One step can change it: committing the
 acceptance of a proposal that was still pending when its quote was accepted.
 */
module Prices {
  import opened Prelude
  import opened Tables
  import opened Writes
  import opened Protocol
  import opened Lifecycle
  import opened History
  import opened Market
  import opened Payments
  import opened Safety

  ghost predicate PricesKept(d: Db, d': Db)
    requires |d.engagements| <= |d'.engagements|
  {
    forall e :: 0 <= e < |d.engagements| ==> PriceOf(d', e) == PriceOf(d, e)
  }

  /** Checkable before the step: a late acceptance, at a price other than the one in force. */
  predicate LateAcceptance(d: Db, call: Call) {
    && call.AcceptProposalCall?
    && call.proposal < |d.proposals| && d.proposals[call.proposal].status == ProposalPending
    && call.quote < |d.quotes| && d.quotes[call.quote].status == QuoteAccepted
    && call.price != AgreedPrice(d.quotes[call.quote])
  }

  predicate StepIsLateAcceptance(s: State, a: Action) {
    a.Commit? && a.call < |s.calls| && LateAcceptance(s.db, s.calls[a.call])
  }

  lemma AcceptProposalPrices(d: Db, p: Id, q: Id, price: nat)
    requires WinnersOk(d.requests, d.quotes, d.engagements)
    requires OfferCallOk(d, AcceptProposalCall(p, q, price))
    requires AcceptProposalTx(d, p, q, price).Committed?
    ensures PricesKept(d, AcceptProposalTx(d, p, q, price).db) <==> !LateAcceptance(d, AcceptProposalCall(p, q, price))
  {
    var d' := AcceptProposalTx(d, p, q, price).db;
    assert QuoteOk(q, d.requests, d.quotes);
    if d.quotes[q].status == QuoteAccepted {
      var r := d.quotes[q].request;
      assert RequestOk(r, d.requests, d.quotes, d.engagements);
      var e :| 0 <= e < |d.engagements| && d.engagements[e].request == r;
      assert EngagementOk(e, d.requests, d.quotes, d.engagements);
      assert PriceOf(d', e) == price && PriceOf(d, e) == AgreedPrice(d.quotes[q]);
    }
    if !LateAcceptance(d, AcceptProposalCall(p, q, price)) {
      forall e | 0 <= e < |d.engagements|
        ensures PriceOf(d', e) == PriceOf(d, e)
      {
        assert EngagementOk(e, d.requests, d.quotes, d.engagements);
        var r := d.engagements[e].request;
        assert RequestOk(r, d.requests, d.quotes, d.engagements);
      }
    }
  }

  lemma SameQuotesSamePrices(d: Db, d': Db)
    requires |d.engagements| <= |d'.engagements| && |d.quotes| <= |d'.quotes|
    requires forall e :: 0 <= e < |d.engagements| ==> d'.engagements[e].quote == d.engagements[e].quote < |d.quotes|
    requires forall q :: 0 <= q < |d.quotes| ==> AgreedPrice(d'.quotes[q]) == AgreedPrice(d.quotes[q])
    ensures PricesKept(d, d')
  {
  }

  lemma QuotesReferredExist(d: Db)
    requires WinnersOk(d.requests, d.quotes, d.engagements)
    ensures forall e :: 0 <= e < |d.engagements| ==> d.engagements[e].quote < |d.quotes|
  {
    forall e | 0 <= e < |d.engagements|
      ensures d.engagements[e].quote < |d.quotes|
    {
      assert EngagementOk(e, d.requests, d.quotes, d.engagements);
    }
  }

  lemma CommitPrices(d: Db, call: Call)
    requires WinnersOk(d.requests, d.quotes, d.engagements) && OfferCallOk(d, call) && CommitTx(d, call).Committed?
    requires KeepsHistory(d, CommitTx(d, call).db)
    ensures PricesKept(d, CommitTx(d, call).db) <==> !LateAcceptance(d, call)
  {
    var d' := CommitTx(d, call).db;
    QuotesReferredExist(d);
    if call.AcceptProposalCall? {
      AcceptProposalPrices(d, call.proposal, call.quote, call.price);
    } else {
      CommitKeepsAgreedPrices(d, call);
      SameParties(d, d');
      SameQuotesSamePrices(d, d');
    }
  }

  lemma SameParties(d: Db, d': Db)
    requires KeepsHistory(d, d')
    ensures forall e :: 0 <= e < |d.engagements| ==> d'.engagements[e].quote == d.engagements[e].quote
  {
  }

  lemma CommitKeepsAgreedPrices(d: Db, call: Call)
    requires CommitTx(d, call).Committed? && !call.AcceptProposalCall?
    ensures var d' := CommitTx(d, call).db;
            |d.quotes| <= |d'.quotes|
            && forall q :: 0 <= q < |d.quotes| ==> AgreedPrice(d'.quotes[q]) == AgreedPrice(d.quotes[q])
  {
  }

  lemma DirectKeepsAgreedPrices(d: Db, s: Statement)
    requires DirectTx(d, s).Committed?
    ensures var d' := DirectTx(d, s).db;
            |d.quotes| <= |d'.quotes|
            && forall q :: 0 <= q < |d.quotes| ==> AgreedPrice(d'.quotes[q]) == AgreedPrice(d.quotes[q])
  {
  }

  /** A step changes some engagement's price exactly when it commits a late acceptance. */
  lemma PriceChangesExactlyByLateAcceptance(s: State, a: Action)
    requires Invariant(s)
    ensures |s.db.engagements| <= |Step(s, a).db.engagements|
    ensures PricesKept(s.db, Step(s, a).db) <==> !StepIsLateAcceptance(s, a)
  {
    StepIsSafe(s, a);
    if ActionTx(s, a).Committed? {
      match a {
        case Commit(c) =>
          assert CallOk(s.db, s.calls[c]);
          CommitPrices(s.db, s.calls[c]);
        case Direct(statement) =>
          QuotesReferredExist(s.db);
          DirectKeepsAgreedPrices(s.db, statement);
          SameParties(s.db, Step(s, a).db);
          SameQuotesSamePrices(s.db, Step(s, a).db);
      }
    } else if a.Commit? && a.call < |s.calls| && s.calls[a.call].AcceptProposalCall? {
      assert CallOk(s.db, s.calls[a.call]);
    }
  }

  // ---- What money is computed from ------------------------------------------

  ghost predicate CallPriced(d: Db, call: Call) {
    match call
    case CancelByCustomerCall(e, _, price) => e < |d.engagements| && price == PriceOf(d, e)
    case CancelByProfessionalCall(e, price) => e < |d.engagements| && price == PriceOf(d, e)
    case ConfirmCashCall(e, _, price) => e < |d.engagements| && price == PriceOf(d, e)
    case PayDigitallyCall(e, price) => e < |d.engagements| && price == PriceOf(d, e)
    case _ => true
  }

  ghost predicate EventPriced(d: Db, ev: Event) {
    ev.engagement < |d.engagements| && ev.price == PriceOf(d, ev.engagement)
  }

  ghost predicate AttemptPriced(d: Db, a: Attempt) {
    a.engagement < |d.engagements| && a.amount == PriceOf(d, a.engagement)
  }

  /** Every amount on record or about to be recorded comes from the engagement's one price. */
  ghost predicate EverythingPriced(s: State) {
    && (forall c :: 0 <= c < |s.calls| ==> CallPriced(s.db, s.calls[c]))
    && (forall i :: 0 <= i < |s.events| ==> EventPriced(s.db, s.events[i]))
    && (forall a :: 0 <= a < |s.db.attempts| ==> AttemptPriced(s.db, s.db.attempts[a]))
  }

  lemma ConfirmCashIsPriced(d: Db, e: Id, role: Party, price: nat)
    requires CallPriced(d, ConfirmCashCall(e, role, price)) && ConfirmCashTx(d, e, role, price).Committed?
    requires forall a :: 0 <= a < |d.attempts| ==> AttemptPriced(d, d.attempts[a])
    ensures var tx := ConfirmCashTx(d, e, role, price);
      && (forall i :: 0 <= i < |tx.events| ==> EventPriced(d, tx.events[i]))
      && (forall a :: 0 <= a < |tx.db.attempts| ==> AttemptPriced(d, tx.db.attempts[a]))
  {
    var upserted := UpsertCashConfirmation(SetPaymentMethodIfUnset(d, e, Cash).db, e, role, price).value;
    forall a | 0 <= a < |upserted.0|
      ensures AttemptPriced(d, upserted.0[a])
    {
      if a < |d.attempts| { assert AttemptPriced(d, d.attempts[a]); }
    }
  }

  lemma CommitIsPriced(d: Db, call: Call)
    requires CallPriced(d, call) && CommitTx(d, call).Committed?
    requires forall a :: 0 <= a < |d.attempts| ==> AttemptPriced(d, d.attempts[a])
    ensures forall i :: 0 <= i < |CommitTx(d, call).events| ==> EventPriced(d, CommitTx(d, call).events[i])
    ensures forall a :: 0 <= a < |CommitTx(d, call).db.attempts| ==> AttemptPriced(d, CommitTx(d, call).db.attempts[a])
  {
    match call
    case ConfirmCashCall(e, role, price) => ConfirmCashIsPriced(d, e, role, price);
    case _ =>
  }

  lemma DirectIsPriced(d: Db, s: Statement)
    requires DirectTx(d, s).Committed?
    requires forall a :: 0 <= a < |d.attempts| ==> AttemptPriced(d, d.attempts[a])
    ensures forall i :: 0 <= i < |DirectTx(d, s).events| ==> EventPriced(d, DirectTx(d, s).events[i])
    ensures forall a :: 0 <= a < |DirectTx(d, s).db.attempts| ==> AttemptPriced(d, DirectTx(d, s).db.attempts[a])
  {
    match s
    case ApplyPaymentResult(a, _) => assert AttemptPriced(d, d.attempts[a]);
    case _ =>
  }

  lemma StaysPriced(d: Db, d': Db, calls: seq<Call>, events: seq<Event>, attempts: seq<Attempt>)
    requires |d.engagements| <= |d'.engagements| && PricesKept(d, d')
    requires forall c :: 0 <= c < |calls| ==> CallPriced(d, calls[c])
    requires forall i :: 0 <= i < |events| ==> EventPriced(d, events[i])
    requires forall a :: 0 <= a < |attempts| ==> AttemptPriced(d, attempts[a])
    ensures forall c :: 0 <= c < |calls| ==> CallPriced(d', calls[c])
    ensures forall i :: 0 <= i < |events| ==> EventPriced(d', events[i])
    ensures forall a :: 0 <= a < |attempts| ==> AttemptPriced(d', attempts[a])
  {
  }

  lemma NextCallsPriced(s: State, a: Action)
    requires EverythingPriced(s)
    ensures forall c :: 0 <= c < |NextCalls(s, a)| ==> CallPriced(s.db, NextCalls(s, a)[c])
  {
  }

  lemma StepStaysPriced(s: State, a: Action)
    requires Invariant(s) && EverythingPriced(s) && !StepIsLateAcceptance(s, a)
    ensures EverythingPriced(Step(s, a))
  {
    PriceChangesExactlyByLateAcceptance(s, a);
    NextCallsPriced(s, a);
    if ActionTx(s, a).Committed? {
      match a {
        case Commit(c) =>
          assert CallPriced(s.db, s.calls[c]);
          CommitIsPriced(s.db, s.calls[c]);
        case Direct(statement) => DirectIsPriced(s.db, statement);
      }
      var tx := ActionTx(s, a);
      StaysPriced(s.db, tx.db, NextCalls(s, a), s.events + tx.events, tx.db.attempts);
    }
  }

  ghost predicate NoLateAcceptance(s: State, actions: seq<Action>) {
    forall i :: 0 <= i < |actions| ==> !StepIsLateAcceptance(Run(s, actions[..i]), actions[i])
  }

  /**
   While nobody's acceptance of a proposal comes late, every event, every attempt and every open
   call carries the engagement's one price, however stale the read it was taken from.
   */
  lemma {:induction false} MoneyFollowsTheAgreedPrice(s: State, actions: seq<Action>)
    requires Invariant(s) && EverythingPriced(s) && NoLateAcceptance(s, actions)
    ensures EverythingPriced(Run(s, actions))
  {
    if actions != [] {
      var init := actions[..|actions| - 1];
      forall i | 0 <= i < |init|
        ensures !StepIsLateAcceptance(Run(s, init[..i]), init[i])
      {
        assert init[..i] == actions[..i];
      }
      MoneyFollowsTheAgreedPrice(s, init);
      RunIsSafe(s, init);
      StepStaysPriced(Run(s, init), actions[|actions| - 1]);
    }
  }
}
