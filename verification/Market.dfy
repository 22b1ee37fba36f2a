/** One winner per service request, and the negotiation history behind each price. */
module Market {
  import opened Prelude
  import opened Tables
  import opened Writes
  import opened Protocol

  // ---- One winner ----------------------------------------------------------

  ghost predicate RequestOk(r: Id, requests: seq<Request>, quotes: seq<Quote>, engagements: seq<Engagement>)
    requires r < |requests|
  {
    && (requests[r].status == Engaged <==> requests[r].acceptedQuote.Some?)
    && (requests[r].acceptedQuote.Some? ==>
          var q := requests[r].acceptedQuote.value;
          && q < |quotes| && quotes[q].request == r && quotes[q].status == QuoteAccepted
          && HasEngagement(engagements, r))
  }

  ghost predicate HasEngagement(engagements: seq<Engagement>, r: Id) {
    exists e :: 0 <= e < |engagements| && engagements[e].request == r
  }

  ghost predicate QuoteOk(q: Id, requests: seq<Request>, quotes: seq<Quote>)
    requires q < |quotes|
  {
    && quotes[q].request < |requests|
    && (quotes[q].status == QuoteAccepted ==> requests[quotes[q].request].acceptedQuote == Some(q))
  }

  ghost predicate EngagementOk(e: Id, requests: seq<Request>, quotes: seq<Quote>, engagements: seq<Engagement>)
    requires e < |engagements|
  {
    var row := engagements[e];
    && row.request < |requests| && row.quote < |quotes|
    && requests[row.request].acceptedQuote == Some(row.quote)
    && requests[row.request].customer == row.customer
    && quotes[row.quote].professional == row.professional
  }

  ghost predicate WinnersOk(requests: seq<Request>, quotes: seq<Quote>, engagements: seq<Engagement>) {
    && (forall r :: 0 <= r < |requests| ==> RequestOk(r, requests, quotes, engagements))
    && (forall q :: 0 <= q < |quotes| ==> QuoteOk(q, requests, quotes))
    && (forall e :: 0 <= e < |engagements| ==> EngagementOk(e, requests, quotes, engagements))
    && (forall e, f :: 0 <= e < f < |engagements| ==> engagements[e].request != engagements[f].request)
  }

  ghost predicate OfferCallOk(d: Db, call: Call) {
    match call
    case SubmitQuoteCall(r, _, _) => r < |d.requests|
    case AcceptQuoteCall(r, q, customer, professional) =>
      && r < |d.requests| && q < |d.quotes| && d.quotes[q].request == r
      && d.requests[r].customer == customer && d.quotes[q].professional == professional
    case PostPriceCall(q, _, _) => q < |d.quotes|
    case AcceptProposalCall(p, q, price) =>
      p < |d.proposals| && d.proposals[p].quote == q && d.proposals[p].price == price && q < |d.quotes|
    case _ => true
  }

  lemma SamePartiesKeepWinners(
      requests: seq<Request>, quotes: seq<Quote>, engagements: seq<Engagement>,
      quotes': seq<Quote>, engagements': seq<Engagement>)
    requires WinnersOk(requests, quotes, engagements)
    requires |quotes'| == |quotes| && |engagements'| == |engagements|
    requires forall q :: 0 <= q < |quotes| ==>
      quotes'[q].request == quotes[q].request && quotes'[q].professional == quotes[q].professional
      && (quotes'[q].status == QuoteAccepted <==> quotes[q].status == QuoteAccepted)
    requires forall e :: 0 <= e < |engagements| ==>
      engagements'[e].request == engagements[e].request && engagements'[e].quote == engagements[e].quote
      && engagements'[e].customer == engagements[e].customer
      && engagements'[e].professional == engagements[e].professional
    ensures WinnersOk(requests, quotes', engagements')
  {
    forall r | 0 <= r < |requests|
      ensures RequestOk(r, requests, quotes', engagements')
    {
      assert RequestOk(r, requests, quotes, engagements);
      if HasEngagement(engagements, r) {
        var e :| 0 <= e < |engagements| && engagements[e].request == r;
        assert engagements'[e].request == r;
      }
    }
    forall q | 0 <= q < |quotes'|
      ensures QuoteOk(q, requests, quotes')
    {
      assert QuoteOk(q, requests, quotes);
    }
    forall e | 0 <= e < |engagements'|
      ensures EngagementOk(e, requests, quotes', engagements')
    {
      assert EngagementOk(e, requests, quotes, engagements);
    }
  }

  /** An open request has no engagement, so the unique index never refuses an accept that won its races. */
  lemma OpenRequestHasNoEngagement(d: Db, r: Id, q: Id)
    requires WinnersOk(d.requests, d.quotes, d.engagements)
    requires r < |d.requests| && d.requests[r].status == Open
    requires q < |d.quotes| && d.quotes[q].request == r
    ensures !EngagementKeyTaken(d.engagements, r, q)
  {
    assert RequestOk(r, d.requests, d.quotes, d.engagements);
    forall e | 0 <= e < |d.engagements|
      ensures d.engagements[e].request != r && d.engagements[e].quote != q
    {
      assert EngagementOk(e, d.requests, d.quotes, d.engagements);
      assert RequestOk(d.engagements[e].request, d.requests, d.quotes, d.engagements);
    }
  }

  lemma AcceptKeepsWinners(d: Db, r: Id, q: Id, customer: Id, professional: Id)
    requires WinnersOk(d.requests, d.quotes, d.engagements)
    requires OfferCallOk(d, AcceptQuoteCall(r, q, customer, professional))
    requires AcceptQuoteTx(d, r, q, customer, professional).Committed?
    ensures var d' := AcceptQuoteTx(d, r, q, customer, professional).db;
            WinnersOk(d'.requests, d'.quotes, d'.engagements)
  {
    var d' := AcceptQuoteTx(d, r, q, customer, professional).db;
    OpenRequestHasNoEngagement(d, r, q);
    assert RequestOk(r, d.requests, d.quotes, d.engagements);
    assert d'.engagements[|d.engagements|].request == r;
    forall s | 0 <= s < |d'.requests|
      ensures RequestOk(s, d'.requests, d'.quotes, d'.engagements)
    {
      assert RequestOk(s, d.requests, d.quotes, d.engagements);
      if s != r && HasEngagement(d.engagements, s) {
        var e :| 0 <= e < |d.engagements| && d.engagements[e].request == s;
        assert d'.engagements[e].request == s;
      }
    }
    forall s | 0 <= s < |d'.quotes|
      ensures QuoteOk(s, d'.requests, d'.quotes)
    {
      assert QuoteOk(s, d.requests, d.quotes);
    }
    forall e | 0 <= e < |d'.engagements|
      ensures EngagementOk(e, d'.requests, d'.quotes, d'.engagements)
    {
      if e < |d.engagements| {
        assert EngagementOk(e, d.requests, d.quotes, d.engagements);
      }
    }
  }

  /** A new quote or a new request has no winner yet. */
  lemma NewRowsKeepWinners(requests: seq<Request>, quotes: seq<Quote>, engagements: seq<Engagement>,
                           requests': seq<Request>, quotes': seq<Quote>)
    requires WinnersOk(requests, quotes, engagements)
    requires requests <= requests' && quotes <= quotes'
    requires forall r :: |requests| <= r < |requests'| ==> requests'[r].status != Engaged && requests'[r].acceptedQuote.None?
    requires forall q :: |quotes| <= q < |quotes'| ==> quotes'[q].request < |requests| && quotes'[q].status == Sent
    ensures WinnersOk(requests', quotes', engagements)
  {
    forall r | 0 <= r < |requests'|
      ensures RequestOk(r, requests', quotes', engagements)
    {
      if r < |requests| { assert RequestOk(r, requests, quotes, engagements); }
    }
    forall q | 0 <= q < |quotes'|
      ensures QuoteOk(q, requests', quotes')
    {
      if q < |quotes| { assert QuoteOk(q, requests, quotes); }
    }
    forall e | 0 <= e < |engagements|
      ensures EngagementOk(e, requests', quotes', engagements)
    {
      assert EngagementOk(e, requests, quotes, engagements);
    }
  }

  lemma CancelRequestKeepsWinners(d: Db, r: Id)
    requires WinnersOk(d.requests, d.quotes, d.engagements)
    ensures WinnersOk(CancelRequestIfOpen(d, r).db.requests, d.quotes, d.engagements)
  {
    var requests' := CancelRequestIfOpen(d, r).db.requests;
    forall s | 0 <= s < |requests'|
      ensures RequestOk(s, requests', d.quotes, d.engagements)
    {
      assert RequestOk(s, d.requests, d.quotes, d.engagements);
    }
    forall q | 0 <= q < |d.quotes|
      ensures QuoteOk(q, requests', d.quotes)
    {
      assert QuoteOk(q, d.requests, d.quotes);
    }
    forall e | 0 <= e < |d.engagements|
      ensures EngagementOk(e, requests', d.quotes, d.engagements)
    {
      assert EngagementOk(e, d.requests, d.quotes, d.engagements);
    }
  }

  lemma CommitKeepsWinners(d: Db, call: Call)
    requires WinnersOk(d.requests, d.quotes, d.engagements)
    requires OfferCallOk(d, call) && CommitTx(d, call).Committed?
    ensures var d' := CommitTx(d, call).db; WinnersOk(d'.requests, d'.quotes, d'.engagements)
  {
    var d' := CommitTx(d, call).db;
    match call
    case SubmitQuoteCall(_, _, _) =>
      NewRowsKeepWinners(d.requests, d.quotes, d.engagements, d'.requests, d'.quotes);
    case AcceptQuoteCall(r, q, customer, professional) => AcceptKeepsWinners(d, r, q, customer, professional);
    case _ => SamePartiesKeepWinners(d.requests, d.quotes, d.engagements, d'.quotes, d'.engagements);
  }

  lemma DirectKeepsWinners(d: Db, s: Statement)
    requires WinnersOk(d.requests, d.quotes, d.engagements) && DirectTx(d, s).Committed?
    ensures var d' := DirectTx(d, s).db; WinnersOk(d'.requests, d'.quotes, d'.engagements)
  {
    var d' := DirectTx(d, s).db;
    match s
    case PublishRequest(_) => NewRowsKeepWinners(d.requests, d.quotes, d.engagements, d'.requests, d'.quotes);
    case CancelRequest(r) => CancelRequestKeepsWinners(d, r);
    case _ => SamePartiesKeepWinners(d.requests, d.quotes, d.engagements, d'.quotes, d'.engagements);
  }

  // ---- Negotiation ---------------------------------------------------------

  /** The price of the newest accepted proposal on a quote: what the negotiated price should be. */
  function LastAcceptedPrice(proposals: seq<Proposal>, q: Id): Option<nat> {
    if proposals == [] then None else
    var last := proposals[|proposals| - 1];
    if last.quote == q && last.status == ProposalAccepted then Some(last.price) else
    LastAcceptedPrice(proposals[..|proposals| - 1], q)
  }

  ghost predicate NegotiationOk(quotes: seq<Quote>, proposals: seq<Proposal>) {
    && (forall p :: 0 <= p < |proposals| ==> proposals[p].quote < |quotes|)
    && (forall p, r :: 0 <= p < r < |proposals| && proposals[p].quote == proposals[r].quote ==>
          proposals[p].status != ProposalPending)
    && (forall q :: 0 <= q < |quotes| ==> quotes[q].negotiatedPrice == LastAcceptedPrice(proposals, q))
  }

  lemma {:induction false} LastAcceptedDependsOnAccepted(a: seq<Proposal>, b: seq<Proposal>, q: Id)
    requires |a| == |b|
    requires forall p :: 0 <= p < |a| && a[p].quote == q && a[p].status == ProposalAccepted ==> b[p] == a[p]
    requires forall p :: 0 <= p < |a| && b[p].quote == q && b[p].status == ProposalAccepted ==> b[p] == a[p]
    ensures LastAcceptedPrice(a, q) == LastAcceptedPrice(b, q)
  {
    if a != [] {
      LastAcceptedDependsOnAccepted(a[..|a| - 1], b[..|a| - 1], q);
    }
  }

  predicate IsAcceptedOn(row: Proposal, q: Id) {
    row.quote == q && row.status == ProposalAccepted
  }

  /** An accepted proposal of the quote with no accepted one after it. */
  predicate IsNewestAccepted(proposals: seq<Proposal>, p: Id, q: Id) {
    p < |proposals| && IsAcceptedOn(proposals[p], q)
    && forall r :: p < r < |proposals| ==> !IsAcceptedOn(proposals[r], q)
  }

  /** The last accepted price is the newest accepted proposal's, and absent exactly when none was accepted. */
  lemma {:induction false} LastAcceptedIsExact(proposals: seq<Proposal>, q: Id)
    ensures forall p: Id :: IsNewestAccepted(proposals, p, q) ==>
      LastAcceptedPrice(proposals, q) == Some(proposals[p].price)
    ensures LastAcceptedPrice(proposals, q).Some? <==> exists p: Id :: IsNewestAccepted(proposals, p, q)
    ensures LastAcceptedPrice(proposals, q).None? <==>
      forall p :: 0 <= p < |proposals| ==> !IsAcceptedOn(proposals[p], q)
  {
    if proposals != [] {
      var init, last := proposals[..|proposals| - 1], |proposals| - 1;
      LastAcceptedIsExact(init, q);
      if IsAcceptedOn(proposals[last], q) {
        assert IsNewestAccepted(proposals, last, q);
      } else {
        assert forall p: Id :: IsNewestAccepted(init, p, q) <==> IsNewestAccepted(proposals, p, q);
      }
    }
  }

  lemma PostKeepsNegotiation(d: Db, q: Id, role: Party, price: nat)
    requires NegotiationOk(d.quotes, d.proposals) && q < |d.quotes|
    ensures NegotiationOk(d.quotes, PostPriceTx(d, q, role, price).db.proposals)
  {
    var superseded := SupersedePending(d.proposals, q);
    var after := PostPriceTx(d, q, role, price).db.proposals;
    forall s | 0 <= s < |d.quotes|
      ensures d.quotes[s].negotiatedPrice == LastAcceptedPrice(after, s)
    {
      LastAcceptedDependsOnAccepted(d.proposals, superseded, s);
      assert after[..|after| - 1] == superseded;
    }
  }

  lemma ResolveKeepsNegotiation(d: Db, p: Id, status: ProposalStatus)
    requires NegotiationOk(d.quotes, d.proposals) && status != ProposalAccepted && status != ProposalPending
    ensures NegotiationOk(d.quotes, ResolveProposalIfPending(d, p, status).db.proposals)
  {
    var after := ResolveProposalIfPending(d, p, status).db.proposals;
    forall s | 0 <= s < |d.quotes|
      ensures d.quotes[s].negotiatedPrice == LastAcceptedPrice(after, s)
    {
      LastAcceptedDependsOnAccepted(d.proposals, after, s);
    }
  }

  lemma AcceptProposalKeepsNegotiation(d: Db, p: Id, q: Id, price: nat)
    requires NegotiationOk(d.quotes, d.proposals) && OfferCallOk(d, AcceptProposalCall(p, q, price))
    requires AcceptProposalTx(d, p, q, price).Committed?
    ensures var d' := AcceptProposalTx(d, p, q, price).db; NegotiationOk(d'.quotes, d'.proposals)
  {
    var d' := AcceptProposalTx(d, p, q, price).db;
    forall s | 0 <= s < |d'.quotes|
      ensures d'.quotes[s].negotiatedPrice == LastAcceptedPrice(d'.proposals, s)
    {
      if s == q {
        LastAcceptedIsExact(d'.proposals, q);
        assert IsNewestAccepted(d'.proposals, p, q);
      } else {
        LastAcceptedDependsOnAccepted(d.proposals, d'.proposals, s);
      }
    }
  }

  lemma CommitKeepsNegotiation(d: Db, call: Call)
    requires NegotiationOk(d.quotes, d.proposals)
    requires OfferCallOk(d, call) && CommitTx(d, call).Committed?
    ensures var d' := CommitTx(d, call).db; NegotiationOk(d'.quotes, d'.proposals)
  {
    match call
    case SubmitQuoteCall(_, _, _) => LastAcceptedIsExact(d.proposals, |d.quotes|);
    case PostPriceCall(q, role, price) => PostKeepsNegotiation(d, q, role, price);
    case AcceptProposalCall(p, q, price) => AcceptProposalKeepsNegotiation(d, p, q, price);
    case _ =>
  }

  lemma DirectKeepsNegotiation(d: Db, s: Statement)
    requires NegotiationOk(d.quotes, d.proposals) && DirectTx(d, s).Committed?
    ensures var d' := DirectTx(d, s).db; NegotiationOk(d'.quotes, d'.proposals)
  {
    match s
    case RejectProposal(p) => ResolveKeepsNegotiation(d, p, ProposalRejected);
    case _ =>
  }
}
