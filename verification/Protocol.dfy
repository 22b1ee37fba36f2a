/**
 The marketplace as a state machine. A caller first reads (Begin), which leaves an open
 call holding what was read, and later commits its transaction against whatever the tables
 have become. Any number of calls are open at once and interleave freely.
 */
module Protocol {
  import opened Prelude
  import opened Tables
  import opened Writes

  /** What a caller carries from its reads into its transaction. */
  datatype Call =
    | Closed
    | SubmitQuoteCall(request: Id, professional: Id, price: nat)
    | AcceptQuoteCall(request: Id, quote: Id, customer: Id, professional: Id)
    | PostPriceCall(quote: Id, role: Party, price: nat)
    | AcceptProposalCall(proposal: Id, quote: Id, price: nat)
    | StartWorkCall(engagement: Id)
    | CancelByCustomerCall(engagement: Id, readStatus: EngagementStatus, price: nat)
    | CancelByProfessionalCall(engagement: Id, price: nat)
    | ConfirmCashCall(engagement: Id, role: Party, price: nat)
    | PayDigitallyCall(engagement: Id, price: nat)

  datatype Intent =
    | SubmitQuote(request: Id, professional: Id, price: nat)
    | AcceptQuote(customer: Id, quote: Id)
    | PostPrice(quote: Id, role: Party, price: nat)
    | AcceptProposal(proposal: Id, role: Party)
    | StartWork(professional: Id, engagement: Id)
    | CancelByCustomer(customer: Id, engagement: Id)
    | CancelByProfessional(professional: Id, engagement: Id)
    | ConfirmCash(engagement: Id, role: Party)
    | PayDigitally(engagement: Id)

  /** Single guarded statements: what their caller read beforehand does not reach the write. */
  datatype Statement =
    | PublishRequest(customer: Id)
    | CancelRequest(request: Id)
    | WithdrawQuote(quote: Id)
    | RejectQuote(quote: Id)
    | RejectProposal(proposal: Id)
    | ProposeAppointment(engagement: Id, startsAt: int, endsAt: int)
    | ConfirmAppointment(appointment: Id)
    | CancelAppointment(appointment: Id)
    | FinishWork(engagement: Id)
    | ConfirmCompletion(engagement: Id)
    | ApplyPaymentResult(attempt: Id, approved: bool)
    | SetCommissionPercent(percent: Option<nat>)
    | Tick(elapsed: nat)

  datatype Action =
    | Begin(intent: Intent)
    | RereadPrice(call: Id)
    | Commit(call: Id)
    | Direct(statement: Statement)

  datatype State = State(db: Db, calls: seq<Call>, events: seq<Event>)

  function InitialDb(): Db {
    Db([], [], [], [], [], [], [], None, 0)
  }

  function Initial(): State {
    State(InitialDb(), [], [])
  }

  /** The engagement's price today: what a billing read returns. */
  function PriceOf(d: Db, e: Id): nat
    requires e < |d.engagements|
  {
    var q := d.engagements[e].quote;
    if q < |d.quotes| then AgreedPrice(d.quotes[q]) else 0
  }

  predicate IsPayable(e: Engagement) {
    e.status == InProgress || e.status == PendingConfirmation || e.status == Completed
  }

  /** The checks before the transaction. None is the error reported to the caller. */
  function OpenCall(d: Db, intent: Intent): Option<Call> {
    match intent
    case SubmitQuote(r, professional, price) =>
      if r < |d.requests| && d.requests[r].status == Open && price > 0 then
        Some(SubmitQuoteCall(r, professional, price))
      else None
    case AcceptQuote(customer, q) =>
      if q >= |d.quotes| then None else
      var quote := d.quotes[q];
      var r := quote.request;
      if r < |d.requests| && d.requests[r].customer == customer && d.requests[r].status == Open
         && quote.status == Sent && !HasPendingProposal(d.proposals, q)
      then Some(AcceptQuoteCall(r, q, customer, quote.professional))
      else None
    case PostPrice(q, role, price) =>
      if q < |d.quotes| && d.quotes[q].status == Sent then Some(PostPriceCall(q, role, price)) else None
    case AcceptProposal(p, role) =>
      if p >= |d.proposals| then None else
      var proposal := d.proposals[p];
      var q := proposal.quote;
      if q < |d.quotes| && role != proposal.proposedBy && d.quotes[q].status == Sent
         && proposal.status == ProposalPending
      then Some(AcceptProposalCall(p, q, proposal.price))
      else None
    case StartWork(professional, e) =>
      if e < |d.engagements| && d.engagements[e].professional == professional
         && d.engagements[e].status == Accepted && CountConfirmed(d.appointments, e) >= 1
      then Some(StartWorkCall(e))
      else None
    case CancelByCustomer(customer, e) =>
      if e < |d.engagements| && d.engagements[e].customer == customer
         && (d.engagements[e].status == Accepted || d.engagements[e].status == InProgress)
      then Some(CancelByCustomerCall(e, d.engagements[e].status, PriceOf(d, e)))
      else None
    case CancelByProfessional(professional, e) =>
      if e < |d.engagements| && d.engagements[e].professional == professional
         && (d.engagements[e].status == Accepted || d.engagements[e].status == InProgress)
      then Some(CancelByProfessionalCall(e, PriceOf(d, e)))
      else None
    case ConfirmCash(e, role) =>
      if e < |d.engagements| && IsPayable(d.engagements[e])
         && d.engagements[e].paymentMethod != Some(MercadoPago)
      then Some(ConfirmCashCall(e, role, PriceOf(d, e)))
      else None
    case PayDigitally(e) =>
      if e < |d.engagements| && IsPayable(d.engagements[e])
         && d.engagements[e].paymentMethod != Some(Cash)
      then Some(PayDigitallyCall(e, PriceOf(d, e)))
      else None
  }

  /** Paying reads the engagement and then, separately, its price: the second read comes later. */
  function Reread(d: Db, call: Call): Call {
    match call
    case ConfirmCashCall(e, role, _) => if e < |d.engagements| then ConfirmCashCall(e, role, PriceOf(d, e)) else call
    case PayDigitallyCall(e, _) => if e < |d.engagements| then PayDigitallyCall(e, PriceOf(d, e)) else call
    case _ => call
  }

  function CommitTx(d: Db, call: Call): Tx {
    match call
    case Closed => RolledBack
    case SubmitQuoteCall(r, professional, price) =>
      Committed(d.(quotes := d.quotes + [Quote(r, professional, price, None, Sent)]), [])
    case AcceptQuoteCall(r, q, customer, professional) => AcceptQuoteTx(d, r, q, customer, professional)
    case PostPriceCall(q, role, price) => PostPriceTx(d, q, role, price)
    case AcceptProposalCall(p, q, price) => AcceptProposalTx(d, p, q, price)
    case StartWorkCall(e) =>
      var started := StartWorkIfAccepted(d, e);
      if started.count != 1 then RolledBack else Committed(started.db, [])
    case CancelByCustomerCall(e, readStatus, price) => CancelByCustomerTx(d, e, readStatus, price)
    case CancelByProfessionalCall(e, price) => CancelByProfessionalTx(d, e, price)
    case ConfirmCashCall(e, role, price) => ConfirmCashTx(d, e, role, price)
    case PayDigitallyCall(e, price) => CreatePendingAttemptTx(d, e, price)
  }

  function Unlogged(w: Write): Tx {
    Committed(w.db, [])
  }

  function DirectTx(d: Db, s: Statement): Tx {
    match s
    case PublishRequest(customer) =>
      Committed(d.(requests := d.requests + [Request(customer, Open, None)]), [])
    case CancelRequest(r) => Unlogged(CancelRequestIfOpen(d, r))
    case WithdrawQuote(q) => Unlogged(MoveQuoteIfSent(d, q, Withdrawn))
    case RejectQuote(q) => Unlogged(MoveQuoteIfSent(d, q, QuoteRejected))
    case RejectProposal(p) => Unlogged(ResolveProposalIfPending(d, p, ProposalRejected))
    case ProposeAppointment(e, startsAt, endsAt) =>
      if e < |d.engagements| && startsAt < endsAt then
        Committed(
          d.(appointments := d.appointments +
             [Appointment(e, d.engagements[e].professional, startsAt, endsAt, AppointmentPending, None, None)]),
          [])
      else RolledBack
    case ConfirmAppointment(a) =>
      (match ConfirmIfPending(d, a) case None => RolledBack case Some(w) => Unlogged(w))
    case CancelAppointment(a) => Unlogged(CancelAppointmentIfActive(d, a))
    case FinishWork(e) => Unlogged(FinishWorkIfInProgress(d, e))
    case ConfirmCompletion(e) => Unlogged(CompleteIfPendingConfirmation(d, e))
    case ApplyPaymentResult(a, approved) => ApplyPaymentTx(d, a, approved)
    case SetCommissionPercent(percent) => Committed(d.(commissionPercent := percent), [])
    case Tick(elapsed) => Committed(d.(now := d.now + elapsed), [])
  }

  /** The transaction an action runs; a read runs none. */
  function ActionTx(s: State, a: Action): Tx {
    match a
    case Begin(_) => RolledBack
    case RereadPrice(_) => RolledBack
    case Commit(c) => if c < |s.calls| then CommitTx(s.db, s.calls[c]) else RolledBack
    case Direct(statement) => DirectTx(s.db, statement)
  }

  function NextCalls(s: State, a: Action): seq<Call> {
    match a
    case Begin(intent) =>
      (match OpenCall(s.db, intent) case None => s.calls case Some(call) => s.calls + [call])
    case RereadPrice(c) => if c < |s.calls| then s.calls[c := Reread(s.db, s.calls[c])] else s.calls
    case Commit(c) => if c < |s.calls| then s.calls[c := Closed] else s.calls
    case Direct(_) => s.calls
  }

  function Step(s: State, a: Action): State {
    match ActionTx(s, a)
    case RolledBack => State(s.db, NextCalls(s, a), s.events)
    case Committed(d, events) => State(d, NextCalls(s, a), s.events + events)
  }

  function Run(s: State, actions: seq<Action>): State
    decreases |actions|
  {
    if actions == [] then s else Step(Run(s, actions[..|actions| - 1]), actions[|actions| - 1])
  }

  /** Every table of the system in every interleaving is one of these. */
  ghost predicate Reachable(s: State) {
    exists actions :: Run(Initial(), actions) == s
  }
}
