/**
 The marketplace tables. A row's id is its position in its append-only table: no call or statement
 of the protocol deletes a row. Deleting an account does; see `Ledger` for what it leaves behind.
 */
module Tables {
  import opened Prelude

  type Id = nat

  datatype RequestStatus = Open | Engaged | RequestCancelled
  datatype Request = Request(customer: Id, status: RequestStatus, acceptedQuote: Option<Id>)

  datatype QuoteStatus = Sent | QuoteAccepted | QuoteRejected | Withdrawn
  datatype Quote = Quote(
    request: Id, professional: Id, price: nat, negotiatedPrice: Option<nat>, status: QuoteStatus)

  datatype Party = CustomerParty | ProfessionalParty

  datatype ProposalStatus = ProposalPending | ProposalAccepted | ProposalRejected | Superseded
  datatype Proposal = Proposal(quote: Id, proposedBy: Party, price: nat, status: ProposalStatus)

  datatype EngagementStatus = Accepted | InProgress | PendingConfirmation | Completed | Cancelled
  datatype PaymentMethod = Cash | MercadoPago
  datatype Engagement = Engagement(
    request: Id, quote: Id, customer: Id, professional: Id, status: EngagementStatus,
    startedAt: Option<nat>, finishedAt: Option<nat>, completedAt: Option<nat>,
    cancelledAt: Option<nat>, paymentMethod: Option<PaymentMethod>)

  datatype AppointmentStatus = AppointmentPending | Confirmed | AppointmentCancelled
  datatype Appointment = Appointment(
    engagement: Id, professional: Id, startsAt: int, endsAt: int, status: AppointmentStatus,
    confirmedAt: Option<nat>, cancelledAt: Option<nat>)

  datatype AttemptStatus = AttemptPending | Approved | AttemptRejected
  datatype Attempt = Attempt(
    engagement: Id, payMethod: PaymentMethod, status: AttemptStatus, amount: nat,
    customerConfirmedAt: Option<nat>, professionalConfirmedAt: Option<nat>)

  datatype EntryKind =
    | CustomerCancellationFee
    | PlatformCommission
    | ProfessionalNetCredit
    | Refund
    | CashCommissionDebt
    | CustomerCharge
  datatype Entry = Entry(
    kind: EntryKind, amount: int, engagement: Option<Id>, professional: Option<Id>, percent: Option<nat>)

  /** Everything a statement can read or write, with the commission setting and the clock. */
  datatype Db = Db(
    requests: seq<Request>, quotes: seq<Quote>, proposals: seq<Proposal>,
    engagements: seq<Engagement>, appointments: seq<Appointment>, attempts: seq<Attempt>,
    ledger: seq<Entry>, commissionPercent: Option<nat>, now: nat)

  /** The price an accepted quote stands for: the negotiated one when there is one. */
  function AgreedPrice(q: Quote): nat {
    q.negotiatedPrice.GetOr(q.price)
  }

  predicate IsActive(a: Attempt) {
    a.status == AttemptPending || a.status == Approved
  }

  /** Two half-open slots share a moment. */
  predicate Overlaps(a: Appointment, b: Appointment) {
    a.startsAt < b.endsAt && b.startsAt < a.endsAt
  }

  predicate Clashes(a: Appointment, b: Appointment) {
    a.professional == b.professional && b.status == Confirmed && Overlaps(a, b)
  }
}
