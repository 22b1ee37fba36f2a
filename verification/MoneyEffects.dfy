/**
 What the paying and cancelling transactions leave behind, row by row, with every amount given as the nearest
 whole share of the price: nothing here is stated through the functions that compute the rows.
 */
module MoneyEffects {
  import opened Prelude
  import opened Tables
  import opened Money
  import opened Writes
  import opened Protocol
  import opened Payments
  import opened Ledger
  import opened Effects

  /** The whole number nearest to so many percent of the amount, halves up. */
  ghost predicate IsShare(share: int, amount: int, percent: nat) {
    -50 < 100 * share - amount * percent <= 50
  }

  // ---- The rows of one event --------------------------------------------------

  ghost predicate IsRow(row: Entry, kind: EntryKind, amount: int, e: Id, professional: Id, percent: nat) {
    row == Entry(kind, amount, Some(e), Some(professional), Some(percent))
  }

  /** A charge of the price, the platform's share of it, and what is left for the professional. */
  ghost predicate IsPaymentGroup(rows: seq<Entry>, e: Id, professional: Id, price: nat, percent: nat) {
    |rows| == 3
    && IsShare(rows[1].amount, price, percent)
    && IsRow(rows[0], CustomerCharge, 0 - price, e, professional, percent)
    && IsRow(rows[1], PlatformCommission, rows[1].amount, e, professional, percent)
    && IsRow(rows[2], ProfessionalNetCredit, price - rows[1].amount, e, professional, percent)
  }

  /** A fee that is a share of the price, the platform's share of the fee, and what is left for the professional. */
  ghost predicate IsFeeGroup(rows: seq<Entry>, e: Id, professional: Id, price: nat, percent: nat) {
    |rows| == 3
    && IsShare(-rows[0].amount, price, percent)
    && IsShare(rows[1].amount, -rows[0].amount, percent)
    && IsRow(rows[0], CustomerCancellationFee, rows[0].amount, e, professional, percent)
    && IsRow(rows[1], PlatformCommission, rows[1].amount, e, professional, percent)
    && IsRow(rows[2], ProfessionalNetCredit, -rows[0].amount - rows[1].amount, e, professional, percent)
  }

  ghost predicate IsDebtRow(rows: seq<Entry>, e: Id, professional: Id, price: nat, percent: nat) {
    |rows| == 1
    && IsShare(rows[0].amount, price, percent)
    && IsRow(rows[0], CashCommissionDebt, rows[0].amount, e, professional, percent)
  }

  /** Each kind of event is recorded as its own group of rows. */
  lemma RowsOfAnEvent(ev: Event)
    ensures match ev
            case CancellationCharge(e, professional, price, percent) =>
              IsFeeGroup(EventRows(ev), e, professional, price, percent)
            case FullRefund(e, price) => EventRows(ev) == [Entry(Refund, price, Some(e), None, None)]
            case CashDebt(e, professional, price, percent) => IsDebtRow(EventRows(ev), e, professional, price, percent)
            case DigitalPayment(e, professional, price, percent) =>
              IsPaymentGroup(EventRows(ev), e, professional, price, percent)
  {
    match ev
    case CancellationCharge(_, _, price, percent) =>
      RoundPercentIsNearest(price, percent, 0);
      RoundPercentIsNearest(RoundPercent(price, percent), percent, 0);
    case FullRefund(_, _) =>
    case CashDebt(_, _, price, percent) => RoundPercentIsNearest(price, percent, 0);
    case DigitalPayment(_, _, price, percent) => RoundPercentIsNearest(price, percent, 0);
  }

  /** What an event adds to its professional's balance, from its price and percentage alone. */
  ghost predicate IsNet(ev: Event, net: int) {
    match ev
    case CancellationCharge(_, _, price, percent) =>
      exists fee: int :: IsShare(fee, price, percent) && IsShare(fee - net, fee, percent)
    case FullRefund(_, _) => net == 0
    case CashDebt(_, _, price, percent) => IsShare(-net, price, percent)
    case DigitalPayment(_, _, price, percent) => IsShare(price - net, price, percent)
  }

  lemma EventNetIsTheNet(ev: Event)
    ensures IsNet(ev, EventNet(ev))
  {
    match ev
    case CancellationCharge(_, _, price, percent) =>
      RoundPercentIsNearest(price, percent, 0);
      var fee := RoundPercent(price, percent);
      RoundPercentIsNearest(fee, percent, 0);
      assert IsShare(fee, price, percent) && IsShare(fee - EventNet(ev), fee, percent);
    case FullRefund(_, _) =>
    case CashDebt(_, _, price, percent) => RoundPercentIsNearest(price, percent, 0);
    case DigitalPayment(_, _, price, percent) => RoundPercentIsNearest(price, percent, 0);
  }

  // ---- Cancelling -----------------------------------------------------------------

  ghost predicate CancelledWith(d: Db, d': Db, e: Id, rows: seq<Entry>) {
    && d' == d.(engagements := d'.engagements, ledger := d.ledger + rows)
    && OnlyRow(d.engagements, d'.engagements, e)
    && d'.engagements[e] == d.engagements[e].(status := Cancelled, cancelledAt := Some(d.now))
  }

  /** Free unless the status read was in progress; then the whole charge, and without a commission setting nothing. */
  lemma CustomerCancellationEffect(d: Db, e: Id, readStatus: EngagementStatus, price: nat)
    ensures var tx := CommitTx(d, CancelByCustomerCall(e, readStatus, price));
      && (tx.Committed? <==> IsCancellable(d, e) && (readStatus == InProgress ==> d.commissionPercent.Some?))
      && (tx.Committed? && readStatus != InProgress ==> CancelledWith(d, tx.db, e, []) && tx.events == [])
      && (tx.Committed? && readStatus == InProgress ==>
            var percent := d.commissionPercent.value;
            var professional := d.engagements[e].professional;
            && tx.events == [CancellationCharge(e, professional, price, percent)]
            && CancelledWith(d, tx.db, e, EventRows(tx.events[0]))
            && IsFeeGroup(EventRows(tx.events[0]), e, professional, price, percent))
  {
    var tx := CommitTx(d, CancelByCustomerCall(e, readStatus, price));
    if tx.Committed? {
      if readStatus == InProgress {
        RowsOfAnEvent(tx.events[0]);
      } else {
        assert d.ledger + [] == d.ledger;
      }
    }
  }

  lemma ProfessionalCancellationEffect(d: Db, e: Id, price: nat)
    ensures var tx := CommitTx(d, CancelByProfessionalCall(e, price));
      && (tx.Committed? <==> IsCancellable(d, e))
      && (tx.Committed? ==>
            tx.events == [FullRefund(e, price)]
            && CancelledWith(d, tx.db, e, [Entry(Refund, price, Some(e), None, None)]))
  {
  }

  // ---- Paying by card -----------------------------------------------------------------

  ghost predicate HoldsSlot(a: Attempt, e: Id) {
    a.engagement == e && (a.status == AttemptPending || a.status == Approved)
  }

  ghost predicate SlotFree(attempts: seq<Attempt>, e: Id) {
    forall a :: 0 <= a < |attempts| ==> !HoldsSlot(attempts[a], e)
  }

  lemma SlotFreeExactly(attempts: seq<Attempt>, e: Id)
    ensures SlotFree(attempts, e) <==> ActiveAttempt(attempts, e).None?
  {
    if ActiveAttempt(attempts, e).Some? {
      assert HoldsSlot(attempts[ActiveAttempt(attempts, e).value], e);
    }
  }

  /** A card payment opens a pending attempt for the price, unless one holds the engagement's slot. */
  lemma PayDigitallyEffect(d: Db, e: Id, price: nat)
    ensures var tx := CommitTx(d, PayDigitallyCall(e, price));
      && (tx.Committed? <==> e < |d.engagements| && SlotFree(d.attempts, e))
      && (tx.Committed? ==>
            tx == Committed(
              d.(attempts := d.attempts + [Attempt(e, MercadoPago, AttemptPending, price, None, None)]), []))
  {
    SlotFreeExactly(d.attempts, e);
  }

  /** The method is written only where none is set. */
  ghost predicate MethodSet(d: Db, d': Db, e: Id, payMethod: PaymentMethod) {
    && OnlyRow(d.engagements, d'.engagements, e)
    && d'.engagements[e] ==
         if d.engagements[e].paymentMethod == None then d.engagements[e].(paymentMethod := Some(payMethod))
         else d.engagements[e]
  }

  ghost predicate AttemptOnly(d: Db, d': Db, a: Id, row: Attempt) {
    OnlyRow(d.attempts, d'.attempts, a) && d'.attempts[a] == row
  }

  lemma RejectionEffect(d: Db, a: Id)
    ensures var tx := DirectTx(d, ApplyPaymentResult(a, false));
      && (tx.Committed? <==> a < |d.attempts| && d.attempts[a].status == AttemptPending)
      && (tx.Committed? ==>
            tx.events == [] && tx.db == d.(attempts := tx.db.attempts)
            && AttemptOnly(d, tx.db, a, d.attempts[a].(status := AttemptRejected)))
  {
  }

  /** An approval resolves the one attempt and appends one whole payment group for the attempt's amount. */
  lemma ApprovalEffect(d: Db, a: Id)
    ensures var tx := DirectTx(d, ApplyPaymentResult(a, true));
      && (tx.Committed? <==>
            a < |d.attempts| && d.attempts[a].status == AttemptPending && d.attempts[a].engagement < |d.engagements|
            && d.commissionPercent.Some?)
      && (tx.Committed? ==>
            var e, amount, percent := d.attempts[a].engagement, d.attempts[a].amount, d.commissionPercent.value;
            var professional := d.engagements[e].professional;
            && tx.events == [DigitalPayment(e, professional, amount, percent)]
            && tx.db == d.(attempts := tx.db.attempts, engagements := tx.db.engagements,
                           ledger := d.ledger + EventRows(tx.events[0]))
            && IsPaymentGroup(EventRows(tx.events[0]), e, professional, amount, percent)
            && AttemptOnly(d, tx.db, a, d.attempts[a].(status := Approved))
            && MethodSet(d, tx.db, e, MercadoPago))
  {
    var tx := DirectTx(d, ApplyPaymentResult(a, true));
    if tx.Committed? {
      RowsOfAnEvent(tx.events[0]);
    }
  }

  // ---- Paying in cash -----------------------------------------------------------------

  /** The first confirmation opens the engagement's cash attempt, stamped for its role. */
  lemma FirstCashEffect(d: Db, e: Id, role: Party, price: nat)
    requires e < |d.engagements| && SlotFree(d.attempts, e)
    ensures var tx := CommitTx(d, ConfirmCashCall(e, role, price));
      && tx.Committed? && tx.events == []
      && tx.db == d.(engagements := tx.db.engagements, attempts := tx.db.attempts)
      && MethodSet(d, tx.db, e, Cash)
      && tx.db.attempts == d.attempts + [Attempt(e, Cash, AttemptPending, price,
           if role == CustomerParty then Some(d.now) else None,
           if role == ProfessionalParty then Some(d.now) else None)]
  {
    SlotFreeExactly(d.attempts, e);
  }

  /** The attempt with the role's stamp renewed. */
  ghost function Stamped(a: Attempt, role: Party, now: nat): Attempt {
    a.(customerConfirmedAt := if role == CustomerParty then Some(now) else a.customerConfirmedAt,
       professionalConfirmedAt := if role == ProfessionalParty then Some(now) else a.professionalConfirmedAt)
  }

  /** A later confirmation stamps the attempt; the one that completes it approves it and records the commission owed. */
  lemma LaterCashEffect(d: Db, e: Id, role: Party, price: nat, a: Id)
    requires OneActive(d.attempts) && e < |d.engagements| && a < |d.attempts| && HoldsSlot(d.attempts[a], e)
    ensures var tx := CommitTx(d, ConfirmCashCall(e, role, price));
      var row := Stamped(d.attempts[a], role, d.now);
      var completes :=
        row.customerConfirmedAt.Some? && row.professionalConfirmedAt.Some? && row.status == AttemptPending;
      && (tx.Committed? <==> d.attempts[a].payMethod == Cash && (completes ==> d.commissionPercent.Some?))
      && (tx.Committed? ==> MethodSet(d, tx.db, e, Cash))
      && (tx.Committed? && !completes ==>
            tx.events == [] && AttemptOnly(d, tx.db, a, row)
            && tx.db == d.(engagements := tx.db.engagements, attempts := tx.db.attempts))
      && (tx.Committed? && completes ==>
            var professional, percent := d.engagements[e].professional, d.commissionPercent.value;
            && tx.events == [CashDebt(e, professional, price, percent)]
            && AttemptOnly(d, tx.db, a, row.(status := Approved))
            && tx.db == d.(engagements := tx.db.engagements, attempts := tx.db.attempts,
                           ledger := d.ledger + EventRows(tx.events[0]))
            && IsDebtRow(EventRows(tx.events[0]), e, professional, price, percent))
  {
    OneHolder(d.attempts, a);
    var tx := CommitTx(d, ConfirmCashCall(e, role, price));
    if tx.Committed? && tx.events != [] {
      RowsOfAnEvent(tx.events[0]);
    }
  }

  lemma OneHolder(attempts: seq<Attempt>, a: Id)
    requires OneActive(attempts) && a < |attempts| && HoldsSlot(attempts[a], attempts[a].engagement)
    ensures ActiveAttempt(attempts, attempts[a].engagement) == Some(a)
  {
  }
}
