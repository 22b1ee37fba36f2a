/**
 Cash double confirmation. It holds exactly as long as no provider answer is applied to a cash
 attempt; the correlation by engagement can do that, because it does not look at the method.
 */
module Cash {
  import opened Prelude
  import opened Tables
  import opened Writes
  import opened Protocol
  import opened Lifecycle
  import opened Payments
  import opened Safety

  ghost predicate HasCash(attempts: seq<Attempt>, e: Id) {
    exists a :: 0 <= a < |attempts| && attempts[a].engagement == e && attempts[a].payMethod == PaymentMethod.Cash
  }

  ghost predicate HasApprovedDigital(attempts: seq<Attempt>, e: Id) {
    exists a :: 0 <= a < |attempts| && attempts[a].engagement == e
      && attempts[a].payMethod == MercadoPago && attempts[a].status == Approved
  }

  /** A cash attempt is approved by its two confirmations and by nothing else; it is never rejected. */
  ghost predicate CashAttemptOk(a: Attempt) {
    if a.payMethod == PaymentMethod.Cash then
      a.status != AttemptRejected && (a.status == Approved <==> BothConfirmed(a))
      && (a.customerConfirmedAt.Some? || a.professionalConfirmedAt.Some?)
    else
      a.customerConfirmedAt.None? && a.professionalConfirmedAt.None?
  }

  /** The engagement's method is the method of the attempt that holds or took its slot. */
  ghost predicate MethodOk(row: Engagement, e: Id, attempts: seq<Attempt>) {
    && (row.paymentMethod == Some(PaymentMethod.Cash) <==> HasCash(attempts, e))
    && (row.paymentMethod == Some(MercadoPago) <==> HasApprovedDigital(attempts, e))
  }

  ghost predicate PaidAsRecorded(ev: Event, engagements: seq<Engagement>) {
    ev.engagement < |engagements|
    && (ev.CashDebt? ==> engagements[ev.engagement].paymentMethod == Some(PaymentMethod.Cash))
    && (ev.DigitalPayment? ==> engagements[ev.engagement].paymentMethod == Some(MercadoPago))
  }

  ghost predicate CashOk(d: Db, events: seq<Event>) {
    && (forall a :: 0 <= a < |d.attempts| ==> CashAttemptOk(d.attempts[a]))
    && (forall e :: 0 <= e < |d.engagements| ==> MethodOk(d.engagements[e], e, d.attempts))
    && (forall i :: 0 <= i < |events| ==> PaidAsRecorded(events[i], d.engagements))
  }

  /** The provider's answer lands on a pending cash attempt, and goes through. */
  predicate AdoptsCash(d: Db, s: Statement) {
    && s.ApplyPaymentResult? && s.attempt < |d.attempts|
    && d.attempts[s.attempt].payMethod == PaymentMethod.Cash && d.attempts[s.attempt].status == AttemptPending
    && (s.approved ==> d.commissionPercent.Some? && d.attempts[s.attempt].engagement < |d.engagements|)
  }

  predicate StepAdoptsCash(s: State, a: Action) {
    a.Direct? && AdoptsCash(s.db, a.statement)
  }

  lemma MethodCases(m: Option<PaymentMethod>)
    ensures m == None || m == Some(PaymentMethod.Cash) || m == Some(MercadoPago)
  {
    assert m.Some? ==> m.value == PaymentMethod.Cash || m.value == MercadoPago;
  }

  lemma NoMethodKnown(row: Engagement, e: Id, attempts: seq<Attempt>)
    requires MethodOk(row, e, attempts) && !HasCash(attempts, e) && !HasApprovedDigital(attempts, e)
    ensures row.paymentMethod == None
  {
    MethodCases(row.paymentMethod);
  }

  lemma OneAttemptChanges(d: Db, events: seq<Event>, a: Id, row: Attempt)
    requires CashOk(d, events) && a < |d.attempts| && CashAttemptOk(row)
    requires row.engagement == d.attempts[a].engagement && row.payMethod == d.attempts[a].payMethod
    requires row.payMethod == MercadoPago ==> (row.status == Approved <==> d.attempts[a].status == Approved)
    ensures CashOk(d.(attempts := d.attempts[a := row]), events)
  {
    var after := d.attempts[a := row];
    forall e | 0 <= e < |d.engagements|
      ensures MethodOk(d.engagements[e], e, after)
    {
      assert MethodOk(d.engagements[e], e, d.attempts);
      SameMethods(d.attempts, after, e);
      SameMethods(after, d.attempts, e);
    }
  }

  lemma SameMethods(before: seq<Attempt>, after: seq<Attempt>, e: Id)
    requires |before| <= |after|
    requires forall a :: 0 <= a < |before| ==>
      after[a].engagement == before[a].engagement && after[a].payMethod == before[a].payMethod
      && (before[a].payMethod == MercadoPago && before[a].status == Approved ==> after[a].status == Approved)
    ensures HasCash(before, e) ==> HasCash(after, e)
    ensures HasApprovedDigital(before, e) ==> HasApprovedDigital(after, e)
  {
  }

  /** A row that is neither cash nor an approved digital payment decides no method. */
  lemma PendingDigitalDecidesNothing(attempts: seq<Attempt>, row: Attempt, e: Id)
    requires row.payMethod == MercadoPago && row.status != Approved
    ensures HasCash(attempts + [row], e) <==> HasCash(attempts, e)
    ensures HasApprovedDigital(attempts + [row], e) <==> HasApprovedDigital(attempts, e)
  {
    SameMethods(attempts, attempts + [row], e);
    if HasCash(attempts + [row], e) {
      var a :| 0 <= a < |attempts + [row]| && (attempts + [row])[a].engagement == e && (attempts + [row])[a].payMethod == PaymentMethod.Cash;
      assert attempts[a].payMethod == PaymentMethod.Cash;
    }
    if HasApprovedDigital(attempts + [row], e) {
      var a :| 0 <= a < |attempts + [row]| && (attempts + [row])[a].engagement == e
        && (attempts + [row])[a].payMethod == MercadoPago && (attempts + [row])[a].status == Approved;
      assert attempts[a].status == Approved;
    }
  }

  /** An engagement whose active attempt is digital, or that has none, has never been confirmed in cash. */
  lemma NoCashWithoutActiveCash(d: Db, events: seq<Event>, e: Id)
    requires CashOk(d, events) && OneActive(d.attempts) && e < |d.engagements|
    requires match ActiveAttempt(d.attempts, e) case None => true case Some(a) => d.attempts[a].payMethod == MercadoPago
    ensures !HasCash(d.attempts, e)
    ensures d.engagements[e].paymentMethod != Some(PaymentMethod.Cash)
  {
  }

  /** The first confirmation of a free slot: a cash attempt appears and the method becomes CASH. */
  lemma FirstConfirmationKeepsCash(d: Db, events: seq<Event>, e: Id, row: Attempt)
    requires CashOk(d, events) && OneActive(d.attempts) && e < |d.engagements|
    requires ActiveAttempt(d.attempts, e).None?
    requires row.engagement == e && row.payMethod == PaymentMethod.Cash && CashAttemptOk(row)
    ensures d.engagements[e].paymentMethod == None
    ensures CashOk(SetPaymentMethodIfUnset(d, e, PaymentMethod.Cash).db.(attempts := d.attempts + [row]), events)
  {
    NoCashWithoutActiveCash(d, events, e);
    NoMethodKnown(d.engagements[e], e, d.attempts);
    var d' := SetPaymentMethodIfUnset(d, e, PaymentMethod.Cash).db.(attempts := d.attempts + [row]);
    assert d'.attempts[|d.attempts|].engagement == e && d'.attempts[|d.attempts|].payMethod == PaymentMethod.Cash;
    assert HasCash(d'.attempts, e);
    forall f | 0 <= f < |d'.engagements|
      ensures MethodOk(d'.engagements[f], f, d'.attempts)
    {
      assert MethodOk(d.engagements[f], f, d.attempts);
      SameMethods(d.attempts, d'.attempts, f);
      if HasCash(d'.attempts, f) && f != e {
        var a :| 0 <= a < |d'.attempts| && d'.attempts[a].engagement == f && d'.attempts[a].payMethod == PaymentMethod.Cash;
        assert d.attempts[a].payMethod == PaymentMethod.Cash;
      }
      if HasApprovedDigital(d'.attempts, f) {
        var a :| 0 <= a < |d'.attempts| && d'.attempts[a].engagement == f
          && d'.attempts[a].payMethod == MercadoPago && d'.attempts[a].status == Approved;
        assert d.attempts[a].status == Approved;
      }
    }
    forall i | 0 <= i < |events|
      ensures PaidAsRecorded(events[i], d'.engagements)
    {
      assert PaidAsRecorded(events[i], d.engagements);
    }
  }

  lemma ConfirmCashKeepsCash(d: Db, events: seq<Event>, e: Id, role: Party, price: nat)
    requires CashOk(d, events) && OneActive(d.attempts) && ConfirmCashTx(d, e, role, price).Committed?
    ensures var tx := ConfirmCashTx(d, e, role, price); CashOk(tx.db, events + tx.events)
  {
    var tx := ConfirmCashTx(d, e, role, price);
    assert events + [] == events;
    match ActiveAttempt(d.attempts, e)
    case None =>
      FirstConfirmationKeepsCash(d, events, e,
        Stamp(Attempt(e, PaymentMethod.Cash, AttemptPending, price, None, None), role, d.now));
    case Some(a) =>
      assert CashAttemptOk(d.attempts[a]) && MethodOk(d.engagements[e], e, d.attempts);
      assert HasCash(d.attempts, e);
      var row := tx.db.attempts[a];
      assert tx.db.attempts == d.attempts[a := row];
      OneAttemptChanges(d, events, a, row);
  }

  /** An approval of a digital attempt finds the method still unset: the "already set" warning never fires. */
  lemma ApprovalFindsMethodUnset(d: Db, events: seq<Event>, a: Id)
    requires CashOk(d, events) && AttemptsOk(d.attempts, d.engagements)
    requires a < |d.attempts| && d.attempts[a].status == AttemptPending && d.attempts[a].payMethod == MercadoPago
    ensures d.engagements[d.attempts[a].engagement].paymentMethod == None
  {
    var e := d.attempts[a].engagement;
    assert MethodOk(d.engagements[e], e, d.attempts);
    forall b | 0 <= b < |d.attempts| && d.attempts[b].engagement == e
      ensures d.attempts[b].payMethod == MercadoPago && d.attempts[b].status != Approved
    {
      assert CashAttemptOk(d.attempts[b]);
      assert b < a ==> !(IsActive(d.attempts[b]) && IsActive(d.attempts[a]));
      assert a < b ==> !(IsActive(d.attempts[a]) && IsActive(d.attempts[b]));
    }
    NoMethodKnown(d.engagements[e], e, d.attempts);
  }

  lemma ApplyPaymentKeepsCash(d: Db, events: seq<Event>, a: Id, approved: bool)
    requires CashOk(d, events) && AttemptsOk(d.attempts, d.engagements)
    requires ApplyPaymentTx(d, a, approved).Committed? && d.attempts[a].payMethod == MercadoPago
    ensures var tx := ApplyPaymentTx(d, a, approved); CashOk(tx.db, events + tx.events)
  {
    var tx := ApplyPaymentTx(d, a, approved);
    assert CashAttemptOk(d.attempts[a]);
    if !approved {
      OneAttemptChanges(d, events, a, tx.db.attempts[a]);
      assert events + [] == events;
    } else {
      ApprovalFindsMethodUnset(d, events, a);
      var paid := d.attempts[a].engagement;
      assert tx.db.attempts[a].status == Approved;
      forall e | 0 <= e < |tx.db.engagements|
        ensures MethodOk(tx.db.engagements[e], e, tx.db.attempts)
      {
        assert MethodOk(d.engagements[e], e, d.attempts);
        SameMethods(d.attempts, tx.db.attempts, e);
        if HasCash(tx.db.attempts, e) {
          var b :| 0 <= b < |tx.db.attempts| && tx.db.attempts[b].engagement == e && tx.db.attempts[b].payMethod == PaymentMethod.Cash;
          assert d.attempts[b].payMethod == PaymentMethod.Cash;
        }
        if HasApprovedDigital(tx.db.attempts, e) && e != paid {
          var b :| 0 <= b < |tx.db.attempts| && tx.db.attempts[b].engagement == e
            && tx.db.attempts[b].payMethod == MercadoPago && tx.db.attempts[b].status == Approved;
          assert d.attempts[b].status == Approved;
        }
      }
      forall i | 0 <= i < |events|
        ensures PaidAsRecorded(events[i], tx.db.engagements)
      {
        assert PaidAsRecorded(events[i], d.engagements);
      }
    }
  }

  /** Writes to the engagements that leave the method alone, with no attempt changed. */
  lemma CashFrame(d: Db, d': Db, events: seq<Event>, more: seq<Event>)
    requires CashOk(d, events) && d'.attempts == d.attempts
    requires |d.engagements| == |d'.engagements|
    requires forall e :: 0 <= e < |d.engagements| ==> d'.engagements[e].paymentMethod == d.engagements[e].paymentMethod
    requires forall i :: 0 <= i < |more| ==> IsCancellation(more[i]) && more[i].engagement < |d.engagements|
    ensures CashOk(d', events + more)
  {
  }

  lemma NewEngagementKeepsCash(d: Db, d': Db, events: seq<Event>, row: Engagement)
    requires CashOk(d, events) && AttemptsOk(d.attempts, d.engagements) && d'.attempts == d.attempts
    requires d'.engagements == d.engagements + [row] && row.paymentMethod == None
    ensures CashOk(d', events)
  {
  }

  lemma CommitKeepsCash(d: Db, events: seq<Event>, call: Call)
    requires CashOk(d, events) && AttemptsOk(d.attempts, d.engagements) && CommitTx(d, call).Committed?
    ensures var tx := CommitTx(d, call); CashOk(tx.db, events + tx.events)
  {
    var tx := CommitTx(d, call);
    var d' := tx.db;
    var more := tx.events;
    assert events + [] == events;
    match call
    case AcceptQuoteCall(r, q, customer, professional) =>
      NewEngagementKeepsCash(d, d', events, NewEngagement(r, q, customer, professional));
    case ConfirmCashCall(e, role, price) => ConfirmCashKeepsCash(d, events, e, role, price);
    case PayDigitallyCall(e, price) =>
      forall f | 0 <= f < |d.engagements|
        ensures MethodOk(d.engagements[f], f, d'.attempts)
      {
        assert MethodOk(d.engagements[f], f, d.attempts);
        PendingDigitalDecidesNothing(d.attempts, d'.attempts[|d.attempts|], f);
      }
    case _ => CashFrame(d, d', events, more);
  }

  lemma DirectKeepsCash(d: Db, events: seq<Event>, s: Statement)
    requires CashOk(d, events) && AttemptsOk(d.attempts, d.engagements)
    requires DirectTx(d, s).Committed? && !AdoptsCash(d, s)
    ensures var tx := DirectTx(d, s); CashOk(tx.db, events + tx.events)
  {
    var tx := DirectTx(d, s);
    var d' := tx.db;
    var more := tx.events;
    match s
    case ApplyPaymentResult(a, approved) => ApplyPaymentKeepsCash(d, events, a, approved);
    case _ => CashFrame(d, d', events, more);
  }

  /** A pending cash attempt has one confirmation only, so any provider answer to it breaks the rule. */
  lemma AdoptionBreaksCash(d: Db, events: seq<Event>, s: Statement)
    requires CashOk(d, events) && AdoptsCash(d, s)
    ensures var tx := DirectTx(d, s); !CashOk(tx.db, events + tx.events)
  {
    assert CashAttemptOk(d.attempts[s.attempt]);
    assert !CashAttemptOk(DirectTx(d, s).db.attempts[s.attempt]);
  }

  lemma DirectKeepsCashExactly(d: Db, events: seq<Event>, s: Statement)
    requires CashOk(d, events) && AttemptsOk(d.attempts, d.engagements)
    ensures match DirectTx(d, s)
            case Committed(d', more) => CashOk(d', events + more) <==> !AdoptsCash(d, s)
            case RolledBack => !AdoptsCash(d, s)
  {
    if DirectTx(d, s).Committed? {
      if AdoptsCash(d, s) {
        AdoptionBreaksCash(d, events, s);
      } else {
        DirectKeepsCash(d, events, s);
      }
    }
  }

  /** Exactly the steps that apply a provider answer to a cash attempt break cash double confirmation. */
  lemma CashKeptExactlyWithoutAdoption(s: State, a: Action)
    requires Invariant(s) && CashOk(s.db, s.events)
    ensures CashOk(Step(s, a).db, Step(s, a).events) <==> !StepAdoptsCash(s, a)
  {
    match a
    case Commit(c) =>
      if ActionTx(s, a).Committed? {
        CommitKeepsCash(s.db, s.events, s.calls[c]);
      }
    case Direct(statement) => DirectKeepsCashExactly(s.db, s.events, statement);
    case _ =>
  }

  /** No action of the run applies a provider answer to a cash attempt. */
  ghost predicate NeverAdoptsCash(s: State, actions: seq<Action>) {
    forall i :: 0 <= i < |actions| ==> !StepAdoptsCash(Run(s, actions[..i]), actions[i])
  }

  lemma {:induction false} RunKeepsCash(s: State, actions: seq<Action>)
    requires Invariant(s) && CashOk(s.db, s.events) && NeverAdoptsCash(s, actions)
    ensures CashOk(Run(s, actions).db, Run(s, actions).events)
  {
    if actions != [] {
      var init := actions[..|actions| - 1];
      forall i | 0 <= i < |init|
        ensures !StepAdoptsCash(Run(s, init[..i]), init[i])
      {
        assert init[..i] == actions[..i];
      }
      RunKeepsCash(s, init);
      RunIsSafe(s, init);
      CashKeptExactlyWithoutAdoption(Run(s, init), actions[|actions| - 1]);
    }
  }

  predicate IsCashDebtOf(ev: Event, e: Id) {
    ev.CashDebt? && ev.engagement == e
  }

  ghost predicate HasCashDebt(events: seq<Event>, e: Id) {
    exists i :: 0 <= i < |events| && IsCashDebtOf(events[i], e)
  }

  ghost predicate BothConfirmedCash(attempts: seq<Attempt>, e: Id) {
    exists a :: 0 <= a < |attempts| && attempts[a].engagement == e
      && attempts[a].payMethod == PaymentMethod.Cash && BothConfirmed(attempts[a])
  }

  /** One cash attempt an engagement, one debt at most, and a debt exactly when both roles have confirmed. */
  ghost predicate CashSettled(d: Db, events: seq<Event>, e: Id)
    requires e < |d.engagements|
  {
    && (HasCashDebt(events, e) <==> BothConfirmedCash(d.attempts, e))
    && (HasCashDebt(events, e) ==> d.engagements[e].paymentMethod == Some(PaymentMethod.Cash))
    && (forall i, j :: 0 <= i < j < |events| && IsCashDebtOf(events[i], e) ==> !IsCashDebtOf(events[j], e))
    && (forall a, b :: 0 <= a < b < |d.attempts| && d.attempts[a].engagement == d.attempts[b].engagement ==>
          d.attempts[a].payMethod == MercadoPago || d.attempts[b].payMethod == MercadoPago)
  }

  lemma CashOkSettles(d: Db, events: seq<Event>, e: Id)
    requires CashOk(d, events) && MoneyOk(d, events) && e < |d.engagements|
    ensures CashSettled(d, events, e)
  {
  }

  lemma NoCashYet()
    ensures CashOk(InitialDb(), [])
  {
  }

  /** In any order and repetition of confirmations by either role, cash is settled at every moment. */
  lemma CashDoubleConfirmation(actions: seq<Action>, e: Id)
    requires NeverAdoptsCash(Initial(), actions)
    requires e < |Run(Initial(), actions).db.engagements|
    ensures CashSettled(Run(Initial(), actions).db, Run(Initial(), actions).events, e)
  {
    InitialIsSafe();
    NoCashYet();
    RunIsSafe(Initial(), actions);
    RunKeepsCash(Initial(), actions);
    CashOkSettles(Run(Initial(), actions).db, Run(Initial(), actions).events, e);
  }
}
