/** Whose confirmations a cash debt stands for: the two roles', each by its own committed confirmation. */
module CashRoles {
  import opened Prelude
  import opened Tables
  import opened Writes
  import opened Protocol
  import opened Payments
  import opened Safety
  import opened Cash

  function StampOf(a: Attempt, role: Party): Option<nat> {
    match role
    case CustomerParty => a.customerConfirmedAt
    case ProfessionalParty => a.professionalConfirmedAt
  }

  predicate IsStampedCash(a: Attempt, e: Id, role: Party) {
    a.engagement == e && a.payMethod == PaymentMethod.Cash && StampOf(a, role).Some?
  }

  ghost predicate Stamped(attempts: seq<Attempt>, e: Id, role: Party) {
    exists a :: 0 <= a < |attempts| && IsStampedCash(attempts[a], e, role)
  }

  /** The action commits a confirmation of the engagement by that role. */
  predicate Confirms(s: State, a: Action, e: Id, role: Party) {
    a.Commit? && a.call < |s.calls| && s.calls[a.call].ConfirmCashCall?
    && s.calls[a.call].engagement == e && s.calls[a.call].role == role && ActionTx(s, a).Committed?
  }

  /** Some action of the run did. */
  predicate HasConfirmed(s: State, actions: seq<Action>, e: Id, role: Party)
    decreases |actions|
  {
    actions != []
    && (HasConfirmed(s, actions[..|actions| - 1], e, role)
        || Confirms(Run(s, actions[..|actions| - 1]), actions[|actions| - 1], e, role))
  }

  lemma AttemptUpdated(before: seq<Attempt>, a: Id, row: Attempt, e: Id, role: Party)
    requires a < |before| && row.engagement == before[a].engagement && row.payMethod == before[a].payMethod
    ensures Stamped(before[a := row], e, role) <==>
      IsStampedCash(row, e, role) || exists b :: 0 <= b < |before| && b != a && IsStampedCash(before[b], e, role)
  {
    var after := before[a := row];
    if IsStampedCash(row, e, role) {
      assert IsStampedCash(after[a], e, role);
    }
    if b :| 0 <= b < |before| && b != a && IsStampedCash(before[b], e, role) {
      assert IsStampedCash(after[b], e, role);
    }
  }

  lemma AttemptAdded(before: seq<Attempt>, row: Attempt, e: Id, role: Party)
    ensures Stamped(before + [row], e, role) <==> Stamped(before, e, role) || IsStampedCash(row, e, role)
  {
    var after := before + [row];
    assert after[|before|] == row;
    if Stamped(before, e, role) {
      var a :| 0 <= a < |before| && IsStampedCash(before[a], e, role);
      assert IsStampedCash(after[a], e, role);
    }
  }

  /** A confirmation stamps the confirming role on its own engagement and nothing else. */
  lemma UpsertStampsItsRole(d: Db, f: Id, confirming: Party, price: nat, e: Id, role: Party)
    requires UpsertCashConfirmation(d, f, confirming, price).Some?
    ensures Stamped(UpsertCashConfirmation(d, f, confirming, price).value.0, e, role) <==>
      Stamped(d.attempts, e, role) || (e == f && role == confirming)
  {
    match ActiveAttempt(d.attempts, f)
    case None =>
      AttemptAdded(d.attempts, Stamp(Attempt(f, PaymentMethod.Cash, AttemptPending, price, None, None), confirming, d.now), e, role);
    case Some(a) =>
      var row := Stamp(d.attempts[a], confirming, d.now);
      AttemptUpdated(d.attempts, a, row, e, role);
      if Stamped(d.attempts, e, role) {
        var b :| 0 <= b < |d.attempts| && IsStampedCash(d.attempts[b], e, role);
        assert b == a ==> IsStampedCash(row, e, role);
      }
  }

  lemma StatusKeepsStamps(attempts: seq<Attempt>, a: Id, status: AttemptStatus, e: Id, role: Party)
    requires a < |attempts|
    ensures Stamped(attempts[a := attempts[a].(status := status)], e, role) <==> Stamped(attempts, e, role)
  {
    AttemptUpdated(attempts, a, attempts[a].(status := status), e, role);
    if Stamped(attempts, e, role) {
      var b :| 0 <= b < |attempts| && IsStampedCash(attempts[b], e, role);
      assert b == a ==> IsStampedCash(attempts[a].(status := status), e, role);
    }
  }

  lemma ConfirmCashStamps(d: Db, f: Id, confirming: Party, price: nat, e: Id, role: Party)
    requires ConfirmCashTx(d, f, confirming, price).Committed?
    ensures Stamped(ConfirmCashTx(d, f, confirming, price).db.attempts, e, role) <==>
      Stamped(d.attempts, e, role) || (e == f && role == confirming)
  {
    var chosen := SetPaymentMethodIfUnset(d, f, PaymentMethod.Cash).db;
    var (attempts, a) := UpsertCashConfirmation(chosen, f, confirming, price).value;
    UpsertStampsItsRole(chosen, f, confirming, price, e, role);
    assert a < |attempts|;
    StatusKeepsStamps(attempts, a, Approved, e, role);
  }

  lemma CommitStamps(d: Db, call: Call, e: Id, role: Party)
    requires CommitTx(d, call).Committed?
    ensures Stamped(CommitTx(d, call).db.attempts, e, role) <==>
      Stamped(d.attempts, e, role) || (call.ConfirmCashCall? && call.engagement == e && call.role == role)
  {
    match call
    case ConfirmCashCall(f, confirming, price) => ConfirmCashStamps(d, f, confirming, price, e, role);
    case PayDigitallyCall(f, price) =>
      AttemptAdded(d.attempts, Attempt(f, MercadoPago, AttemptPending, price, None, None), e, role);
    case _ =>
  }

  lemma DirectStamps(d: Db, s: Statement, e: Id, role: Party)
    requires DirectTx(d, s).Committed?
    ensures Stamped(DirectTx(d, s).db.attempts, e, role) <==> Stamped(d.attempts, e, role)
  {
    match s
    case ApplyPaymentResult(a, approved) =>
      StatusKeepsStamps(d.attempts, a, if approved then Approved else AttemptRejected, e, role);
    case _ =>
  }

  /** Only a confirmation by the role itself ever adds its stamp, and no step takes one away. */
  lemma StampsComeFromTheRole(s: State, a: Action, e: Id, role: Party)
    ensures Stamped(Step(s, a).db.attempts, e, role) <==> Stamped(s.db.attempts, e, role) || Confirms(s, a, e, role)
  {
    if ActionTx(s, a).Committed? {
      match a
      case Commit(c) => CommitStamps(s.db, s.calls[c], e, role);
      case Direct(statement) => DirectStamps(s.db, statement, e, role);
    }
  }

  lemma {:induction false} StampedExactlyByConfirmations(s: State, actions: seq<Action>, e: Id, role: Party)
    requires !Stamped(s.db.attempts, e, role)
    ensures Stamped(Run(s, actions).db.attempts, e, role) <==> HasConfirmed(s, actions, e, role)
  {
    if actions != [] {
      var init := actions[..|actions| - 1];
      StampedExactlyByConfirmations(s, init, e, role);
      StampsComeFromTheRole(Run(s, init), actions[|actions| - 1], e, role);
    }
  }

  lemma BothStampsOnOneAttempt(d: Db, events: seq<Event>, e: Id)
    requires e < |d.engagements| && CashSettled(d, events, e)
    ensures BothConfirmedCash(d.attempts, e) <==>
      Stamped(d.attempts, e, CustomerParty) && Stamped(d.attempts, e, ProfessionalParty)
  {
  }

  /** A cash debt is on the ledger exactly when, somewhere in the run, each of the two roles committed a confirmation. */
  lemma DebtExactlyWhenBothRolesConfirmed(actions: seq<Action>, e: Id)
    requires NeverAdoptsCash(Initial(), actions)
    requires e < |Run(Initial(), actions).db.engagements|
    ensures HasCashDebt(Run(Initial(), actions).events, e) <==>
      HasConfirmed(Initial(), actions, e, CustomerParty) && HasConfirmed(Initial(), actions, e, ProfessionalParty)
  {
    var s := Run(Initial(), actions);
    CashDoubleConfirmation(actions, e);
    BothStampsOnOneAttempt(s.db, s.events, e);
    StampedExactlyByConfirmations(Initial(), actions, e, CustomerParty);
    StampedExactlyByConfirmations(Initial(), actions, e, ProfessionalParty);
  }
}
