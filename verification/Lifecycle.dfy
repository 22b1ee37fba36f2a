/**
 Work execution: stamps, ranks and visits. The invariants here need nothing from the other tables
 but engagements, appointments and the clock.
 */
module Lifecycle {
  import opened Prelude
  import opened Tables
  import opened Writes
  import opened Protocol

  /** How many transitions an engagement can still make. */
  function Rank(status: EngagementStatus): nat {
    match status
    case Accepted => 3
    case InProgress => 2
    case PendingConfirmation => 1
    case Completed => 0
    case Cancelled => 0
  }

  /** The stamps set are exactly those of the path taken, in order, and none lies in the future. */
  ghost predicate StampsMatchPath(e: Engagement, now: nat) {
    && (e.startedAt.Some? <==> e.status.InProgress? || e.status.PendingConfirmation? || e.status.Completed?
                               || (e.status.Cancelled? && e.startedAt.Some?))
    && (e.finishedAt.Some? <==> e.status.PendingConfirmation? || e.status.Completed?)
    && (e.completedAt.Some? <==> e.status.Completed?)
    && (e.cancelledAt.Some? <==> e.status.Cancelled?)
    && (e.startedAt.Some? ==> e.startedAt.value <= now)
    && (e.finishedAt.Some? ==> e.startedAt.Some? && e.startedAt.value <= e.finishedAt.value <= now)
    && (e.completedAt.Some? ==> e.finishedAt.Some? && e.finishedAt.value <= e.completedAt.value <= now)
    && (e.cancelledAt.Some? ==> e.cancelledAt.value <= now)
    && (e.cancelledAt.Some? && e.startedAt.Some? ==> e.startedAt.value <= e.cancelledAt.value)
  }

  ghost predicate LifecycleOk(engagements: seq<Engagement>, now: nat) {
    forall e :: 0 <= e < |engagements| ==> StampsMatchPath(engagements[e], now)
  }

  /** The engagement had a visit confirmed no later than the given moment. */
  ghost predicate VisitedBy(appointments: seq<Appointment>, e: Id, when: nat) {
    exists a :: 0 <= a < |appointments| && IsVisit(appointments[a], e, when)
  }

  predicate IsVisit(a: Appointment, e: Id, when: nat) {
    a.engagement == e && a.confirmedAt.Some? && a.confirmedAt.value <= when
  }

  ghost predicate NoDoubleBooking(appointments: seq<Appointment>) {
    forall a, b :: 0 <= a < b < |appointments| && appointments[a].status == Confirmed ==>
      !Clashes(appointments[a], appointments[b])
  }

  ghost predicate AppointmentOk(a: Appointment, engagements: seq<Engagement>, now: nat) {
    && a.engagement < |engagements|
    && a.professional == engagements[a.engagement].professional
    && a.startsAt < a.endsAt
    && (a.status == AppointmentPending ==> a.confirmedAt.None?)
    && (a.status == Confirmed ==> a.confirmedAt.Some?)
    && (a.confirmedAt.Some? ==> a.confirmedAt.value <= now)
    && (a.cancelledAt.Some? <==> a.status == AppointmentCancelled)
  }

  ghost predicate VisitsOk(engagements: seq<Engagement>, appointments: seq<Appointment>, now: nat) {
    && (forall a :: 0 <= a < |appointments| ==> AppointmentOk(appointments[a], engagements, now))
    && NoDoubleBooking(appointments)
    && (forall e :: 0 <= e < |engagements| && engagements[e].startedAt.Some? ==>
          VisitedBy(appointments, e, engagements[e].startedAt.value))
  }

  ghost predicate WorkOk(d: Db) {
    LifecycleOk(d.engagements, d.now) && VisitsOk(d.engagements, d.appointments, d.now)
  }

  /** What an open call may still rely on, however stale its reads have become. */
  ghost predicate WorkCallOk(d: Db, call: Call) {
    match call
    case StartWorkCall(e) => e < |d.engagements| && VisitedBy(d.appointments, e, d.now)
    case CancelByCustomerCall(e, readStatus, _) =>
      && e < |d.engagements|
      && (readStatus == Accepted || readStatus == InProgress)
      && (readStatus == InProgress ==> d.engagements[e].startedAt.Some?)
    case CancelByProfessionalCall(e, _) => e < |d.engagements|
    case ConfirmCashCall(e, _, _) => e < |d.engagements| && d.engagements[e].startedAt.Some?
    case PayDigitallyCall(e, _) => e < |d.engagements| && d.engagements[e].startedAt.Some?
    case _ => true
  }

  ghost predicate SameVisit(a: Appointment, b: Appointment) {
    a.engagement == b.engagement && (a.confirmedAt.Some? ==> b.confirmedAt == a.confirmedAt)
  }

  /** Confirmations are never taken back, so having been visited is never lost. */
  lemma VisitedStays(before: seq<Appointment>, after: seq<Appointment>, e: Id, when: nat, later: nat)
    requires |before| <= |after| && when <= later
    requires forall a :: 0 <= a < |before| ==> SameVisit(before[a], after[a])
    ensures VisitedBy(before, e, when) ==> VisitedBy(after, e, later)
  {
  }

  ghost predicate SameWork(a: Engagement, b: Engagement) {
    a.professional == b.professional && a.status == b.status && a.startedAt == b.startedAt
    && a.finishedAt == b.finishedAt && a.completedAt == b.completedAt && a.cancelledAt == b.cancelledAt
  }

  /** A write that touches neither stamps nor visits keeps both invariants. */
  lemma WorkFrame(d: Db, d': Db)
    requires WorkOk(d) && d.now <= d'.now
    requires |d.engagements| == |d'.engagements| && d.appointments == d'.appointments
    requires forall e :: 0 <= e < |d.engagements| ==> SameWork(d.engagements[e], d'.engagements[e])
    ensures WorkOk(d')
  {
  }

  lemma EngagementStepKeepsWork(d: Db, e: Id, row: Engagement)
    requires WorkOk(d) && e < |d.engagements|
    requires row.professional == d.engagements[e].professional
    requires StampsMatchPath(row, d.now)
    requires row.startedAt.Some? ==> VisitedBy(d.appointments, e, row.startedAt.value)
    ensures WorkOk(d.(engagements := d.engagements[e := row]))
  {
    var after := d.engagements[e := row];
    forall a | 0 <= a < |d.appointments|
      ensures AppointmentOk(d.appointments[a], after, d.now)
    {
      assert AppointmentOk(d.appointments[a], d.engagements, d.now);
    }
  }

  lemma AppointmentStepKeepsWork(d: Db, a: Id, row: Appointment)
    requires WorkOk(d) && a < |d.appointments|
    requires SameVisit(d.appointments[a], row) && AppointmentOk(row, d.engagements, d.now)
    requires row.startsAt == d.appointments[a].startsAt && row.endsAt == d.appointments[a].endsAt
    requires row.status == Confirmed ==> !SlotTaken(d.appointments, a)
    ensures WorkOk(d.(appointments := d.appointments[a := row]))
  {
    var after := d.appointments[a := row];
    forall b | 0 <= b < |after|
      ensures AppointmentOk(after[b], d.engagements, d.now)
    {
      assert AppointmentOk(d.appointments[b], d.engagements, d.now);
    }
    forall b, c | 0 <= b < c < |after| && after[b].status == Confirmed
      ensures !Clashes(after[b], after[c])
    {
      if b == a {
        assert !Clashes(d.appointments[a], d.appointments[c]);
      } else if c == a && row.status == Confirmed {
        assert !Clashes(d.appointments[a], d.appointments[b]);
      } else if c != a {
        assert !Clashes(d.appointments[b], d.appointments[c]);
      }
    }
    forall e | 0 <= e < |d.engagements| && d.engagements[e].startedAt.Some?
      ensures VisitedBy(after, e, d.engagements[e].startedAt.value)
    {
      var when := d.engagements[e].startedAt.value;
      VisitedStays(d.appointments, after, e, when, when);
    }
  }

  lemma NewAppointmentKeepsWork(d: Db, row: Appointment)
    requires WorkOk(d)
    requires AppointmentOk(row, d.engagements, d.now) && row.status == AppointmentPending
    ensures WorkOk(d.(appointments := d.appointments + [row]))
  {
    var after := d.appointments + [row];
    forall b, c | 0 <= b < c < |after| && after[b].status == Confirmed
      ensures !Clashes(after[b], after[c])
    {
      if c < |d.appointments| {
        assert !Clashes(d.appointments[b], d.appointments[c]);
      }
    }
    forall e | 0 <= e < |d.engagements| && d.engagements[e].startedAt.Some?
      ensures VisitedBy(after, e, d.engagements[e].startedAt.value)
    {
      var when := d.engagements[e].startedAt.value;
      VisitedStays(d.appointments, after, e, when, when);
    }
  }

  lemma NewEngagementKeepsWork(d: Db, d': Db, row: Engagement)
    requires WorkOk(d) && d'.now == d.now && d'.appointments == d.appointments
    requires d'.engagements == d.engagements + [row]
    requires row.status == Accepted && StampsMatchPath(row, d.now)
    ensures WorkOk(d')
  {
  }

  lemma CancelKeepsWork(d: Db, e: Id)
    requires WorkOk(d)
    ensures WorkOk(CancelIfActive(d, e).db)
  {
  }

  lemma CommitKeepsWork(d: Db, call: Call)
    requires WorkOk(d) && WorkCallOk(d, call) && CommitTx(d, call).Committed?
    ensures WorkOk(CommitTx(d, call).db)
  {
    var d' := CommitTx(d, call).db;
    match call
    case AcceptQuoteCall(r, q, customer, professional) =>
      NewEngagementKeepsWork(d, d', NewEngagement(r, q, customer, professional));
    case StartWorkCall(e) =>
      var row := d.engagements[e];
      assert StampsMatchPath(row, d.now);
      EngagementStepKeepsWork(d, e, row.(status := InProgress, startedAt := Some(d.now)));
    case CancelByCustomerCall(e, _, _) =>
      CancelKeepsWork(d, e);
      WorkFrame(CancelIfActive(d, e).db, d');
    case CancelByProfessionalCall(e, _) =>
      CancelKeepsWork(d, e);
      WorkFrame(CancelIfActive(d, e).db, d');
    case _ =>
      WorkFrame(d, d');
  }

  lemma ConfirmingKeepsWork(d: Db, a: Id)
    requires WorkOk(d) && ConfirmIfPending(d, a).Some?
    ensures WorkOk(ConfirmIfPending(d, a).value.db)
  {
    var d' := ConfirmIfPending(d, a).value.db;
    if d'.appointments != d.appointments {
      assert AppointmentOk(d.appointments[a], d.engagements, d.now);
      AppointmentStepKeepsWork(d, a, d'.appointments[a]);
    }
  }

  lemma CancellingVisitKeepsWork(d: Db, a: Id)
    requires WorkOk(d)
    ensures WorkOk(CancelAppointmentIfActive(d, a).db)
  {
    var d' := CancelAppointmentIfActive(d, a).db;
    if d'.appointments != d.appointments {
      assert AppointmentOk(d.appointments[a], d.engagements, d.now);
      AppointmentStepKeepsWork(d, a, d'.appointments[a]);
    }
  }

  lemma DirectKeepsWork(d: Db, s: Statement)
    requires WorkOk(d) && DirectTx(d, s).Committed?
    ensures WorkOk(DirectTx(d, s).db)
  {
    var d' := DirectTx(d, s).db;
    match s
    case ProposeAppointment(e, startsAt, endsAt) =>
      NewAppointmentKeepsWork(d, d'.appointments[|d.appointments|]);
    case ConfirmAppointment(a) => ConfirmingKeepsWork(d, a);
    case CancelAppointment(a) => CancellingVisitKeepsWork(d, a);
    case FinishWork(e) =>
      if d'.engagements != d.engagements {
        assert StampsMatchPath(d.engagements[e], d.now);
        EngagementStepKeepsWork(d, e, d'.engagements[e]);
      }
    case ConfirmCompletion(e) =>
      if d'.engagements != d.engagements {
        assert StampsMatchPath(d.engagements[e], d.now);
        EngagementStepKeepsWork(d, e, d'.engagements[e]);
      }
    case _ =>
      WorkFrame(d, d');
  }

  lemma OpenCallIsOk(d: Db, intent: Intent)
    requires WorkOk(d) && OpenCall(d, intent).Some?
    ensures WorkCallOk(d, OpenCall(d, intent).value)
  {
  }
}
