/**
 The services' transactions, and the repositories' statements that go row by row, over tables
 that are updated in place. Each is proved to do exactly what the protocol's functions say; a transaction that loses a
 compare-and-swap after earlier writes puts every table back.
 */
module Database {
  import opened Prelude
  import opened Tables
  import opened Money
  import opened Writes
  import opened Protocol
  import opened Effects
  import opened MoneyEffects

  class Store {
    var requests: seq<Request>
    var quotes: seq<Quote>
    var proposals: seq<Proposal>
    var engagements: seq<Engagement>
    var appointments: seq<Appointment>
    var attempts: seq<Attempt>
    var ledger: seq<Entry>
    var commissionPercent: Option<nat>
    var now: nat

    function Snapshot(): Db
      reads this
    {
      Db(requests, quotes, proposals, engagements, appointments, attempts, ledger, commissionPercent, now)
    }

    // ---- Accepting a quote -------------------------------------------------

    method RejectSiblings(r: Id, q: Id)
      modifies this`quotes
      ensures quotes == RejectSiblingsSent(old(quotes), r, q)
      ensures |quotes| == |old(quotes)|
      ensures forall p :: 0 <= p < |quotes| ==>
        quotes[p] ==
          if p != q && old(quotes)[p].request == r && old(quotes)[p].status == Sent
          then old(quotes)[p].(status := QuoteRejected) else old(quotes)[p]
    {
      ghost var before := quotes;
      var i := 0;
      while i < |quotes|
        invariant 0 <= i <= |quotes| == |before|
        invariant quotes[..i] == RejectSiblingsSent(before, r, q)[..i]
        invariant quotes[i..] == before[i..]
      {
        assert quotes[i] == before[i];
        if quotes[i].request == r && quotes[i].status == Sent && i != q {
          quotes := quotes[i := quotes[i].(status := QuoteRejected)];
        }
        i := i + 1;
      }
    }

    method EngagementKeyTaken(r: Id, q: Id) returns (taken: bool)
      ensures taken == Writes.EngagementKeyTaken(engagements, r, q)
    {
      for e := 0 to |engagements|
        invariant forall f :: 0 <= f < e ==> engagements[f].request != r && engagements[f].quote != q
      {
        if engagements[e].request == r || engagements[e].quote == q {
          return true;
        }
      }
      return false;
    }

    method AcceptQuote(r: Id, q: Id, customer: Id, professional: Id) returns (ok: bool)
      modifies this
      ensures match AcceptQuoteTx(old(Snapshot()), r, q, customer, professional)
              case Committed(db, _) => ok && Snapshot() == db
              case RolledBack => !ok && Snapshot() == old(Snapshot())
      ensures ok ==>
        r < |old(requests)| && q < |old(quotes)|
        && OfferAccepted(old(Snapshot()), Snapshot(), r, q, customer, professional)
    {
      AcceptEffect(Snapshot(), r, q, customer, professional);
      var savedRequests, savedQuotes := requests, quotes;
      if r >= |requests| || requests[r].status != Open {
        return false;
      }
      requests := requests[r := requests[r].(status := Engaged, acceptedQuote := Some(q))];
      if q >= |quotes| || quotes[q].request != r || quotes[q].status != Sent {
        requests := savedRequests;
        return false;
      }
      quotes := quotes[q := quotes[q].(status := QuoteAccepted)];
      RejectSiblings(r, q);
      var taken := EngagementKeyTaken(r, q);
      if taken {
        requests, quotes := savedRequests, savedQuotes;
        return false;
      }
      engagements := engagements + [NewEngagement(r, q, customer, professional)];
      return true;
    }

    // ---- Negotiating -------------------------------------------------------

    method SupersedePendingProposals(q: Id)
      modifies this`proposals
      ensures proposals == SupersedePending(old(proposals), q)
      ensures |proposals| == |old(proposals)|
      ensures forall p :: 0 <= p < |proposals| ==>
        proposals[p] ==
          if old(proposals)[p].quote == q && old(proposals)[p].status == ProposalPending
          then old(proposals)[p].(status := Superseded) else old(proposals)[p]
    {
      ghost var before := proposals;
      var p := 0;
      while p < |proposals|
        invariant 0 <= p <= |proposals| == |before|
        invariant proposals[..p] == SupersedePending(before, q)[..p]
        invariant proposals[p..] == before[p..]
      {
        assert proposals[p] == before[p];
        if proposals[p].quote == q && proposals[p].status == ProposalPending {
          proposals := proposals[p := proposals[p].(status := Superseded)];
        }
        p := p + 1;
      }
    }

    method PostPrice(q: Id, role: Party, price: nat)
      modifies this`proposals
      ensures Committed(Snapshot(), []) == PostPriceTx(old(Snapshot()), q, role, price)
      ensures |proposals| == |old(proposals)| + 1
      ensures proposals[|old(proposals)|] == Proposal(q, role, price, ProposalPending)
      ensures forall p :: 0 <= p < |old(proposals)| ==>
        proposals[p] ==
          if old(proposals)[p].quote == q && old(proposals)[p].status == ProposalPending
          then old(proposals)[p].(status := Superseded) else old(proposals)[p]
    {
      SupersedePendingProposals(q);
      proposals := proposals + [Proposal(q, role, price, ProposalPending)];
    }

    method AcceptProposal(p: Id, q: Id, price: nat) returns (ok: bool)
      modifies this
      ensures match AcceptProposalTx(old(Snapshot()), p, q, price)
              case Committed(db, _) => ok && Snapshot() == db
              case RolledBack => !ok && Snapshot() == old(Snapshot())
    {
      var savedProposals := proposals;
      if p >= |proposals| || proposals[p].status != ProposalPending {
        return false;
      }
      proposals := proposals[p := proposals[p].(status := ProposalAccepted)];
      if q >= |quotes| {
        proposals := savedProposals;
        return false;
      }
      quotes := quotes[q := quotes[q].(negotiatedPrice := Some(price))];
      return true;
    }

    // ---- Visits ------------------------------------------------------------

    method CountConfirmed(e: Id) returns (count: nat)
      ensures count == Writes.CountConfirmed(appointments, e)
    {
      count := 0;
      for a := 0 to |appointments|
        invariant count == Writes.CountConfirmed(appointments[..a], e)
      {
        assert appointments[..a + 1][..a] == appointments[..a];
        if appointments[a].engagement == e && appointments[a].status == Confirmed {
          count := count + 1;
        }
      }
      assert appointments[..|appointments|] == appointments;
    }

    /** The exclusion constraint is checked row by row; a clash raises and changes nothing. */
    method ConfirmAppointment(a: Id) returns (conflict: bool, count: nat)
      modifies this`appointments
      ensures match ConfirmIfPending(old(Snapshot()), a)
              case None => conflict && Snapshot() == old(Snapshot())
              case Some(w) => !conflict && Write(Snapshot(), count) == w
    {
      conflict, count := false, 0;
      if a < |appointments| && appointments[a].status == AppointmentPending {
        for b := 0 to |appointments|
          invariant forall c :: 0 <= c < b && c != a ==> !Clashes(appointments[a], appointments[c])
        {
          if b != a && Clashes(appointments[a], appointments[b]) {
            return true, 0;
          }
        }
        appointments := appointments[a := appointments[a].(status := Confirmed, confirmedAt := Some(now))];
        count := 1;
      }
    }

    // ---- Money -------------------------------------------------------------

    method AppendCancellationCharge(e: Id, professional: Id, price: nat, percent: nat)
      modifies this`ledger
      ensures ledger == old(ledger) + EventRows(CancellationCharge(e, professional, price, percent))
    {
      var fee := RoundPercent(price, percent);
      var commission := RoundPercent(fee, percent);
      ledger := ledger + [Entry(CustomerCancellationFee, -(fee as int), Some(e), Some(professional), Some(percent))];
      ledger := ledger + [Entry(PlatformCommission, commission, Some(e), Some(professional), Some(percent))];
      ledger := ledger + [Entry(ProfessionalNetCredit, (fee as int) - commission, Some(e), Some(professional), Some(percent))];
    }

    method AppendDigitalPayment(e: Id, professional: Id, price: nat, percent: nat)
      modifies this`ledger
      ensures ledger == old(ledger) + EventRows(DigitalPayment(e, professional, price, percent))
    {
      var commission := RoundPercent(price, percent);
      ledger := ledger + [Entry(CustomerCharge, -(price as int), Some(e), Some(professional), Some(percent))];
      ledger := ledger + [Entry(PlatformCommission, commission, Some(e), Some(professional), Some(percent))];
      ledger := ledger + [Entry(ProfessionalNetCredit, (price as int) - commission, Some(e), Some(professional), Some(percent))];
    }

    method CancelByCustomer(e: Id, readStatus: EngagementStatus, price: nat) returns (ok: bool)
      modifies this
      ensures match CancelByCustomerTx(old(Snapshot()), e, readStatus, price)
              case Committed(db, _) => ok && Snapshot() == db
              case RolledBack => !ok && Snapshot() == old(Snapshot())
      ensures ok ==> IsCancellable(old(Snapshot()), e)
      ensures ok && readStatus == InProgress ==>
        |ledger| == |old(ledger)| + 3 && old(commissionPercent).Some?
        && IsFeeGroup(ledger[|old(ledger)|..], e, old(engagements)[e].professional, price, old(commissionPercent).value)
    {
      CustomerCancellationEffect(Snapshot(), e, readStatus, price);
      var savedEngagements := engagements;
      if e >= |engagements| || (engagements[e].status != Accepted && engagements[e].status != InProgress) {
        return false;
      }
      engagements := engagements[e := engagements[e].(status := Cancelled, cancelledAt := Some(now))];
      if readStatus == InProgress {
        if commissionPercent == None {
          engagements := savedEngagements;
          return false;
        }
        AppendCancellationCharge(e, engagements[e].professional, price, commissionPercent.value);
      }
      return true;
    }

    method CancelByProfessional(e: Id, price: nat) returns (ok: bool)
      modifies this
      ensures match CancelByProfessionalTx(old(Snapshot()), e, price)
              case Committed(db, _) => ok && Snapshot() == db
              case RolledBack => !ok && Snapshot() == old(Snapshot())
    {
      if e >= |engagements| || (engagements[e].status != Accepted && engagements[e].status != InProgress) {
        return false;
      }
      engagements := engagements[e := engagements[e].(status := Cancelled, cancelledAt := Some(now))];
      ledger := ledger + [Entry(Refund, price, Some(e), None, None)];
      return true;
    }

    method FindActiveAttempt(e: Id) returns (found: Option<Id>)
      ensures found == ActiveAttempt(attempts, e)
    {
      var a := |attempts|;
      assert attempts[..a] == attempts;
      while a > 0
        invariant 0 <= a <= |attempts|
        invariant ActiveAttempt(attempts, e) == ActiveAttempt(attempts[..a], e)
      {
        a := a - 1;
        assert attempts[..a + 1][..a] == attempts[..a];
        if attempts[a].engagement == e && IsActive(attempts[a]) {
          return Some(a);
        }
      }
      return None;
    }

    /** None when a digital attempt holds the engagement's active slot. */
    method UpsertCashConfirmation(e: Id, role: Party, price: nat) returns (found: Option<Id>)
      modifies this`attempts
      ensures match Writes.UpsertCashConfirmation(old(Snapshot()), e, role, price)
              case None => found == None && attempts == old(attempts)
              case Some((upserted, a)) => found == Some(a) && attempts == upserted
    {
      var active := FindActiveAttempt(e);
      if active == None {
        attempts := attempts + [Stamp(Attempt(e, Cash, AttemptPending, price, None, None), role, now)];
        return Some(|attempts| - 1);
      }
      var a := active.value;
      if attempts[a].payMethod != Cash {
        return None;
      }
      attempts := attempts[a := Stamp(attempts[a], role, now)];
      return Some(a);
    }

    method ConfirmCash(e: Id, role: Party, price: nat) returns (ok: bool)
      modifies this
      ensures match ConfirmCashTx(old(Snapshot()), e, role, price)
              case Committed(db, _) => ok && Snapshot() == db
              case RolledBack => !ok && Snapshot() == old(Snapshot())
    {
      if e >= |engagements| {
        return false;
      }
      var savedEngagements, savedAttempts := engagements, attempts;
      if engagements[e].paymentMethod == None {
        engagements := engagements[e := engagements[e].(paymentMethod := Some(Cash))];
      }
      var found := UpsertCashConfirmation(e, role, price);
      if found == None {
        engagements := savedEngagements;
        return false;
      }
      var a := found.value;
      if BothConfirmed(attempts[a]) && attempts[a].status == AttemptPending {
        if commissionPercent == None {
          engagements, attempts := savedEngagements, savedAttempts;
          return false;
        }
        attempts := attempts[a := attempts[a].(status := Approved)];
        ledger := ledger +
          [Entry(CashCommissionDebt, RoundPercent(price, commissionPercent.value), Some(e),
                 Some(engagements[e].professional), commissionPercent)];
      }
      return true;
    }

    method PayDigitally(e: Id, price: nat) returns (ok: bool)
      modifies this`attempts
      ensures match CreatePendingAttemptTx(old(Snapshot()), e, price)
              case Committed(db, _) => ok && Snapshot() == db
              case RolledBack => !ok && Snapshot() == old(Snapshot())
    {
      if e >= |engagements| {
        return false;
      }
      var active := FindActiveAttempt(e);
      if active.Some? {
        return false;
      }
      attempts := attempts + [Attempt(e, MercadoPago, AttemptPending, price, None, None)];
      return true;
    }

    method ApplyPaymentResult(a: Id, approved: bool) returns (ok: bool)
      modifies this
      ensures match ApplyPaymentTx(old(Snapshot()), a, approved)
              case Committed(db, _) => ok && Snapshot() == db
              case RolledBack => !ok && Snapshot() == old(Snapshot())
      ensures ok ==> a < |old(attempts)|
      ensures ok && approved ==>
        var e := old(attempts)[a].engagement;
        && e < |old(engagements)| && old(commissionPercent).Some? && |ledger| == |old(ledger)| + 3
        && IsPaymentGroup(ledger[|old(ledger)|..], e, old(engagements)[e].professional, old(attempts)[a].amount,
                          old(commissionPercent).value)
    {
      ApprovalEffect(Snapshot(), a);
      if a >= |attempts| || attempts[a].status != AttemptPending {
        return false;
      }
      var savedAttempts := attempts;
      attempts := attempts[a := attempts[a].(status := if approved then Approved else AttemptRejected)];
      if approved {
        var e := attempts[a].engagement;
        if commissionPercent == None || e >= |engagements| {
          attempts := savedAttempts;
          return false;
        }
        AppendDigitalPayment(e, engagements[e].professional, attempts[a].amount, commissionPercent.value);
        if engagements[e].paymentMethod == None {
          engagements := engagements[e := engagements[e].(paymentMethod := Some(MercadoPago))];
        }
      }
      return true;
    }
  }
}
