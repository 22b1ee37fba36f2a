/** What the ledger adds up to, as a function of what happened to each engagement. */
module Ledger {
  import opened Prelude
  import opened Tables
  import opened Money
  import opened Writes
  import opened Payments

  /** The `where` of an aggregate over the ledger. */
  datatype Filter =
    | Everything
    | NetCredits
    | Debts
    | Commissions
    | Collections
    | NetCreditsOf(professional: Option<Id>)
    | DebtsOf(professional: Option<Id>)
  {
    predicate Matches(row: Entry) {
      match this
      case Everything => true
      case NetCredits => row.kind == ProfessionalNetCredit
      case Debts => row.kind == CashCommissionDebt
      case Commissions => row.kind == PlatformCommission
      case Collections => row.kind == CustomerCancellationFee || row.kind == CustomerCharge
      case NetCreditsOf(p) => row.kind == ProfessionalNetCredit && row.professional == p
      case DebtsOf(p) => row.kind == CashCommissionDebt && row.professional == p
    }

    function Amount(row: Entry): int {
      if Matches(row) then row.amount else 0
    }
  }

  function SumOf(ledger: seq<Entry>, wanted: Filter): int {
    if ledger == [] then 0 else
    SumOf(ledger[..|ledger| - 1], wanted) + wanted.Amount(ledger[|ledger| - 1])
  }

  lemma {:induction false} SumOfConcat(a: seq<Entry>, b: seq<Entry>, wanted: Filter)
    ensures SumOf(a + b, wanted) == SumOf(a, wanted) + SumOf(b, wanted)
  {
    if b == [] {
      assert a + b == a;
    } else {
      assert (a + b)[..|a + b| - 1] == a + b[..|b| - 1];
      SumOfConcat(a, b[..|b| - 1], wanted);
    }
  }

  /** Digital and cancellation credits minus cash commission owed; None owns the rows of deleted accounts. */
  function BalanceOf(ledger: seq<Entry>, owner: Option<Id>): int {
    SumOf(ledger, NetCreditsOf(owner)) - SumOf(ledger, DebtsOf(owner))
  }

  function ProfessionalBalance(ledger: seq<Entry>, p: Id): int {
    BalanceOf(ledger, Some(p))
  }

  function PlatformBalance(ledger: seq<Entry>): int {
    SumOf(ledger, Commissions) + SumOf(ledger, Debts)
  }

  /** Everything customers were charged through the platform. */
  function Collected(ledger: seq<Entry>): int {
    -SumOf(ledger, Collections)
  }

  function AllBalances(ledger: seq<Entry>, n: nat): int {
    if n == 0 then 0 else AllBalances(ledger, n - 1) + ProfessionalBalance(ledger, n - 1)
  }

  // ---- One event ------------------------------------------------------------

  /** What an event changes in its professional's balance. */
  function EventNet(ev: Event): int {
    match ev
    case CancellationCharge(_, _, price, percent) => ComputeCommission(RoundPercent(price, percent), percent).net
    case FullRefund(_, _) => 0
    case CashDebt(_, _, price, percent) => -(RoundPercent(price, percent) as int)
    case DigitalPayment(_, _, price, percent) => ComputeCommission(price, percent).net
  }

  lemma OneRowSum(row: Entry, wanted: Filter)
    ensures SumOf([row], wanted) == wanted.Amount(row)
  {
  }

  lemma EventRowsSum(ev: Event, wanted: Filter)
    ensures var rows := EventRows(ev);
      SumOf(rows, wanted) ==
        if |rows| == 3 then wanted.Amount(rows[0]) + wanted.Amount(rows[1]) + wanted.Amount(rows[2])
        else wanted.Amount(rows[0])
  {
    var rows := EventRows(ev);
    OneRowSum(rows[0], wanted);
    if |rows| == 3 {
      OneRowSum(rows[1], wanted);
      OneRowSum(rows[2], wanted);
      SumOfConcat([rows[0]], [rows[1]], wanted);
      SumOfConcat([rows[0]] + [rows[1]], [rows[2]], wanted);
      assert rows == [rows[0]] + [rows[1]] + [rows[2]];
    } else {
      assert rows == [rows[0]];
    }
  }

  /** Every charge is split without remainder: a three-row group sums to zero. */
  lemma ThreeRowGroupsBalance(ev: Event)
    ensures |EventRows(ev)| == 3 <==> ev.CancellationCharge? || ev.DigitalPayment?
    ensures |EventRows(ev)| == 3 ==> SumOf(EventRows(ev), Everything) == 0
    ensures forall i :: 0 <= i < |EventRows(ev)| ==> EventRows(ev)[i].engagement == Some(ev.engagement)
  {
    EventRowsSum(ev, Everything);
  }

  lemma EventBalance(ev: Event, p: Id)
    ensures ProfessionalBalance(EventRows(ev), p) == if !ev.FullRefund? && ev.professional == p then EventNet(ev) else 0
  {
    EventRowsSum(ev, NetCreditsOf(Some(p)));
    EventRowsSum(ev, DebtsOf(Some(p)));
  }

  // ---- Conservation ---------------------------------------------------------

  lemma EventIsShared(ev: Event)
    ensures var rows := EventRows(ev);
            -SumOf(rows, Collections) ==
              SumOf(rows, Commissions) + SumOf(rows, Debts) + SumOf(rows, NetCredits) - SumOf(rows, Debts)
  {
    EventRowsSum(ev, Collections);
    EventRowsSum(ev, Commissions);
    EventRowsSum(ev, NetCredits);
  }

  lemma OwnersAppend(a: seq<Entry>, b: seq<Entry>, owner: Option<Id>)
    ensures BalanceOf(a + b, owner) == BalanceOf(a, owner) + BalanceOf(b, owner)
  {
    SumOfConcat(a, b, NetCreditsOf(owner));
    SumOfConcat(a, b, DebtsOf(owner));
  }

  /** What a deleted account leaves behind: its rows lose the professional, and those of its jobs the engagement. */
  datatype Entered = Recorded(event: Event) | AccountDeleted(professional: Option<Id>, jobs: set<Id>)

  function Forget(row: Entry, professional: Option<Id>, jobs: set<Id>): Entry {
    row.(professional := if row.professional == professional then None else row.professional,
         engagement := if row.engagement.Some? && row.engagement.value in jobs then None else row.engagement)
  }

  function ForgetAll(ledger: seq<Entry>, professional: Option<Id>, jobs: set<Id>): (r: seq<Entry>)
    ensures |r| == |ledger| && forall i :: 0 <= i < |ledger| ==> r[i] == Forget(ledger[i], professional, jobs)
    ensures forall i :: 0 <= i < |ledger| ==>
      && r[i].kind == ledger[i].kind && r[i].amount == ledger[i].amount && r[i].percent == ledger[i].percent
      && (r[i].professional == if ledger[i].professional == professional then None else ledger[i].professional)
      && (r[i].engagement ==
            if exists e :: e in jobs && ledger[i].engagement == Some(e) then None else ledger[i].engagement)
  {
    seq(|ledger|, i requires 0 <= i < |ledger| => Forget(ledger[i], professional, jobs))
  }

  /** The ledger after events and account deletions in any order. */
  function LedgerAfter(entered: seq<Entered>): seq<Entry> {
    if entered == [] then [] else
    var before := LedgerAfter(entered[..|entered| - 1]);
    match entered[|entered| - 1]
    case Recorded(ev) => before + EventRows(ev)
    case AccountDeleted(p, jobs) => ForgetAll(before, p, jobs)
  }

  lemma {:induction false} ForgettingSums(ledger: seq<Entry>, professional: Option<Id>, jobs: set<Id>, wanted: Filter)
    requires !wanted.NetCreditsOf? && !wanted.DebtsOf?
    ensures SumOf(ForgetAll(ledger, professional, jobs), wanted) == SumOf(ledger, wanted)
  {
    if ledger != [] {
      ForgettingSums(ledger[..|ledger| - 1], professional, jobs, wanted);
      assert ForgetAll(ledger, professional, jobs)[..|ledger| - 1] == ForgetAll(ledger[..|ledger| - 1], professional, jobs);
    }
  }

  /** Deleting an account moves its balance to nobody and leaves every other balance alone. */
  lemma {:induction false} DeletionMovesOneBalance(ledger: seq<Entry>, professional: Option<Id>, jobs: set<Id>, owner: Option<Id>)
    ensures BalanceOf(ForgetAll(ledger, professional, jobs), owner) ==
      if owner == None then
        BalanceOf(ledger, None) + if professional == None then 0 else BalanceOf(ledger, professional)
      else if owner == professional then 0 else BalanceOf(ledger, owner)
  {
    if ledger != [] {
      DeletionMovesOneBalance(ledger[..|ledger| - 1], professional, jobs, owner);
      assert ForgetAll(ledger, professional, jobs)[..|ledger| - 1] == ForgetAll(ledger[..|ledger| - 1], professional, jobs);
    }
  }

  /** What was collected is the platform's plus the professionals'; cash commission nets out. */
  lemma {:induction false} CollectedIsShared(entered: seq<Entered>)
    ensures var ledger := LedgerAfter(entered);
            Collected(ledger) == PlatformBalance(ledger) + SumOf(ledger, NetCredits) - SumOf(ledger, Debts)
  {
    if entered != [] {
      var before := LedgerAfter(entered[..|entered| - 1]);
      CollectedIsShared(entered[..|entered| - 1]);
      match entered[|entered| - 1]
      case Recorded(ev) =>
        EventIsShared(ev);
        SumOfConcat(before, EventRows(ev), Collections);
        SumOfConcat(before, EventRows(ev), Commissions);
        SumOfConcat(before, EventRows(ev), Debts);
        SumOfConcat(before, EventRows(ev), NetCredits);
      case AccountDeleted(p, jobs) =>
        ForgettingSums(before, p, jobs, Collections);
        ForgettingSums(before, p, jobs, Commissions);
        ForgettingSums(before, p, jobs, Debts);
        ForgettingSums(before, p, jobs, NetCredits);
    }
  }

  ghost predicate RowKnown(row: Entry, n: nat) {
    row.professional.Some? ==> row.professional.value < n
  }

  lemma {:induction false} AddingRow(ledger: seq<Entry>, row: Entry, n: nat)
    ensures AllBalances(ledger + [row], n) == AllBalances(ledger, n) +
      if row.professional.Some? && row.professional.value < n then
        NetCredits.Amount(row) - Debts.Amount(row)
      else 0
  {
    if n > 0 {
      AddingRow(ledger, row, n - 1);
      assert (ledger + [row])[..|ledger|] == ledger;
    }
  }

  lemma {:induction false} BalancesAddUp(ledger: seq<Entry>, n: nat)
    requires forall i :: 0 <= i < |ledger| ==> RowKnown(ledger[i], n)
    ensures AllBalances(ledger, n) + BalanceOf(ledger, None) == SumOf(ledger, NetCredits) - SumOf(ledger, Debts)
  {
    if ledger == [] {
      EmptyBalances(n);
    } else {
      var init, last := ledger[..|ledger| - 1], ledger[|ledger| - 1];
      BalancesAddUp(init, n);
      AddingRow(init, last, n);
      assert init + [last] == ledger;
      assert RowKnown(last, n);
    }
  }

  lemma {:induction false} EmptyBalances(n: nat)
    ensures AllBalances([], n) == 0
  {
    if n > 0 { EmptyBalances(n - 1); }
  }

  ghost predicate KnownEntry(entry: Entered, n: nat) {
    entry.Recorded? && !entry.event.FullRefund? ==> entry.event.professional < n
  }

  lemma {:induction false} RowsStayKnown(entered: seq<Entered>, n: nat)
    requires forall i :: 0 <= i < |entered| ==> KnownEntry(entered[i], n)
    ensures forall i :: 0 <= i < |LedgerAfter(entered)| ==> RowKnown(LedgerAfter(entered)[i], n)
  {
    if entered != [] {
      RowsStayKnown(entered[..|entered| - 1], n);
      assert KnownEntry(entered[|entered| - 1], n);
    }
  }

  /**
   Over events and account deletions in any order: what customers were charged is the platform's balance, the
   balances of the professionals that remain, and what the deleted ones leave without an owner.
   */
  lemma DeletionsConserveMoney(entered: seq<Entered>, n: nat)
    requires forall i :: 0 <= i < |entered| ==> KnownEntry(entered[i], n)
    ensures var ledger := LedgerAfter(entered);
      Collected(ledger) == PlatformBalance(ledger) + AllBalances(ledger, n) + BalanceOf(ledger, None)
  {
    CollectedIsShared(entered);
    RowsStayKnown(entered, n);
    BalancesAddUp(LedgerAfter(entered), n);
  }

  function Recordings(events: seq<Event>): seq<Entered> {
    seq(|events|, i requires 0 <= i < |events| => Recorded(events[i]))
  }

  lemma OwnersOfEvents(ev: Event)
    ensures BalanceOf(EventRows(ev), None) == 0
  {
    EventRowsSum(ev, NetCreditsOf(None));
    EventRowsSum(ev, DebtsOf(None));
  }

  /** Without deletions the ledger is that of its events, and nothing is without an owner. */
  lemma {:induction false} NothingForgotten(events: seq<Event>)
    ensures LedgerAfter(Recordings(events)) == LedgerOf(events)
    ensures BalanceOf(LedgerOf(events), None) == 0
  {
    if events != [] {
      var init, last := events[..|events| - 1], events[|events| - 1];
      NothingForgotten(init);
      assert Recordings(events)[..|init|] == Recordings(init);
      OwnersAppend(LedgerOf(init), EventRows(last), None);
      OwnersOfEvents(last);
    }
  }

  // ---- Balance by engagement -------------------------------------------------

  function EngagementNet(events: seq<Event>, e: Id): int {
    if events == [] then 0 else
    var last := events[|events| - 1];
    EngagementNet(events[..|events| - 1], e) + if last.engagement == e then EventNet(last) else 0
  }

  /** The nets of a professional's engagements among the first n. */
  function NetOfEngagements(engagements: seq<Engagement>, events: seq<Event>, p: Id, n: nat): int
    requires n <= |engagements|
  {
    if n == 0 then 0 else
    NetOfEngagements(engagements, events, p, n - 1)
    + if engagements[n - 1].professional == p then EngagementNet(events, n - 1) else 0
  }

  lemma {:induction false} AddingEvent(engagements: seq<Engagement>, events: seq<Event>, ev: Event, p: Id, n: nat)
    requires n <= |engagements| && EventOk(ev, engagements)
    ensures NetOfEngagements(engagements, events + [ev], p, n) == NetOfEngagements(engagements, events, p, n) +
      if ev.engagement < n && engagements[ev.engagement].professional == p then EventNet(ev) else 0
  {
    if n > 0 {
      AddingEvent(engagements, events, ev, p, n - 1);
      assert (events + [ev])[..|events|] == events;
    }
  }

  lemma {:induction false} NothingRecordedYet(engagements: seq<Engagement>, p: Id, n: nat)
    requires n <= |engagements|
    ensures NetOfEngagements(engagements, [], p, n) == 0
  {
    if n > 0 { NothingRecordedYet(engagements, p, n - 1); }
  }

  lemma OneMoreInBalance(events: seq<Event>, ev: Event, p: Id)
    ensures ProfessionalBalance(LedgerOf(events + [ev]), p) ==
      ProfessionalBalance(LedgerOf(events), p) + if !ev.FullRefund? && ev.professional == p then EventNet(ev) else 0
  {
    LedgerOfAppended(events, ev);
    OwnersAppend(LedgerOf(events), EventRows(ev), Some(p));
    EventBalance(ev, p);
  }

  lemma {:induction false} BalanceByEngagement(engagements: seq<Engagement>, events: seq<Event>, p: Id)
    requires forall i :: 0 <= i < |events| ==> EventOk(events[i], engagements)
    ensures ProfessionalBalance(LedgerOf(events), p) == NetOfEngagements(engagements, events, p, |engagements|)
  {
    if events == [] {
      NothingRecordedYet(engagements, p, |engagements|);
    } else {
      var init, last := events[..|events| - 1], events[|events| - 1];
      assert init + [last] == events;
      BalanceByEngagement(engagements, init, p);
      OneMoreInBalance(init, last, p);
      assert EventOk(last, engagements);
      AddingEvent(engagements, init, last, p, |engagements|);
    }
  }

  /** The engagement's one payment, if any. */
  function FindPayment(events: seq<Event>, e: Id): (found: Option<Event>)
    ensures found.Some? ==> found.value in events && IsPaymentOf(found.value, e)
    ensures found.None? ==> !HasPayment(events, e)
  {
    if events == [] then None else
    var last := events[|events| - 1];
    if IsPaymentOf(last, e) then Some(last) else FindPayment(events[..|events| - 1], e)
  }

  function FindCancellation(events: seq<Event>, e: Id): (found: Option<Event>)
    ensures found.Some? ==> found.value in events && IsCancellationOf(found.value, e)
    ensures found.None? ==> forall ev :: ev in events ==> !IsCancellationOf(ev, e)
  {
    if events == [] then None else
    var last := events[|events| - 1];
    if IsCancellationOf(last, e) then Some(last) else FindCancellation(events[..|events| - 1], e)
  }

  function NetOf(found: Option<Event>): int {
    match found
    case None => 0
    case Some(ev) => EventNet(ev)
  }

  /** Two events at most make up an engagement's net: its one payment and its one cancellation. */
  lemma {:induction false} NetIsPaymentPlusCancellation(events: seq<Event>, e: Id)
    requires EventsDistinct(events)
    ensures EngagementNet(events, e) == NetOf(FindPayment(events, e)) + NetOf(FindCancellation(events, e))
  {
    if events != [] {
      var init, last := events[..|events| - 1], events[|events| - 1];
      NetIsPaymentPlusCancellation(init, e);
      if last.engagement == e {
        if IsPayment(last) {
          forall i | 0 <= i < |init|
            ensures !IsPaymentOf(init[i], e)
          {
            assert IsPayment(events[i]) ==> !IsPaymentOf(events[|init|], events[i].engagement);
          }
          assert FindPayment(init, e).None?;
        } else {
          forall i | 0 <= i < |init|
            ensures !IsCancellationOf(init[i], e)
          {
            assert IsCancellation(events[i]) ==> !IsCancellationOf(events[|init|], events[i].engagement);
          }
          assert FindCancellation(init, e).None?;
        }
      }
    }
  }
}
