/** All invariants together hold in every reachable state of every interleaving. */
module Safety {
  import opened Prelude
  import opened Tables
  import opened Writes
  import opened Protocol
  import opened Lifecycle
  import opened History
  import opened Market
  import opened Payments

  ghost predicate CallOk(d: Db, call: Call) {
    WorkCallOk(d, call) && OfferCallOk(d, call)
  }

  ghost predicate TablesOk(d: Db, events: seq<Event>) {
    && WorkOk(d)
    && WinnersOk(d.requests, d.quotes, d.engagements)
    && NegotiationOk(d.quotes, d.proposals)
    && MoneyOk(d, events)
  }

  ghost predicate CallsOk(d: Db, calls: seq<Call>) {
    forall c :: 0 <= c < |calls| ==> CallOk(d, calls[c])
  }

  ghost predicate Invariant(s: State) {
    TablesOk(s.db, s.events) && CallsOk(s.db, s.calls)
  }

  lemma OpenOfferIsOk(d: Db, intent: Intent)
    requires OpenCall(d, intent).Some?
    ensures OfferCallOk(d, OpenCall(d, intent).value)
  {
  }

  lemma CommitIsSafe(d: Db, events: seq<Event>, call: Call)
    requires TablesOk(d, events) && CallOk(d, call) && CommitTx(d, call).Committed?
    ensures KeepsHistory(d, CommitTx(d, call).db)
    ensures TablesOk(CommitTx(d, call).db, events + CommitTx(d, call).events)
  {
    CommitKeepsHistory(d, call);
    CommitKeepsWork(d, call);
    CommitKeepsWinners(d, call);
    CommitKeepsNegotiation(d, call);
    CommitKeepsMoneyOk(d, events, call);
  }

  lemma DirectIsSafe(d: Db, events: seq<Event>, s: Statement)
    requires TablesOk(d, events) && DirectTx(d, s).Committed?
    ensures KeepsHistory(d, DirectTx(d, s).db)
    ensures TablesOk(DirectTx(d, s).db, events + DirectTx(d, s).events)
  {
    DirectKeepsHistory(d, s);
    DirectKeepsWork(d, s);
    DirectKeepsWinners(d, s);
    DirectKeepsNegotiation(d, s);
    DirectKeepsMoneyOk(d, events, s);
  }

  lemma CallsStay(d: Db, d': Db, calls: seq<Call>)
    requires CallsOk(d, calls) && KeepsHistory(d, d')
    ensures CallsOk(d', calls)
  {
  }

  lemma NextCallsOk(s: State, a: Action)
    requires Invariant(s)
    ensures CallsOk(s.db, NextCalls(s, a))
  {
    match a
    case Begin(intent) =>
      if OpenCall(s.db, intent).Some? {
        OpenCallIsOk(s.db, intent);
        OpenOfferIsOk(s.db, intent);
      }
    case RereadPrice(c) =>
      if c < |s.calls| {
        assert CallOk(s.db, s.calls[c]);
        assert CallOk(s.db, Reread(s.db, s.calls[c]));
      }
    case _ =>
  }

  /** One step of anyone, from any state satisfying the invariants, undoes nothing and keeps them. */
  lemma StepIsSafe(s: State, a: Action)
    requires Invariant(s)
    ensures Invariant(Step(s, a)) && KeepsHistory(s.db, Step(s, a).db)
  {
    NextCallsOk(s, a);
    if ActionTx(s, a).Committed? {
      match a {
        case Commit(c) =>
          assert CallOk(s.db, s.calls[c]);
          CommitIsSafe(s.db, s.events, s.calls[c]);
        case Direct(statement) =>
          DirectIsSafe(s.db, s.events, statement);
      }
      CallsStay(s.db, Step(s, a).db, NextCalls(s, a));
    }
  }

  lemma {:induction false} RunIsSafe(s: State, actions: seq<Action>)
    requires Invariant(s)
    ensures Invariant(Run(s, actions)) && KeepsHistory(s.db, Run(s, actions).db)
  {
    if actions != [] {
      var before := Run(s, actions[..|actions| - 1]);
      RunIsSafe(s, actions[..|actions| - 1]);
      StepIsSafe(before, actions[|actions| - 1]);
      KeepsHistoryTransitive(s.db, before.db, Run(s, actions).db);
    }
  }

  lemma InitialIsSafe()
    ensures Invariant(Initial())
  {
  }

  lemma ReachableIsSafe(s: State)
    requires Reachable(s)
    ensures Invariant(s)
  {
    var actions :| Run(Initial(), actions) == s;
    InitialIsSafe();
    RunIsSafe(Initial(), actions);
  }
}
