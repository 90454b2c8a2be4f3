/** When no account goes into the red, however transfers are interleaved. */
module BankSolvency {
  import opened Int64
  import opened Sums
  import opened Banking
  import opened BankSteps
  import opened BankRuns

  // ---------- Claims on an account ----------

  /** What a transfer under way claims of an account; unless `early`, only once it has passed its funds check. */
  function Claim(f: Flight, id: int64, early: bool): (amount: int)
    ensures amount >= 0
  {
    if early || !f.phase.Begun? then Taken(f.req, id) else 0
  }

  function Claims(s: State, id: int64, early: bool): map<FlightId, int> {
    map t | t in s.flights :: Claim(s.flights[t], id, early)
  }

  ghost function Claimed(s: State, id: int64, early: bool): int {
    Sum(Claims(s, id, early))
  }

  /** What the transfers past their funds check will still take from an account. */
  ghost function Reserved(s: State, id: int64): int {
    Claimed(s, id, false)
  }

  ghost predicate AllPositive(s: State) {
    forall t :: t in s.flights ==> s.flights[t].req.amount > 0
  }

  lemma ClaimsAfterKeep(s: State, t: FlightId, f: Flight, id: int64, early: bool)
    ensures Claimed(Keep(s, t, f), id, early)
         == Claimed(s, id, early)
          - (if t in s.flights then Claim(s.flights[t], id, early) else 0)
          + Claim(f, id, early)
  {
    assert Claims(Keep(s, t, f), id, early) == Claims(s, id, early)[t := Claim(f, id, early)];
    SumPut(Claims(s, id, early), t, Claim(f, id, early));
  }

  lemma ClaimsAfterDrop(s: State, accounts: Accounts, ledger: seq<Transfer>, t: FlightId, id: int64, early: bool)
    ensures Claimed(State(accounts, ledger, s.flights - {t}), id, early)
         == Claimed(s, id, early)
          - (if t in s.flights then Claim(s.flights[t], id, early) else 0)
  {
    assert Claims(State(accounts, ledger, s.flights - {t}), id, early) == Claims(s, id, early) - {t};
    SumDrop(Claims(s, id, early), t);
  }

  lemma NoClaims(s: State, id: int64, early: bool)
    requires forall t :: t in s.flights ==> Claim(s.flights[t], id, early) == 0
    ensures Claimed(s, id, early) == 0
  {
    var claims := Claims(s, id, early);
    assert forall t :: t in claims ==> claims[t] == 0;
    SumOfNothing(claims);
  }

  lemma ClaimsAreNotNegative(s: State, id: int64, early: bool)
    ensures Claimed(s, id, early) >= 0
  {
    var claims := Claims(s, id, early);
    assert forall t :: t in claims ==> claims[t] >= 0;
    SumBoundsItsTerms(claims);
  }

  // ---------- Funds checks that leave room for one another ----------

  predicate ReadsFunds(s: State, e: Event) {
    e.Advance? && e.t in s.flights && s.flights[e.t].phase.Begun?
  }

  /** The funds check would also have passed against the balance less what is already reserved. */
  ghost predicate LeavesRoom(s: State, e: Event) {
    ReadsFunds(s, e) && Taken(s.flights[e.t].req, s.flights[e.t].req.senderId) > 0 ==>
      var req := s.flights[e.t].req;
      BalanceOf(s, req.senderId) >= req.amount ==>
        BalanceOf(s, req.senderId) >= req.amount + Reserved(s, req.senderId)
  }

  /** No other transfer that takes from the same sender is between its funds check and its end. */
  predicate NoOverlap(s: State, e: Event) {
    ReadsFunds(s, e) && Taken(s.flights[e.t].req, s.flights[e.t].req.senderId) > 0 ==>
      forall u :: u in s.flights ==> Claim(s.flights[u], s.flights[e.t].req.senderId, false) == 0
  }

  ghost predicate LeavesRoomThroughout(s: State, events: seq<Event>)
    decreases |events|
  {
    events == [] || (LeavesRoom(s, events[0]) && LeavesRoomThroughout(Step(s, events[0]), events[1..]))
  }

  predicate NoOverlapThroughout(s: State, events: seq<Event>)
    decreases |events|
  {
    events == [] || (NoOverlap(s, events[0]) && NoOverlapThroughout(Step(s, events[0]), events[1..]))
  }

  /** Every account can pay all that is reserved on it. */
  ghost predicate Covered(s: State) {
    && AllPositive(s)
    && (forall id :: id in s.accounts ==> s.accounts[id].balance >= Reserved(s, id))
  }

  lemma DropKeepsCovered(s: State, t: FlightId)
    requires Covered(s)
    ensures Covered(Drop(s, t))
  {
    forall id | id in s.accounts
      ensures s.accounts[id].balance >= Reserved(Drop(s, t), id)
    {
      ClaimsAfterDrop(s, s.accounts, s.ledger, t, id, false);
    }
  }

  lemma CommitKeepsCovered(s: State, t: FlightId)
    requires Inv(s) && Covered(s) && t in s.flights && s.flights[t].phase.Recorded?
    ensures Covered(Commit(s, t))
  {
    var s' := Commit(s, t);
    CommitMeaning(s, t);
    NegIsExactExceptOnMin(s.flights[t].req.amount);
    forall id | id in s'.accounts
      ensures s'.accounts[id].balance >= Reserved(s', id)
    {
      ClaimsAfterDrop(s, s'.accounts, s'.ledger, t, id, false);
    }
  }

  /** Putting a flight back, with a new reservation only where there is room for it. */
  lemma KeepKeepsCovered(s: State, t: FlightId, f: Flight)
    requires Covered(s) && t in s.flights && f.req == s.flights[t].req && !f.phase.Begun?
    requires s.flights[t].phase.Begun? && Taken(f.req, f.req.senderId) > 0 ==>
               BalanceOf(s, f.req.senderId) >= f.req.amount + Reserved(s, f.req.senderId)
    ensures Covered(Keep(s, t, f))
  {
    forall id | id in s.accounts
      ensures s.accounts[id].balance >= Reserved(Keep(s, t, f), id)
    {
      ClaimsAfterKeep(s, t, f, id, false);
    }
  }

  /** Before the commit a statement ends its flight or carries it on with the same request. */
  lemma StatementKeepsRequest(s: State, t: FlightId)
    requires t in s.flights && !s.flights[t].phase.Recorded?
    ensures var s' := NextStatement(s, t);
            || s' == Drop(s, t)
            || (t in s'.flights && s' == Keep(s, t, s'.flights[t]) && s'.flights[t].req == s.flights[t].req)
  {
    assert Keep(s, t, s.flights[t]) == s;
  }

  /** The first statement is the funds check; past it the flight is no longer at its beginning. */
  lemma FundsCheckPassed(s: State, t: FlightId)
    requires Inv(s) && t in s.flights && s.flights[t].phase.Begun? && t in NextStatement(s, t).flights
    ensures NextStatement(s, t).flights[t].phase.SenderChecked?
    ensures BalanceOf(s, s.flights[t].req.senderId) >= s.flights[t].req.amount
  {
  }

  lemma PhasesGoOn(s: State, t: FlightId)
    requires t in s.flights && !s.flights[t].phase.Begun? && t in NextStatement(s, t).flights
    ensures !NextStatement(s, t).flights[t].phase.Begun?
  {
  }

  lemma NextStatementKeepsCovered(s: State, t: FlightId)
    requires Inv(s) && Covered(s) && t in s.flights && LeavesRoom(s, Advance(t))
    ensures Covered(NextStatement(s, t))
  {
    if s.flights[t].phase.Recorded? {
      CommitKeepsCovered(s, t);
    } else {
      StatementKeepsRequest(s, t);
      DropKeepsCovered(s, t);
      if t in NextStatement(s, t).flights {
        if s.flights[t].phase.Begun? {
          FundsCheckPassed(s, t);
        } else {
          PhasesGoOn(s, t);
        }
        KeepKeepsCovered(s, t, NextStatement(s, t).flights[t]);
      }
    }
  }

  lemma OpenKeepsCovered(s: State, e: Event)
    requires Inv(s) && Covered(s) && e.Open?
    ensures Covered(Step(s, e))
  {
    var s' := Step(s, e);
    forall id | id in s'.accounts
      ensures s'.accounts[id].balance >= Reserved(s', id)
    {
      assert Claims(s', id, false) == Claims(s, id, false);
      if id !in s.accounts {
        NoClaims(s, id, false);
      }
    }
  }

  lemma BeginKeepsCovered(s: State, e: Event)
    requires Covered(s) && e.Begin? && e.req.amount > 0
    ensures Covered(Step(s, e))
  {
    forall id | id in s.accounts && e.t !in s.flights
      ensures Reserved(Step(s, e), id) == Reserved(s, id)
    {
      ClaimsAfterKeep(s, e.t, Flight(e.req, Begun, "", map[]), id, false);
    }
  }

  lemma StepKeepsCovered(s: State, e: Event)
    requires Inv(s) && Covered(s) && LeavesRoom(s, e)
    requires e.Begin? ==> e.req.amount > 0
    ensures Covered(Step(s, e))
  {
    match e
    case Advance(t) =>
      if t in s.flights {
        NextStatementKeepsCovered(s, t);
      }
    case Open(_, _, _) => OpenKeepsCovered(s, e);
    case Begin(_, _) => BeginKeepsCovered(s, e);
    case Abort(t) =>
      DropKeepsCovered(s, t);
  }

  lemma {:induction false} RunKeepsCovered(s: State, events: seq<Event>)
    requires Inv(s) && Covered(s) && LeavesRoomThroughout(s, events)
    requires forall e :: e in events && e.Begin? ==> e.req.amount > 0
    ensures Covered(Run(s, events)) && Solvent(Run(s, events).accounts)
    decreases |events|
  {
    if events == [] {
      forall id | id in s.accounts
        ensures s.accounts[id].balance >= 0
      {
        ClaimsAreNotNegative(s, id, false);
      }
    } else {
      StepKeepsInv(s, events[0]);
      StepKeepsCovered(s, events[0]);
      RunKeepsCovered(Step(s, events[0]), events[1..]);
    }
  }

  /** Solvency, on every interleaving of positive transfers whose funds checks leave room for one another. */
  lemma SolvencyWithRoom(s: State, events: seq<Event>)
    requires Quiescent(s) && Solvent(s.accounts)
    requires forall e :: e in events && e.Begin? ==> e.req.amount > 0
    requires LeavesRoomThroughout(s, events)
    ensures Solvent(Run(s, events).accounts)
  {
    forall id | id in s.accounts
      ensures Reserved(s, id) == 0
    {
      NoClaims(s, id, false);
    }
    RunKeepsCovered(s, events);
  }

  lemma {:induction false} NoOverlapLeavesRoom(s: State, events: seq<Event>)
    requires NoOverlapThroughout(s, events)
    ensures LeavesRoomThroughout(s, events)
    decreases |events|
  {
    if events == [] {
    } else {
      if ReadsFunds(s, events[0]) && Taken(s.flights[events[0].t].req, s.flights[events[0].t].req.senderId) > 0 {
        NoClaims(s, s.flights[events[0].t].req.senderId, false);
      }
      NoOverlapLeavesRoom(Step(s, events[0]), events[1..]);
    }
  }

  /** In particular when no two transfers of one sender overlap, whatever credits land in between. */
  lemma SolvencyWithoutOverlap(s: State, events: seq<Event>)
    requires Quiescent(s) && Solvent(s.accounts)
    requires forall e :: e in events && e.Begin? ==> e.req.amount > 0
    requires NoOverlapThroughout(s, events)
    ensures Solvent(Run(s, events).accounts)
  {
    NoOverlapLeavesRoom(s, events);
    SolvencyWithRoom(s, events);
  }

  // ---------- Senders that can pay for everything they ask ----------

  /** What the transfers that a run begins are to take from an account. */
  function Pledged(events: seq<Event>, id: int64): int
    decreases |events|
  {
    if events == [] then 0
    else
      (if events[0].Begin? then Taken(events[0].req, id) else 0)
      + Pledged(events[1..], id)
  }

  ghost predicate WithinMeans(s: State, events: seq<Event>) {
    forall id: int64 :: BalanceOf(s, id) >= Pledged(events, id) + Claimed(s, id, true)
  }

  lemma AdvancePaysClaims(s: State, t: FlightId, id: int64)
    requires Inv(s) && t in s.flights
    ensures BalanceOf(NextStatement(s, t), id) - Claimed(NextStatement(s, t), id, true)
         >= BalanceOf(s, id) - Claimed(s, id, true)
  {
    var s' := NextStatement(s, t);
    if s.flights[t].phase.Recorded? {
      CommitMeaning(s, t);
      NegIsExactExceptOnMin(s.flights[t].req.amount);
      ClaimsAfterDrop(s, s'.accounts, s'.ledger, t, id, true);
    } else {
      StatementKeepsRequest(s, t);
      OtherStepsAreInvisible(s, Advance(t));
      ClaimsAfterDrop(s, s.accounts, s.ledger, t, id, true);
      if t in s'.flights {
        ClaimsAfterKeep(s, t, s'.flights[t], id, true);
      }
    }
  }

  /** A step takes no more from an account than it takes off the claims on it. */
  lemma StepPaysClaims(s: State, e: Event, id: int64)
    requires Inv(s)
    ensures BalanceOf(Step(s, e), id) - Claimed(Step(s, e), id, true)
         >= BalanceOf(s, id) - Claimed(s, id, true)
          - (if e.Begin? then Taken(e.req, id) else 0)
  {
    match e
    case Open(_, _, _) => assert Claims(Step(s, e), id, true) == Claims(s, id, true);
    case Begin(t, req) => ClaimsAfterKeep(s, t, Flight(req, Begun, "", map[]), id, true);
    case Abort(t) => ClaimsAfterDrop(s, s.accounts, s.ledger, t, id, true);
    case Advance(t) =>
      if t in s.flights {
        AdvancePaysClaims(s, t, id);
      }
  }

  lemma {:induction false} RunStaysWithinMeans(s: State, events: seq<Event>)
    requires Inv(s) && WithinMeans(s, events)
    ensures Solvent(Run(s, events).accounts)
    decreases |events|
  {
    if events == [] {
      forall id | id in s.accounts
        ensures s.accounts[id].balance >= 0
      {
        ClaimsAreNotNegative(s, id, true);
        assert BalanceOf(s, id) >= Pledged(events, id) + Claimed(s, id, true);
      }
    } else {
      var s', rest := Step(s, events[0]), events[1..];
      StepKeepsInv(s, events[0]);
      forall id: int64
        ensures BalanceOf(s', id) >= Pledged(rest, id) + Claimed(s', id, true)
      {
        StepPaysClaims(s, events[0], id);
        assert BalanceOf(s, id) >= Pledged(events, id) + Claimed(s, id, true);
      }
      RunStaysWithinMeans(s', rest);
    }
  }

  /**
   Solvency whatever the order and the amounts: when every account covers all that the transfers of a run
   are to take from it, no interleaving of that run takes it into the red.
   */
  lemma SolvencyWithinMeans(s: State, events: seq<Event>)
    requires Quiescent(s)
    requires forall id: int64 :: BalanceOf(s, id) >= Pledged(events, id)
    ensures Solvent(Run(s, events).accounts)
  {
    forall id: int64
      ensures BalanceOf(s, id) >= Pledged(events, id) + Claimed(s, id, true)
    {
      NoClaims(s, id, true);
    }
    RunStaysWithinMeans(s, events);
  }
}
