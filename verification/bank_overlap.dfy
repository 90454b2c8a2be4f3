/**
 A transfer that runs alone does what the sequential rules say; transfers that overlap can spend the same
 balance more than once, and exactly when any number of them is safe in every interleaving.
 */
module BankOverlap {
  import opened Int64
  import opened Wrappers
  import opened Sums
  import opened Banking
  import opened BankSteps
  import opened BankRuns
  import opened BankSolvency

  // ---------- A transfer that runs alone, and two that overlap ----------

  predicate NoLocksBut(s: State, t: FlightId) {
    forall u :: u in s.flights && u != t ==> s.flights[u].writes == map[]
  }

  function Finish(t: FlightId): seq<Event> {
    [Advance(t), Advance(t), Advance(t), Advance(t)]
  }

  function Settled(s: State, t: FlightId, req: Request): State {
    match MoveFunds(s.accounts, req)
    case Failure(_) => Drop(s, t)
    case Success(after) => State(after, s.ledger + [RowOf(req)], s.flights - {t})
  }

  lemma RunParts(s: State, a: seq<Event>, b: seq<Event>, c: seq<Event>, d: seq<Event>)
    ensures Run(s, a + b + c + d) == Run(Run(Run(Run(s, a), b), c), d)
  {
    RunPrefix(s, a, b);
    RunPrefix(s, a + b, c);
    RunPrefix(s, a + b + c, d);
  }

  lemma RunFour(s: State, e: Event)
    ensures Run(s, [e, e, e, e]) == Step(Step(Step(Step(s, e), e), e), e)
  {
    RunParts(s, [e], [e], [e], [e]);
    assert [e, e, e, e] == [e] + [e] + [e] + [e];
  }

  /** The flight after its debit, when no other lock is in the way. */
  function DebitedFlight(accounts: Accounts, req: Request, senderCurrency: string): Flight
    requires req.senderId in accounts
  {
    Flight(req, Debited, senderCurrency, map[req.senderId := accounts[req.senderId].balance])
  }

  lemma DebitRuns(s: State, t: FlightId)
    requires t in s.flights && s.flights[t].phase.Validated? && s.flights[t].writes == map[] && NoLocksBut(s, t)
    requires s.flights[t].req.senderId in s.accounts
    ensures var f := s.flights[t];
            Step(s, Advance(t)) ==
              match Credit(s.accounts, f.req.senderId, Neg(f.req.amount))
              case Failure(_) => Drop(s, t)
              case Success(debited) => Keep(s, t, DebitedFlight(debited, f.req, f.senderCurrency))
  {
  }

  lemma CreditRuns(s: State, t: FlightId, debited: Accounts)
    requires t in s.flights && s.flights[t].phase.Debited? && NoLocksBut(s, t)
    requires s.flights[t].req.senderId in s.accounts && s.flights[t].req.receiverId in s.accounts
    requires Credit(s.accounts, s.flights[t].req.senderId, Neg(s.flights[t].req.amount)) == Success(debited)
    requires s.flights[t] == DebitedFlight(debited, s.flights[t].req, s.flights[t].senderCurrency)
    ensures var f := s.flights[t];
            Step(Step(Step(s, Advance(t)), Advance(t)), Advance(t)) ==
              match Credit(debited, f.req.receiverId, f.req.amount)
              case Failure(_) => Drop(s, t)
              case Success(after) => State(after, s.ledger + [RowOf(f.req)], s.flights - {t})
  {
    var f := s.flights[t];
    var s2 := Step(s, Advance(t));
    match Credit(debited, f.req.receiverId, f.req.amount)
    case Failure(_) => assert s2 == Drop(s, t);
    case Success(after) =>
      assert Install(s.accounts, s2.flights[t].writes) == after;
      assert Step(s2, Advance(t)).flights - {t} == s.flights - {t};
  }

  /** From validation on, with no other lock in the way, a flight runs through and moves the funds. */
  lemma FinishSettles(s: State, t: FlightId)
    requires t in s.flights && s.flights[t].phase.Validated? && s.flights[t].writes == map[] && NoLocksBut(s, t)
    requires s.flights[t].req.senderId in s.accounts && s.flights[t].req.receiverId in s.accounts
    ensures Run(s, Finish(t)) == Settled(s, t, s.flights[t].req)
  {
    var req := s.flights[t].req;
    var s1 := Step(s, Advance(t));
    RunFour(s, Advance(t));
    DebitRuns(s, t);
    match Credit(s.accounts, req.senderId, Neg(req.amount))
    case Failure(_) =>
    case Success(debited) =>
      CreditRuns(s1, t, debited);
      assert s1.flights - {t} == s.flights - {t};
  }

  function Check(t: FlightId, req: Request): seq<Event> {
    [Begin(t, req), Advance(t), Advance(t)]
  }

  lemma RunCheck(s: State, t: FlightId, req: Request)
    ensures Run(s, Check(t, req)) == Step(Step(Step(s, Begin(t, req)), Advance(t)), Advance(t))
  {
    RunPrefix(s, [Begin(t, req)], [Advance(t), Advance(t)]);
    RunPrefix(Step(s, Begin(t, req)), [Advance(t)], [Advance(t)]);
  }

  /** A flight that has passed its checks. */
  function Checked(req: Request): Flight {
    Flight(req, Validated, req.currency, map[])
  }

  lemma CheckPasses(s: State, t: FlightId, req: Request)
    requires t !in s.flights && Acceptable(s.accounts, req)
    ensures Run(s, Check(t, req)) == Keep(s, t, Checked(req))
  {
    RunCheck(s, t, req);
  }

  /** A transfer that meets no lock does exactly what the sequential rules say, or leaves no trace. */
  lemma SoloExecutes(s: State, t: FlightId, req: Request)
    requires t !in s.flights && NoLocksBut(s, t)
    ensures Run(s, Check(t, req) + Finish(t)) ==
              match Execute(s.accounts, req)
              case Failure(_) => s
              case Success(after) => State(after, s.ledger + [RowOf(req)], s.flights)
  {
    RunPrefix(s, Check(t, req), Finish(t));
    RunCheck(s, t, req);
    var checked := Run(s, Check(t, req));
    assert Step(s, Begin(t, req)).flights - {t} == s.flights;
    if t in checked.flights {
      assert checked.flights - {t} == s.flights;
      FinishSettles(checked, t);
    } else {
      RunFour(checked, Advance(t));
    }
  }

  /** Both funds checks first, then both transfers to the end. */
  function Overlapping(t: FlightId, req: Request, u: FlightId, other: Request): seq<Event> {
    Check(t, req) + Check(u, other) + Finish(t) + Finish(u)
  }

  lemma BothChecksPass(s: State, t: FlightId, req: Request, u: FlightId, other: Request)
    requires Quiescent(s) && t != u && Acceptable(s.accounts, req) && Acceptable(s.accounts, other)
    ensures Run(Run(s, Check(t, req)), Check(u, other)) == Keep(Keep(s, u, Checked(other)), t, Checked(req))
  {
    var one := Keep(s, t, Checked(req));
    CheckPasses(s, t, req);
    CheckPasses(one, u, other);
    assert Keep(one, u, Checked(other)).flights == Keep(Keep(s, u, Checked(other)), t, Checked(req)).flights;
  }

  lemma FirstFinishes(s: State, t: FlightId, req: Request, u: FlightId, other: Request)
    requires Quiescent(s) && t != u && Acceptable(s.accounts, req)
    ensures Run(Keep(Keep(s, u, Checked(other)), t, Checked(req)), Finish(t))
         == Settled(Keep(s, u, Checked(other)), t, req)
  {
    var waiting := Keep(s, u, Checked(other));
    FinishSettles(Keep(waiting, t, Checked(req)), t);
    assert Keep(waiting, t, Checked(req)).flights - {t} == waiting.flights;
    assert Drop(Keep(waiting, t, Checked(req)), t) == Drop(waiting, t);
  }

  lemma SecondFinishes(s: State, t: FlightId, req: Request, u: FlightId, other: Request)
    requires Quiescent(s) && t != u && Acceptable(s.accounts, req) && Acceptable(s.accounts, other)
    ensures var settled := Settled(Keep(s, u, Checked(other)), t, req);
            Run(settled, Finish(u)) == Settled(settled, u, other)
  {
    var settled := Settled(Keep(s, u, Checked(other)), t, req);
    assert settled.flights == map[u := Checked(other)];
    assert settled.accounts.Keys == s.accounts.Keys;
    FinishSettles(settled, u);
  }

  lemma RunOverlapping(s: State, t: FlightId, req: Request, u: FlightId, other: Request)
    requires Quiescent(s) && t != u && Acceptable(s.accounts, req) && Acceptable(s.accounts, other)
    ensures Run(s, Overlapping(t, req, u, other))
         == Settled(Settled(Keep(s, u, Checked(other)), t, req), u, other)
  {
    BothChecksPass(s, t, req, u, other);
    FirstFinishes(s, t, req, u, other);
    SecondFinishes(s, t, req, u, other);
    RunParts(s, Check(t, req), Check(u, other), Finish(t), Finish(u));
  }

  /**
   Two transfers from one account, each covered on its own, both go through when their checks overlap.
   So the account stays solvent exactly when it covers the two together: the condition on overlap in
   `SolvencyWithoutOverlap` cannot be dropped.
   */
  lemma OverlapSpendsTwice(s: State, t: FlightId, req: Request, u: FlightId, other: Request)
    requires Quiescent(s) && t != u
    requires req.amount > 0 && Acceptable(s.accounts, req) && Fits(s.accounts, req)
    requires other.amount > 0 && Acceptable(s.accounts, other) && Fits(s.accounts, other)
    requires other.senderId == req.senderId
    requires req.receiverId != req.senderId && other.receiverId != req.senderId
    requires other.receiverId == req.receiverId ==>
               InRange(s.accounts[req.receiverId].balance + req.amount + other.amount)
    ensures var s' := Run(s, Overlapping(t, req, u, other));
            && s'.flights == map[]
            && s'.ledger == s.ledger + [RowOf(req), RowOf(other)]
            && BalanceOf(s', req.senderId) == BalanceOf(s, req.senderId) - req.amount - other.amount
            && (BalanceOf(s', req.senderId) >= 0 <==> req.amount + other.amount <= BalanceOf(s, req.senderId))
  {
    RunOverlapping(s, t, req, u, other);
    NegIsExactExceptOnMin(req.amount);
    NegIsExactExceptOnMin(other.amount);
  }

  // ---------- Any number of transfers ----------

  /** Requests that a run may begin, each under its own number. */
  type Requests = map<FlightId, Request>

  function TakenAmounts(reqs: Requests, id: int64): map<FlightId, int> {
    map t | t in reqs :: Taken(reqs[t], id)
  }

  function BroughtAmounts(reqs: Requests, id: int64): map<FlightId, int> {
    map t | t in reqs :: Brought(reqs[t], id)
  }

  /** What the requests together take from an account, and what they bring it. */
  ghost function Outgoing(reqs: Requests, id: int64): int {
    Sum(TakenAmounts(reqs, id))
  }

  ghost function Incoming(reqs: Requests, id: int64): int {
    Sum(BroughtAmounts(reqs, id))
  }

  /** A run that begins no other transfers than these, and each at most once. */
  predicate BeginsOnly(events: seq<Event>, reqs: Requests)
    decreases |events|
  {
    events == [] ||
    match events[0]
    case Begin(t, req) => t in reqs && reqs[t] == req && BeginsOnly(events[1..], reqs - {t})
    case _ => BeginsOnly(events[1..], reqs)
  }

  predicate AllAcceptable(accounts: Accounts, reqs: Requests) {
    forall t :: t in reqs ==> Acceptable(accounts, reqs[t])
  }

  ghost predicate IsPart(part: Requests, reqs: Requests) {
    forall t :: t in part ==> t in reqs && part[t] == reqs[t]
  }

  lemma TakeOut(reqs: Requests, t: FlightId, id: int64)
    requires t in reqs
    ensures Outgoing(reqs, id) == Outgoing(reqs - {t}, id) + Taken(reqs[t], id)
    ensures Incoming(reqs, id) == Incoming(reqs - {t}, id) + Brought(reqs[t], id)
  {
    assert TakenAmounts(reqs - {t}, id) == TakenAmounts(reqs, id) - {t};
    assert BroughtAmounts(reqs - {t}, id) == BroughtAmounts(reqs, id) - {t};
    SumDrop(TakenAmounts(reqs, id), t);
    SumDrop(BroughtAmounts(reqs, id), t);
  }

  lemma NotNegative(reqs: Requests, id: int64)
    ensures Outgoing(reqs, id) >= 0 && Incoming(reqs, id) >= 0
  {
    var taken, brought := TakenAmounts(reqs, id), BroughtAmounts(reqs, id);
    assert forall t :: t in taken ==> taken[t] >= 0;
    assert forall t :: t in brought ==> brought[t] >= 0;
    SumBoundsItsTerms(taken);
    SumBoundsItsTerms(brought);
  }

  lemma NothingTaken(reqs: Requests, id: int64)
    requires forall t :: t in reqs ==> Taken(reqs[t], id) == 0
    ensures Outgoing(reqs, id) == 0
  {
    var taken := TakenAmounts(reqs, id);
    assert forall t :: t in taken ==> taken[t] == 0;
    SumOfNothing(taken);
  }

  lemma NothingBrought(reqs: Requests, id: int64)
    requires forall t :: t in reqs ==> Brought(reqs[t], id) == 0
    ensures Incoming(reqs, id) == 0
  {
    var brought := BroughtAmounts(reqs, id);
    assert forall t :: t in brought ==> brought[t] == 0;
    SumOfNothing(brought);
  }

  // ---------- A run that lets all of them through ----------

  lemma {:induction false} EndsWithoutBegins(events: seq<Event>, rest: seq<Event>, reqs: Requests)
    requires BeginsOnly(events, reqs) && forall e :: e in rest ==> !e.Begin?
    ensures BeginsOnly(events + rest, reqs)
    decreases |events|, |rest|
  {
    if events == [] && rest == [] {
    } else if events == [] {
      assert events + rest == rest && [] + rest[1..] == rest[1..];
      EndsWithoutBegins([], rest[1..], reqs);
    } else {
      assert (events + rest)[1..] == events[1..] + rest;
      EndsWithoutBegins(events[1..], rest, if events[0].Begin? then reqs - {events[0].t} else reqs);
    }
  }

  lemma StartsWithCheck(t: FlightId, rest: seq<Event>, reqs: Requests)
    requires t in reqs && BeginsOnly(rest, reqs - {t})
    ensures BeginsOnly(Check(t, reqs[t]) + rest, reqs)
  {
    var events := Check(t, reqs[t]) + rest;
    assert events[1..][1..][1..] == rest;
  }

  /** The balances before, less what the requests take, plus what they bring. */
  ghost predicate Moved(accounts: Accounts, after: Accounts, reqs: Requests) {
    && after.Keys == accounts.Keys
    && forall id :: id in accounts ==>
         after[id].balance == accounts[id].balance - Outgoing(reqs, id) + Incoming(reqs, id)
  }

  /** What the requests take and bring would fit each balance by itself. */
  ghost predicate AllFit(accounts: Accounts, reqs: Requests) {
    forall id :: id in accounts ==>
      InRange(accounts[id].balance - Outgoing(reqs, id)) && InRange(accounts[id].balance + Incoming(reqs, id))
  }

  lemma LastFitsOne(accounts: Accounts, before: Accounts, reqs: Requests, t: FlightId, id: int64)
    requires t in reqs && AllFit(accounts, reqs) && Moved(accounts, before, reqs - {t}) && id in accounts
    requires reqs[t].receiverId != reqs[t].senderId
    ensures before[id].balance + Delta(reqs[t], id) == accounts[id].balance - Outgoing(reqs, id) + Incoming(reqs, id)
    ensures InRange(before[id].balance + Delta(reqs[t], id))
  {
    TakeOut(reqs, t, id);
    DeltaSplits(reqs[t], id);
    NotNegative(reqs, id);
  }

  /** After all the others the last one still fits both balances. */
  lemma LastFits(accounts: Accounts, before: Accounts, reqs: Requests, t: FlightId)
    requires t in reqs && AllFit(accounts, reqs) && Moved(accounts, before, reqs - {t})
    requires reqs[t].senderId in accounts && reqs[t].receiverId in accounts
    requires reqs[t].receiverId != reqs[t].senderId
    ensures Fits(before, reqs[t])
  {
    LastFitsOne(accounts, before, reqs, t, reqs[t].senderId);
    LastFitsOne(accounts, before, reqs, t, reqs[t].receiverId);
  }

  lemma MovedGrows(accounts: Accounts, before: Accounts, after: Accounts, reqs: Requests, t: FlightId)
    requires t in reqs && AllFit(accounts, reqs) && Moved(accounts, before, reqs - {t}) && after.Keys == before.Keys
    requires reqs[t].receiverId != reqs[t].senderId
    requires forall id :: id in before ==> after[id].balance == before[id].balance + Delta(reqs[t], id)
    ensures Moved(accounts, after, reqs)
  {
    forall id | id in accounts
      ensures after[id].balance == accounts[id].balance - Outgoing(reqs, id) + Incoming(reqs, id)
    {
      LastFitsOne(accounts, before, reqs, t, id);
    }
  }

  lemma LastMoves(accounts: Accounts, before: Accounts, reqs: Requests, t: FlightId)
    requires t in reqs && AllFit(accounts, reqs) && Moved(accounts, before, reqs - {t})
    requires reqs[t].senderId in accounts && reqs[t].receiverId in accounts
    requires reqs[t].receiverId != reqs[t].senderId
    ensures MoveFunds(before, reqs[t]).Success? && Moved(accounts, MoveFunds(before, reqs[t]).value, reqs)
  {
    LastFits(accounts, before, reqs, t);
    FundsMove(before, reqs[t]);
    MovedGrows(accounts, before, MoveFunds(before, reqs[t]).value, reqs, t);
  }

  /** A flight that is checked, waits while others run to their end, and then finishes. */
  lemma FinishesAfter(s: State, t: FlightId, req: Request, inner: seq<Event>)
    requires t !in s.flights && (forall u :: u in s.flights ==> s.flights[u].writes == map[])
    requires Acceptable(s.accounts, req)
    requires var before := Run(Keep(s, t, Checked(req)), inner);
             && before.flights == Keep(s, t, Checked(req)).flights
             && before.accounts.Keys == s.accounts.Keys
             && MoveFunds(before.accounts, req).Success?
    ensures var before := Run(Keep(s, t, Checked(req)), inner);
            Run(s, Check(t, req) + (inner + Finish(t)))
              == State(MoveFunds(before.accounts, req).value, before.ledger + [RowOf(req)], s.flights)
  {
    var checked := Keep(s, t, Checked(req));
    var before := Run(checked, inner);
    CheckPasses(s, t, req);
    FinishSettles(before, t);
    assert before.flights - {t} == s.flights;
    RunPrefix(checked, inner, Finish(t));
    RunPrefix(s, Check(t, req), inner + Finish(t));
  }

  /** New requests between two accounts each, acceptable by themselves, on a database without locks. */
  ghost predicate Ready(s: State, reqs: Requests) {
    && (forall t :: t in reqs ==> t !in s.flights && reqs[t].receiverId != reqs[t].senderId)
    && (forall u :: u in s.flights ==> s.flights[u].writes == map[])
    && AllAcceptable(s.accounts, reqs)
  }

  /** All the requests, each once. */
  ghost predicate IsOrder(order: seq<FlightId>, reqs: Requests) {
    && (forall i :: 0 <= i < |order| ==> order[i] in reqs)
    && (forall t :: t in reqs ==> t in order)
    && (forall i, j :: 0 <= i < j < |order| ==> order[i] != order[j])
  }

  function RowsInOrder(order: seq<FlightId>, reqs: Requests): seq<Transfer>
    requires forall i :: 0 <= i < |order| ==> order[i] in reqs
  {
    seq(|order|, i requires 0 <= i < |order| => RowOf(reqs[order[i]]))
  }

  /** The run begins these requests and ends with the row of each added once and all amounts moved. */
  ghost predicate LetsThrough(s: State, events: seq<Event>, reqs: Requests, order: seq<FlightId>) {
    && BeginsOnly(events, reqs) && IsOrder(order, reqs)
    && var s' := Run(s, events);
       && s'.flights == s.flights
       && s'.ledger == s.ledger + RowsInOrder(order, reqs)
       && Moved(s.accounts, s'.accounts, reqs)
  }

  lemma RestFits(accounts: Accounts, reqs: Requests, t: FlightId)
    requires t in reqs && AllFit(accounts, reqs)
    ensures AllFit(accounts, reqs - {t})
  {
    forall id | id in accounts
      ensures InRange(accounts[id].balance - Outgoing(reqs - {t}, id))
      ensures InRange(accounts[id].balance + Incoming(reqs - {t}, id))
    {
      TakeOut(reqs, t, id);
      NotNegative(reqs - {t}, id);
    }
  }

  lemma RestIsReady(s: State, reqs: Requests, t: FlightId)
    requires t in reqs && Ready(s, reqs)
    ensures Ready(Keep(s, t, Checked(reqs[t])), reqs - {t})
  {
  }

  lemma BeginsOneMore(reqs: Requests, t: FlightId, inner: seq<Event>)
    requires t in reqs && BeginsOnly(inner, reqs - {t})
    ensures BeginsOnly(Check(t, reqs[t]) + (inner + Finish(t)), reqs)
  {
    EndsWithoutBegins(inner, Finish(t), reqs - {t});
    StartsWithCheck(t, inner + Finish(t), reqs);
  }

  lemma OrderGrows(reqs: Requests, t: FlightId, order: seq<FlightId>, ledger: seq<Transfer>)
    requires t in reqs && IsOrder(order, reqs - {t})
    ensures IsOrder(order + [t], reqs)
    ensures ledger + RowsInOrder(order + [t], reqs) == ledger + RowsInOrder(order, reqs - {t}) + [RowOf(reqs[t])]
  {
    assert RowsInOrder(order + [t], reqs) == RowsInOrder(order, reqs - {t}) + [RowOf(reqs[t])];
    forall u | u in reqs
      ensures u in order + [t]
    {
      assert u != t ==> u in reqs - {t};
    }
  }

  /** What finishing the flight last of all leaves behind. */
  lemma LastGoesThrough(s: State, reqs: Requests, t: FlightId, inner: seq<Event>)
    requires t in reqs && Ready(s, reqs) && AllFit(s.accounts, reqs)
    requires var before := Run(Keep(s, t, Checked(reqs[t])), inner);
             && before.flights == Keep(s, t, Checked(reqs[t])).flights
             && Moved(s.accounts, before.accounts, reqs - {t})
    ensures var s' := Run(s, Check(t, reqs[t]) + (inner + Finish(t)));
            && s'.flights == s.flights
            && s'.ledger == Run(Keep(s, t, Checked(reqs[t])), inner).ledger + [RowOf(reqs[t])]
            && Moved(s.accounts, s'.accounts, reqs)
  {
    assert t !in s.flights && Acceptable(s.accounts, reqs[t]);
    LastMoves(s.accounts, Run(Keep(s, t, Checked(reqs[t])), inner).accounts, reqs, t);
    FinishesAfter(s, t, reqs[t], inner);
  }

  /**
   Requests that are each acceptable by themselves can all go through, whatever they add up to: check one
   of them, let the others check and finish meanwhile, then finish it.
   */
  lemma {:induction false} AllGoThrough(s: State, reqs: Requests) returns (events: seq<Event>, order: seq<FlightId>)
    requires Ready(s, reqs) && AllFit(s.accounts, reqs)
    ensures LetsThrough(s, events, reqs, order)
    decreases |reqs|
  {
    if reqs == map[] {
      events, order := [], [];
      forall id
        ensures Outgoing(reqs, id) == 0 && Incoming(reqs, id) == 0
      {
        NothingTaken(reqs, id);
        NothingBrought(reqs, id);
      }
      assert s.ledger + RowsInOrder(order, reqs) == s.ledger;
    } else {
      var t := SomeKey(reqs);
      RestIsReady(s, reqs, t);
      RestFits(s.accounts, reqs, t);
      var inner, rest := AllGoThrough(Keep(s, t, Checked(reqs[t])), reqs - {t});
      LastGoesThrough(s, reqs, t, inner);
      BeginsOneMore(reqs, t, inner);
      OrderGrows(reqs, t, rest, s.ledger);
      events, order := Check(t, reqs[t]) + (inner + Finish(t)), rest + [t];
    }
  }

  // ---------- When every interleaving is safe ----------

  lemma {:induction false} PledgesAreAsked(events: seq<Event>, reqs: Requests, id: int64)
    requires BeginsOnly(events, reqs)
    ensures Pledged(events, id) <= Outgoing(reqs, id)
    decreases |events|
  {
    if events == [] {
      NotNegative(reqs, id);
    } else if events[0].Begin? {
      TakeOut(reqs, events[0].t, id);
      PledgesAreAsked(events[1..], reqs - {events[0].t}, id);
    } else {
      PledgesAreAsked(events[1..], reqs, id);
    }
  }

  lemma {:induction false} BeginsOnlyPart(events: seq<Event>, part: Requests, reqs: Requests)
    requires BeginsOnly(events, part) && IsPart(part, reqs)
    ensures BeginsOnly(events, reqs)
    decreases |events|
  {
    if events == [] {
    } else if events[0].Begin? {
      BeginsOnlyPart(events[1..], part - {events[0].t}, reqs - {events[0].t});
    } else {
      BeginsOnlyPart(events[1..], part, reqs);
    }
  }

  /** The requests take more from the account than it has, and would not without any one of them. */
  ghost predicate Overdraws(reqs: Requests, id: int64, balance: int64) {
    && Outgoing(reqs, id) > balance
    && forall t :: t in reqs ==> Outgoing(reqs - {t}, id) <= balance
  }

  /** Requests that take more than the account has include a smallest part that still does. */
  lemma {:induction false} OverdrawingPart(reqs: Requests, id: int64, balance: int64) returns (part: Requests)
    requires Outgoing(reqs, id) > balance
    ensures IsPart(part, reqs) && Overdraws(part, id, balance)
    ensures forall t :: t in part ==>
              Taken(part[t], id) > 0 && balance < Outgoing(part, id) <= balance + Taken(part[t], id)
    ensures forall a :: Incoming(part, a) <= Incoming(reqs, a)
    decreases |reqs|
  {
    if t :| t in reqs && Outgoing(reqs - {t}, id) > balance {
      part := OverdrawingPart(reqs - {t}, id, balance);
      forall a
        ensures Incoming(reqs - {t}, a) <= Incoming(reqs, a)
      {
        TakeOut(reqs, t, a);
      }
    } else {
      part := reqs;
      forall t | t in reqs
        ensures Taken(reqs[t], id) > 0 && Outgoing(reqs, id) <= balance + Taken(reqs[t], id)
      {
        TakeOut(reqs, t, id);
      }
    }
  }

  /** Only -2^63 takes from both accounts, and then from each of them more than any balance. */
  lemma TakesFromOne(req: Request, id: int64, other: int64)
    requires Taken(req, id) > 0 && other != id
    ensures Brought(req, id) == 0 && Taken(req, id) <= -MIN
    ensures Taken(req, other) == 0 || Taken(req, other) == Taken(req, id) == -MIN
  {
    NegIsExactExceptOnMin(req.amount);
  }

  /** What a smallest overdrawing part takes from any other account. */
  lemma OthersBear(part: Requests, id: int64, balance: int64, other: int64)
    requires Overdraws(part, id, balance) && other != id
    requires forall t :: t in part ==> Taken(part[t], id) > 0
    ensures Outgoing(part, other) <= -MIN
  {
    if t :| t in part && Taken(part[t], other) > 0 {
      TakesFromOne(part[t], id, other);
      TakeOut(part, t, other);
      forall u | u in part
        ensures u == t
      {
        if u != t {
          TakeOut(part - {u}, t, id);
          NotNegative(part - {u} - {t}, id);
          assert false;
        }
      }
      NothingTaken(part - {t}, other);
    } else {
      NothingTaken(part, other);
    }
  }

  lemma PartFits(accounts: Accounts, reqs: Requests, part: Requests, id: int64)
    requires Solvent(accounts) && id in accounts
    requires Overdraws(part, id, accounts[id].balance)
    requires forall t :: t in part ==>
               Taken(part[t], id) > 0 && Outgoing(part, id) <= accounts[id].balance + Taken(part[t], id)
    requires forall a :: a in accounts ==> InRange(accounts[a].balance + Incoming(reqs, a))
    requires forall a :: Incoming(part, a) <= Incoming(reqs, a)
    ensures AllFit(accounts, part)
  {
    forall a | a in accounts
      ensures InRange(accounts[a].balance - Outgoing(part, a)) && InRange(accounts[a].balance + Incoming(part, a))
    {
      NotNegative(part, a);
      if a == id {
        if part == map[] {
          NothingTaken(part, id);
          assert false;
        }
        var t := SomeKey(part);
        TakesFromOne(part[t], id, if id == 0 then 1 else 0);
      } else {
        OthersBear(part, id, accounts[id].balance, a);
      }
    }
  }

  /** An account that is not covered has a part of the requests against it that overdraws it and fits everywhere. */
  lemma FittingPart(accounts: Accounts, reqs: Requests, id: int64) returns (part: Requests)
    requires Solvent(accounts)
    requires forall a :: a in accounts ==> InRange(accounts[a].balance + Incoming(reqs, a))
    requires id in accounts && Outgoing(reqs, id) > accounts[id].balance
    ensures IsPart(part, reqs) && AllFit(accounts, part) && Outgoing(part, id) > accounts[id].balance
    ensures forall t :: t in part ==> Taken(part[t], id) > 0
  {
    part := OverdrawingPart(reqs, id, accounts[id].balance);
    PartFits(accounts, reqs, part, id);
  }

  lemma PartGoesRed(s: State, part: Requests, id: int64) returns (events: seq<Event>)
    requires Quiescent(s) && AllAcceptable(s.accounts, part) && AllFit(s.accounts, part)
    requires forall t :: t in part ==> Taken(part[t], id) > 0
    requires id in s.accounts && Outgoing(part, id) > s.accounts[id].balance
    ensures BeginsOnly(events, part) && !Solvent(Run(s, events).accounts)
  {
    forall t | t in part
      ensures Brought(part[t], id) == 0
    {
      TakesFromOne(part[t], id, if id == 0 then 1 else 0);
    }
    NothingBrought(part, id);
    var order;
    events, order := AllGoThrough(s, part);
    assert Run(s, events).accounts[id].balance < 0;
  }

  lemma UncoveredGoesRed(s: State, reqs: Requests, id: int64) returns (events: seq<Event>)
    requires Quiescent(s) && Solvent(s.accounts) && AllAcceptable(s.accounts, reqs)
    requires forall a :: a in s.accounts ==> InRange(s.accounts[a].balance + Incoming(reqs, a))
    requires id in s.accounts && Outgoing(reqs, id) > s.accounts[id].balance
    ensures BeginsOnly(events, reqs) && !Solvent(Run(s, events).accounts)
  {
    var part := FittingPart(s.accounts, reqs, id);
    events := PartGoesRed(s, part, id);
    BeginsOnlyPart(events, part, reqs);
  }

  /** Each account can pay all that the requests take from it. */
  ghost predicate Covers(accounts: Accounts, reqs: Requests) {
    forall id :: id in accounts ==> Outgoing(reqs, id) <= accounts[id].balance
  }

  /** No run that begins only these requests, each at most once, takes an account into the red. */
  ghost predicate SafeInAnyOrder(s: State, reqs: Requests) {
    forall events :: BeginsOnly(events, reqs) ==> Solvent(Run(s, events).accounts)
  }

  lemma CoveredIsSafe(s: State, reqs: Requests, events: seq<Event>)
    requires Quiescent(s) && AllAcceptable(s.accounts, reqs) && Covers(s.accounts, reqs) && BeginsOnly(events, reqs)
    ensures Solvent(Run(s, events).accounts)
  {
    forall id: int64
      ensures BalanceOf(s, id) >= Pledged(events, id)
    {
      PledgesAreAsked(events, reqs, id);
      if id !in s.accounts {
        NothingTaken(reqs, id);
      }
    }
    SolvencyWithinMeans(s, events);
  }

  /**
   Any number of requests for any amounts, acceptable one by one and with credits that fit: they keep
   everyone solvent in every possible interleaving exactly when each account covers all that is taken from it.
   */
  lemma SafeIffCovered(s: State, reqs: Requests)
    requires Quiescent(s) && AllAcceptable(s.accounts, reqs)
    requires forall id :: id in s.accounts ==> InRange(s.accounts[id].balance + Incoming(reqs, id))
    ensures SafeInAnyOrder(s, reqs) <==> Covers(s.accounts, reqs)
  {
    if Covers(s.accounts, reqs) {
      forall events | BeginsOnly(events, reqs)
        ensures Solvent(Run(s, events).accounts)
      {
        CoveredIsSafe(s, reqs, events);
      }
    } else {
      var id :| id in s.accounts && Outgoing(reqs, id) > s.accounts[id].balance;
      var events: seq<Event> := [];
      if Solvent(s.accounts) {
        events := UncoveredGoesRed(s, reqs, id);
      }
      assert BeginsOnly(events, reqs) && !Solvent(Run(s, events).accounts);
    }
  }
}
