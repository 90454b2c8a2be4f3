/** An abort ends its transaction: nothing of it is left, and nothing of it happens later. */
module BankAborts {
  import opened Int64
  import opened Banking
  import opened BankSteps

  // ---------- Up to the abort ----------

  function Advances(t: FlightId, n: nat): seq<Event> {
    if n == 0 then [] else Advances(t, n - 1) + [Advance(t)]
  }

  /** Nothing but what flight `t` holds itself tells the two states apart. */
  predicate SameButFlight(s: State, s': State, t: FlightId) {
    s'.accounts == s.accounts && s'.ledger == s.ledger && s'.flights - {t} == s.flights - {t}
  }

  /** A statement adds a row to the ledger, or changes only what its own flight holds. */
  lemma StatementIsPrivate(s: State, t: FlightId)
    requires t in s.flights
    ensures |NextStatement(s, t).ledger| > |s.ledger| || SameButFlight(s, NextStatement(s, t), t)
  {
  }

  lemma {:induction false} FlightIsPrivate(s: State, t: FlightId, req: Request, n: nat)
    requires t !in s.flights
    ensures var s' := Run(s, [Begin(t, req)] + Advances(t, n));
            |s'.ledger| > |s.ledger| || SameButFlight(s, s', t)
  {
    if n == 0 {
      assert [Begin(t, req)] + Advances(t, n) == [Begin(t, req)];
      RunPrefix(s, [], [Begin(t, req)]);
    } else {
      var before := [Begin(t, req)] + Advances(t, n - 1);
      FlightIsPrivate(s, t, req, n - 1);
      assert [Begin(t, req)] + Advances(t, n) == before + [Advance(t)];
      RunPrefix(s, before, [Advance(t)]);
      if t in Run(s, before).flights {
        StatementIsPrivate(Run(s, before), t);
      }
    }
  }

  /** A flight that is aborted at any point before its commit leaves the state of before, its locks included. */
  lemma AbortUndoes(s: State, t: FlightId, req: Request, n: nat)
    requires t !in s.flights
    requires Run(s, [Begin(t, req)] + Advances(t, n)).ledger == s.ledger
    ensures Run(s, [Begin(t, req)] + Advances(t, n) + [Abort(t)]) == s
  {
    var s' := Run(s, [Begin(t, req)] + Advances(t, n));
    FlightIsPrivate(s, t, req, n);
    RunPrefix(s, [Begin(t, req)] + Advances(t, n), [Abort(t)]);
    assert s.flights - {t} == s.flights;
    assert Step(s', Abort(t)) == s;
  }

  // ---------- From the abort on ----------

  predicate Concerns(e: Event, t: FlightId) {
    match e
    case Open(_, _, _) => false
    case Begin(u, _) => u == t
    case Advance(u) => u == t
    case Abort(u) => u == t
  }

  /** The run without the events of one flight. */
  function Others(events: seq<Event>, t: FlightId): seq<Event>
    decreases |events|
  {
    if events == [] then []
    else (if Concerns(events[0], t) then [] else [events[0]]) + Others(events[1..], t)
  }

  lemma {:induction false} NobodyFlies(s: State, t: FlightId, events: seq<Event>)
    requires t !in s.flights && forall e :: e in events && e.Begin? ==> e.t != t
    ensures t !in Run(s, events).flights && Run(s, events) == Run(s, Others(events, t))
    decreases |events|
  {
    if events == [] {
    } else {
      var e := events[0];
      assert e in events;
      if Concerns(e, t) {
        assert Step(s, e) == s by {
          assert s.flights - {t} == s.flights;
        }
        NobodyFlies(s, t, events[1..]);
        assert Others(events, t) == Others(events[1..], t);
      } else {
        NobodyFlies(Step(s, e), t, events[1..]);
        assert Others(events, t) == [e] + Others(events[1..], t);
        assert Others(events, t)[1..] == Others(events[1..], t);
      }
    }
  }

  /**
   After an abort nothing of the flight happens any more: every continuation that does not begin it anew does
   what it would do without the flight's events, so no statement of the flight runs and none of its rows is added.
   */
  lemma AbortIsFinal(s: State, t: FlightId, events: seq<Event>)
    requires forall e :: e in events && e.Begin? ==> e.t != t
    ensures t !in Run(s, [Abort(t)] + events).flights
    ensures Run(s, [Abort(t)] + events) == Run(Run(s, [Abort(t)]), Others(events, t))
  {
    RunPrefix(s, [Abort(t)], events);
    NobodyFlies(Step(s, Abort(t)), t, events);
  }

  /** The rows that the flight had locked are locked by nobody afterwards. */
  lemma LocksAreFree(s: State, t: FlightId, id: int64)
    requires Inv(s) && t in s.flights && id in s.flights[t].writes
    ensures forall u :: u in Step(s, Abort(t)).flights ==> id !in Step(s, Abort(t)).flights[u].writes
    ensures Inv(Step(s, Abort(t)))
  {
    StepKeepsInv(s, Abort(t));
  }

  /** What the debit of a flight does: it is written at once, or the flight ends. */
  predicate DebitIsDone(s: State, u: FlightId, s': State)
    requires u in s.flights && s.flights[u].req.senderId in s.accounts
  {
    var f := s.flights[u];
    var balance := s.accounts[f.req.senderId].balance + Neg(f.req.amount);
    && s'.accounts == s.accounts && s'.ledger == s.ledger
    && (u in s'.flights <==> InRange(balance))
    && (u in s'.flights ==> s'.flights[u] == f.(phase := Debited, writes := map[f.req.senderId := balance]))
  }

  lemma FreeDebitIsDone(s: State, u: FlightId)
    requires Inv(s) && u in s.flights && s.flights[u].phase.Validated?
    requires forall v :: v in s.flights && v != u ==> s.flights[u].req.senderId !in s.flights[v].writes
    ensures s.flights[u].req.senderId in s.accounts && DebitIsDone(s, u, Step(s, Advance(u)))
  {
    DebitMeaning(s, u);
    assert s.flights[u].writes.Keys == {} by {
      assert FlightOk(s.accounts, s.flights[u]);
    }
  }

  /** A debit that waits for a row locked by the flight waits no longer once that is aborted. */
  lemma AbortReleasesLocks(s: State, t: FlightId, u: FlightId)
    requires Inv(s) && t in s.flights && u in s.flights && t != u
    requires s.flights[u].phase.Validated? && s.flights[u].req.senderId in s.flights[t].writes
    ensures Step(s, Advance(u)) == s
    ensures s.flights[u].req.senderId in s.accounts
    ensures DebitIsDone(s, u, Step(Step(s, Abort(t)), Advance(u)))
  {
    DebitMeaning(s, u);
    LocksAreFree(s, t, s.flights[u].req.senderId);
    FreeDebitIsDone(Step(s, Abort(t)), u);
  }
}
