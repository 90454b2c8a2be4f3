/**
 Transfers interleaved under Read Committed isolation. Every event is one statement of one
 transaction: a read sees the committed rows and the transaction's own writes; an UPDATE takes the
 row lock, waits while another transaction holds it, and adds to the latest committed balance; locks
 and writes last until the commit or the abort.
 */
module BankSteps {
  import opened Int64
  import opened Wrappers
  import opened Banking

  /** How far the transaction got: each value names the last statement that succeeded. */
  datatype Phase = Begun | SenderChecked | Validated | Debited | Credited | Recorded

  datatype Flight = Flight(req: Request, phase: Phase, senderCurrency: string, writes: map<int64, int64>)

  type FlightId = int

  datatype State = State(accounts: Accounts, ledger: seq<Transfer>, flights: map<FlightId, Flight>)

  /**
   `Advance` runs the next statement of a flight, and commits it after the last one. `Abort` stands for
   a failed statement, a cancelled request, a deadlock victim or a failed commit.
   */
  datatype Event =
    | Open(id: int64, userId: int64, currency: string)
    | Begin(t: FlightId, req: Request)
    | Advance(t: FlightId)
    | Abort(t: FlightId)

  /** The row a statement of flight `f` sees. */
  function Row(s: State, f: Flight, id: int64): Option<Account> {
    if id !in s.accounts then None
    else if id in f.writes then Some(s.accounts[id].(balance := f.writes[id]))
    else Some(s.accounts[id])
  }

  predicate LockedByOther(s: State, t: FlightId, id: int64) {
    exists u :: u in s.flights && u != t && id in s.flights[u].writes
  }

  function Drop(s: State, t: FlightId): State {
    s.(flights := s.flights - {t})
  }

  function Keep(s: State, t: FlightId, f: Flight): State {
    s.(flights := s.flights[t := f])
  }

  /** UPDATE accounts SET balance = balance + delta WHERE id = id */
  function Update(s: State, t: FlightId, id: int64, delta: int64, next: Phase): State
    requires t in s.flights
  {
    var f := s.flights[t];
    match Row(s, f, id)
    case None => Keep(s, t, f.(phase := next))
    case Some(row) =>
      if LockedByOther(s, t, id) then s
      else
        match AddBalance(row.balance, delta)
        case None => Drop(s, t)
        case Some(balance) => Keep(s, t, f.(phase := next, writes := f.writes[id := balance]))
  }

  function Install(accounts: Accounts, writes: map<int64, int64>): Accounts {
    map id | id in accounts ::
      if id in writes then accounts[id].(balance := writes[id]) else accounts[id]
  }

  function Commit(s: State, t: FlightId): State
    requires t in s.flights
  {
    var f := s.flights[t];
    State(Install(s.accounts, f.writes), s.ledger + [RowOf(f.req)], s.flights - {t})
  }

  function NextStatement(s: State, t: FlightId): State
    requires t in s.flights
  {
    var f := s.flights[t];
    match f.phase
    case Begun =>
      (match CheckSender(Row(s, f, f.req.senderId), f.req)
       case Failure(_) => Drop(s, t)
       case Success(sender) => Keep(s, t, f.(phase := SenderChecked, senderCurrency := sender.currency)))
    case SenderChecked =>
      (match CheckReceiver(Row(s, f, f.req.receiverId), f.senderCurrency, f.req)
       case Failure(_) => Drop(s, t)
       case Success(_) => Keep(s, t, f.(phase := Validated)))
    case Validated => Update(s, t, f.req.senderId, Neg(f.req.amount), Debited)
    case Debited => Update(s, t, f.req.receiverId, f.req.amount, Credited)
    case Credited =>
      // the foreign keys of the inserted row
      if f.req.senderId in s.accounts && f.req.receiverId in s.accounts then Keep(s, t, f.(phase := Recorded))
      else Drop(s, t)
    case Recorded => Commit(s, t)
  }

  /** An event that cannot happen yet, such as a statement waiting for a lock, leaves the state as it is. */
  function Step(s: State, e: Event): State {
    match e
    case Open(id, userId, currency) =>
      if id in s.accounts then s else s.(accounts := s.accounts[id := Account(userId, currency, 0)])
    case Begin(t, req) =>
      if t in s.flights then s else Keep(s, t, Flight(req, Begun, "", map[]))
    case Advance(t) =>
      if t in s.flights then NextStatement(s, t) else s
    case Abort(t) => Drop(s, t)
  }

  function Run(s: State, events: seq<Event>): State
    decreases |events|
  {
    if events == [] then s else Run(Step(s, events[0]), events[1..])
  }

  lemma {:induction false} RunPrefix(s: State, first: seq<Event>, rest: seq<Event>)
    ensures Run(s, first + rest) == Run(Run(s, first), rest)
    decreases |first|
  {
    if first == [] {
      assert first + rest == rest;
    } else {
      assert (first + rest)[1..] == first[1..] + rest;
      RunPrefix(Step(s, first[0]), first[1..], rest);
    }
  }

  // ---------- What every step keeps ----------

  predicate Endpoints(accounts: Accounts, senderId: int64, receiverId: int64, currency: string) {
    && senderId in accounts && accounts[senderId].currency == currency
    && receiverId in accounts && accounts[receiverId].currency == currency
  }

  /** The part of `Delta` that has been written so far. */
  function Written(f: Flight, id: int64): int {
    match f.phase
    case Debited => if f.req.senderId == id then Neg(f.req.amount) else 0
    case Credited | Recorded => Delta(f.req, id)
    case _ => 0
  }

  function Touched(f: Flight): set<int64> {
    match f.phase
    case Debited => {f.req.senderId}
    case Credited | Recorded => {f.req.senderId, f.req.receiverId}
    case _ => {}
  }

  /** A flight's writes are its own changes on top of the balances that are committed now. */
  predicate FlightOk(accounts: Accounts, f: Flight) {
    && f.writes.Keys == Touched(f) <= accounts.Keys
    && (forall id :: id in f.writes ==> f.writes[id] == accounts[id].balance + Written(f, id))
    && (!f.phase.Begun? ==>
          f.req.senderId in accounts && accounts[f.req.senderId].currency == f.senderCurrency)
    && (!f.phase.Begun? && !f.phase.SenderChecked? ==>
          Endpoints(accounts, f.req.senderId, f.req.receiverId, f.req.currency))
  }

  ghost predicate Inv(s: State) {
    && (forall t :: t in s.flights ==> FlightOk(s.accounts, s.flights[t]))
    && (forall t, u :: t in s.flights && u in s.flights && t != u ==>
          s.flights[t].writes.Keys !! s.flights[u].writes.Keys)
  }

  /** A database between requests: no transaction is open. */
  predicate Quiescent(s: State) {
    s.flights == map[]
  }

  /** Writing one more row under its lock keeps the flight right and the locks exclusive. */
  lemma KeepKeepsInv(s: State, t: FlightId, f: Flight)
    requires Inv(s) && t in s.flights && FlightOk(s.accounts, f)
    requires forall id :: id in f.writes ==> id in s.flights[t].writes || !LockedByOther(s, t, id)
    ensures Inv(Keep(s, t, f))
  {
    forall u | u in s.flights && u != t
      ensures s.flights[u].writes.Keys !! f.writes.Keys
    {
      assert s.flights[u].writes.Keys !! s.flights[t].writes.Keys;
    }
  }

  /** A flight once it has written the balance of one more row. */
  function Wrote(f: Flight, next: Phase, id: int64, balance: int64): Flight {
    f.(phase := next, writes := f.writes[id := balance])
  }

  /**
   An UPDATE waits for the row's lock; then it adds to the balance committed by now, on top of what the
   flight itself has written, or fails when the result is no bigint.
   */
  lemma DebitMeaning(s: State, t: FlightId)
    requires Inv(s) && t in s.flights && s.flights[t].phase.Validated?
    ensures var f := s.flights[t];
            f.req.senderId in s.accounts &&
            var balance := s.accounts[f.req.senderId].balance + Neg(f.req.amount);
            NextStatement(s, t) ==
              if LockedByOther(s, t, f.req.senderId) then s
              else if !InRange(balance) then Drop(s, t)
              else Keep(s, t, Wrote(f, Debited, f.req.senderId, balance))
  {
    var f := s.flights[t];
    assert FlightOk(s.accounts, f);
    assert Row(s, f, f.req.senderId) == Some(s.accounts[f.req.senderId]);
  }

  lemma CreditMeaning(s: State, t: FlightId)
    requires Inv(s) && t in s.flights && s.flights[t].phase.Debited?
    ensures var f := s.flights[t];
            f.req.receiverId in s.accounts &&
            var balance := s.accounts[f.req.receiverId].balance + Delta(f.req, f.req.receiverId);
            NextStatement(s, t) ==
              if LockedByOther(s, t, f.req.receiverId) then s
              else if !InRange(balance) then Drop(s, t)
              else Keep(s, t, Wrote(f, Credited, f.req.receiverId, balance))
  {
    var f := s.flights[t];
    assert FlightOk(s.accounts, f);
    var row := Row(s, f, f.req.receiverId);
    assert row.Some? && row.value.balance == s.accounts[f.req.receiverId].balance + Written(f, f.req.receiverId);
  }

  /** A flight that wrote its row is right again. */
  lemma WroteIsOk(accounts: Accounts, f: Flight, balance: int64)
    requires FlightOk(accounts, f)
    ensures f.phase.Validated? && balance == accounts[f.req.senderId].balance + Neg(f.req.amount) ==>
              FlightOk(accounts, Wrote(f, Debited, f.req.senderId, balance))
    ensures f.phase.Debited? && balance == accounts[f.req.receiverId].balance + Delta(f.req, f.req.receiverId) ==>
              FlightOk(accounts, Wrote(f, Credited, f.req.receiverId, balance))
  {
  }

  lemma UpdateKeepsInv(s: State, t: FlightId)
    requires Inv(s) && t in s.flights && (s.flights[t].phase.Validated? || s.flights[t].phase.Debited?)
    ensures Inv(NextStatement(s, t))
  {
    var f, s' := s.flights[t], NextStatement(s, t);
    if f.phase.Validated? {
      DebitMeaning(s, t);
    } else {
      CreditMeaning(s, t);
    }
    if t in s'.flights && s' != s {
      var id := if f.phase.Validated? then f.req.senderId else f.req.receiverId;
      WroteIsOk(s.accounts, f, s'.flights[t].writes[id]);
      KeepKeepsInv(s, t, s'.flights[t]);
    }
  }

  lemma CommitKeepsInv(s: State, t: FlightId)
    requires Inv(s) && t in s.flights && s.flights[t].phase.Recorded?
    ensures Inv(Commit(s, t))
  {
    var s' := Commit(s, t);
    forall u | u in s'.flights
      ensures FlightOk(s'.accounts, s'.flights[u])
    {
      assert s.flights[u].writes.Keys !! s.flights[t].writes.Keys;
    }
  }

  lemma NextStatementKeepsInv(s: State, t: FlightId)
    requires Inv(s) && t in s.flights
    ensures Inv(NextStatement(s, t))
  {
    match s.flights[t].phase
    case Validated | Debited => UpdateKeepsInv(s, t);
    case Recorded => CommitKeepsInv(s, t);
    case Begun | SenderChecked | Credited => EarlyStatementKeepsInv(s, t);
  }

  lemma EarlyStatementKeepsInv(s: State, t: FlightId)
    requires Inv(s) && t in s.flights
    requires s.flights[t].phase.Begun? || s.flights[t].phase.SenderChecked? || s.flights[t].phase.Credited?
    ensures Inv(NextStatement(s, t))
  {
    var s' := NextStatement(s, t);
    if t in s'.flights {
      KeepKeepsInv(s, t, s'.flights[t]);
    }
  }

  lemma OpenKeepsInv(s: State, id: int64, userId: int64, currency: string)
    requires Inv(s)
    ensures Inv(Step(s, Open(id, userId, currency)))
  {
    var s' := Step(s, Open(id, userId, currency));
    forall t | t in s'.flights
      ensures FlightOk(s'.accounts, s'.flights[t])
    {
      assert FlightOk(s.accounts, s.flights[t]);
    }
  }

  lemma BeginKeepsInv(s: State, t: FlightId, req: Request)
    requires Inv(s)
    ensures Inv(Step(s, Begin(t, req)))
  {
    var f := Flight(req, Begun, "", map[]);
    assert f.writes.Keys == {} && FlightOk(s.accounts, f);
  }

  lemma StepKeepsInv(s: State, e: Event)
    requires Inv(s)
    ensures Inv(Step(s, e))
  {
    match e
    case Advance(t) =>
      if t in s.flights {
        NextStatementKeepsInv(s, t);
      }
    case Open(id, userId, currency) => OpenKeepsInv(s, id, userId, currency);
    case Begin(t, req) => BeginKeepsInv(s, t, req);
    case Abort(_) =>
  }
}
