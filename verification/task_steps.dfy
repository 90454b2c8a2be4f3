/**
 Task requests interleaved statement by statement. No transaction spans the statements of a request: what
 it read may be changed by others before it writes.
 */
module TaskSteps {
  import opened Int64
  import opened Wrappers
  import opened Tasks
  import opened TaskService

  /** How far a request got: its first read succeeded, and for an update or delete the second one. */
  datatype Phase = Arrived | Admitted | Confirmed

  datatype Flight = Flight(req: Request, phase: Phase)

  datatype Answer = Answer(req: Request, code: int, now: int)

  type RequestId = int

  datatype Server = Server(tables: State, flights: map<RequestId, Flight>, answers: map<RequestId, Answer>)

  /** `Advance` runs the next statement of a request, at a time of the database's clock. */
  datatype Event =
    | Arrive(t: RequestId, req: Request)
    | Advance(t: RequestId, now: int, fails: bool)

  /** The request ends: it leaves these tables, and the client gets the code. */
  function End(s: Server, t: RequestId, tables: State, code: int, now: int): Server
    requires t in s.flights
  {
    Server(tables, s.flights - {t}, s.answers[t := Answer(s.flights[t].req, code, now)])
  }

  function Proceed(s: Server, t: RequestId, phase: Phase): Server
    requires t in s.flights
  {
    s.(flights := s.flights[t := s.flights[t].(phase := phase)])
  }

  function CreateStatement(s: Server, t: RequestId, task: Task, now: int, fails: bool): Server
    requires t in s.flights
  {
    match Validate(task)
    case Failure(e) => End(s, t, s.tables, ErrorCode(e), now)
    case Success(valid) =>
      if s.flights[t].phase.Arrived? then
        if fails || valid.userId !in s.tables.users then End(s, t, s.tables, NOT_FOUND, now)
        else Proceed(s, t, Admitted)
      else if fails || s.tables.lastId >= MAX then End(s, t, s.tables, INTERNAL, now)
      else End(s, t, InsertRow(s.tables, valid, now), CREATED, now)
  }

  /** The handler's read: a task of someone else ends the request. */
  function FirstRead(s: Server, t: RequestId, id: int64, user: int64, now: int, fails: bool): Server
    requires t in s.flights
  {
    match TaskForUser(s.tables, id, user, fails)
    case Failure(e) => End(s, t, s.tables, ErrorCode(e), now)
    case Success(_) => Proceed(s, t, Admitted)
  }

  /** The service's read: the task only has to exist. */
  function SecondRead(s: Server, t: RequestId, id: int64, now: int, fails: bool): Server
    requires t in s.flights
  {
    match GetTask(s.tables, id, fails)
    case Failure(e) => End(s, t, s.tables, ErrorCode(e), now)
    case Success(_) => Proceed(s, t, Confirmed)
  }

  function UpdateStatement(s: Server, t: RequestId, task: Task, now: int, fails: bool): Server
    requires t in s.flights
  {
    if task.id == 0 then End(s, t, s.tables, UNPROCESSABLE, now)
    else
      match Validate(task)
      case Failure(e) => End(s, t, s.tables, ErrorCode(e), now)
      case Success(valid) =>
        if s.flights[t].phase.Admitted? then SecondRead(s, t, task.id, now, fails)
        else if fails then End(s, t, s.tables, INTERNAL, now)
        else End(s, t, UpdateRow(s.tables, valid, now), OK, now)
  }

  function DeleteStatement(s: Server, t: RequestId, id: int64, now: int, fails: bool): Server
    requires t in s.flights
  {
    if s.flights[t].phase.Admitted? then SecondRead(s, t, id, now, fails)
    else if fails then End(s, t, s.tables, INTERNAL, now)
    else End(s, t, s.tables.(tasks := s.tables.tasks - {id}), OK, now)
  }

  function NextStatement(s: Server, t: RequestId, now: int, fails: bool): Server
    requires t in s.flights
  {
    match s.flights[t].req
    case CreateTask(user, None) => End(s, t, s.tables, BAD_REQUEST, now)
    case CreateTask(user, Some(task)) => CreateStatement(s, t, task.(userId := user), now, fails)
    case UpdateTask(user, None, _) => End(s, t, s.tables, BAD_REQUEST, now)
    case UpdateTask(user, Some(id), body) =>
      if s.flights[t].phase.Arrived? then FirstRead(s, t, id, user, now, fails)
      else if body.None? then End(s, t, s.tables, BAD_REQUEST, now)
      else UpdateStatement(s, t, body.value.(id := id, userId := user), now, fails)
    case DeleteTask(user, None) => End(s, t, s.tables, BAD_REQUEST, now)
    case DeleteTask(user, Some(id)) =>
      if s.flights[t].phase.Arrived? then FirstRead(s, t, id, user, now, fails)
      else DeleteStatement(s, t, id, now, fails)
  }

  function Step(s: Server, e: Event): Server {
    match e
    case Arrive(t, req) =>
      if t in s.flights || t in s.answers then s else s.(flights := s.flights[t := Flight(req, Arrived)])
    case Advance(t, now, fails) =>
      if t in s.flights then NextStatement(s, t, now, fails) else s
  }

  function Run(s: Server, events: seq<Event>): Server {
    if events == [] then s else Step(Run(s, events[..|events| - 1]), events[|events| - 1])
  }

  // ---------- What a request may rely on between its statements ----------

  /** The number was given out, and if the task is still there it is the user's. */
  predicate OwnOrGone(tables: State, id: int64, user: int64) {
    id <= tables.lastId && (id in tables.tasks ==> tables.tasks[id].userId == user)
  }

  predicate FlightOk(tables: State, f: Flight) {
    f.phase.Arrived? ||
    match f.req
    case CreateTask(user, body) => f.phase.Admitted? && user in tables.users
    case UpdateTask(user, id, _) => id.Some? && OwnOrGone(tables, id.value, user)
    case DeleteTask(user, id) => id.Some? && OwnOrGone(tables, id.value, user)
  }

  ghost predicate Inv(s: Server) {
    && Good(s.tables)
    && (forall t :: t in s.flights ==> FlightOk(s.tables, s.flights[t]) && t !in s.answers)
  }

  /** Since owners never change and numbers never come back, nobody's progress is spoilt by others. */
  lemma FlightStaysOk(tables: State, tables': State, f: Flight)
    requires FlightOk(tables, f) && Continues(tables, tables')
    ensures FlightOk(tables', f)
  {
  }

  predicate Succeeded(code: int) {
    code == OK || code == CREATED
  }

  /** An UPDATE or DELETE finds its row; an INSERT needs none. */
  predicate FindsRow(tables: State, req: Request) {
    match req
    case CreateTask(_, _) => true
    case UpdateTask(_, id, _) => id.Some? && id.value in tables.tasks
    case DeleteTask(_, id) => id.Some? && id.value in tables.tasks
  }

  /**
   A statement reads, and its request goes on; or it ends its request. Only the write of a request that
   succeeds changes tables, just as the whole request would at that moment, and the answers differ only when
   the row is gone by then.
   */
  predicate StatementOk(s: Server, t: RequestId, now: int, s': Server)
    requires t in s.flights
  {
    if t in s'.flights then s' == Proceed(s, t, s'.flights[t].phase) && FlightOk(s.tables, s'.flights[t])
    else
      && t in s'.answers
      && var code := s'.answers[t].code;
         && s' == End(s, t, s'.tables, code, now)
         && (!Succeeded(code) ==> s'.tables == s.tables)
         && (Succeeded(code) ==>
               && s'.tables == Handle(s.tables, s.flights[t].req, now, NO_FAULTS).0
               && (code == Handle(s.tables, s.flights[t].req, now, NO_FAULTS).1 <==>
                     FindsRow(s.tables, s.flights[t].req)))
  }

  lemma CreateIsOk(s: Server, t: RequestId, user: int64, task: Task, now: int, fails: bool)
    requires Inv(s) && t in s.flights && s.flights[t].req == CreateTask(user, Some(task))
    ensures StatementOk(s, t, now, CreateStatement(s, t, task.(userId := user), now, fails))
  {
  }

  lemma FirstReadIsOk(s: Server, t: RequestId, id: int64, user: int64, now: int, fails: bool)
    requires Inv(s) && t in s.flights
    requires s.flights[t].req == DeleteTask(user, Some(id))
             || (s.flights[t].req.UpdateTask? && s.flights[t].req.user == user && s.flights[t].req.id == Some(id))
    ensures StatementOk(s, t, now, FirstRead(s, t, id, user, now, fails))
  {
  }

  lemma UpdateIsOk(s: Server, t: RequestId, user: int64, id: int64, task: Task, now: int, fails: bool)
    requires Inv(s) && t in s.flights && s.flights[t].req == UpdateTask(user, Some(id), Some(task))
    requires !s.flights[t].phase.Arrived?
    ensures StatementOk(s, t, now, UpdateStatement(s, t, task.(id := id, userId := user), now, fails))
  {
    assert FlightOk(s.tables, s.flights[t]);
  }

  lemma DeleteIsOk(s: Server, t: RequestId, user: int64, id: int64, now: int, fails: bool)
    requires Inv(s) && t in s.flights && s.flights[t].req == DeleteTask(user, Some(id))
    requires !s.flights[t].phase.Arrived?
    ensures StatementOk(s, t, now, DeleteStatement(s, t, id, now, fails))
  {
    assert FlightOk(s.tables, s.flights[t]);
    if id !in s.tables.tasks {
      assert s.tables.tasks - {id} == s.tables.tasks;
    }
  }

  lemma NextStatementIsOk(s: Server, t: RequestId, now: int, fails: bool)
    requires Inv(s) && t in s.flights
    ensures StatementOk(s, t, now, NextStatement(s, t, now, fails))
  {
    match s.flights[t].req
    case CreateTask(user, Some(task)) => CreateIsOk(s, t, user, task, now, fails);
    case UpdateTask(user, Some(id), body) =>
      if s.flights[t].phase.Arrived? {
        FirstReadIsOk(s, t, id, user, now, fails);
      } else if body.Some? {
        UpdateIsOk(s, t, user, id, body.value, now, fails);
      }
    case DeleteTask(user, Some(id)) =>
      if s.flights[t].phase.Arrived? {
        FirstReadIsOk(s, t, id, user, now, fails);
      } else {
        DeleteIsOk(s, t, user, id, now, fails);
      }
    case _ =>
  }

  /** When the task was deleted since the handler's read: the service's read reports it, the write does not. */
  lemma GoneRowIsReadButNotWritten(s: Server, t: RequestId, user: int64, id: int64, task: Task, now: int)
    requires t in s.flights && id != 0 && id !in s.tables.tasks && IsAcceptable(task, user)
    requires s.flights[t].req in {UpdateTask(user, Some(id), Some(task)), DeleteTask(user, Some(id))}
    ensures var s' := NextStatement(s, t, now, false);
            && t in s'.answers && s'.tables.tasks == s.tables.tasks
            && s'.answers[t].code == if s.flights[t].phase.Confirmed? then OK else NOT_FOUND
  {
  }

  // ---------- Runs ----------

  /** A server between requests. */
  ghost predicate Idle(s: Server) {
    Good(s.tables) && s.flights == map[] && s.answers == map[]
  }

  lemma StepKeepsInv(s: Server, e: Event)
    requires Inv(s)
    ensures Inv(Step(s, e)) && Continues(s.tables, Step(s, e).tables)
  {
    var s' := Step(s, e);
    if e.Advance? && e.t in s.flights {
      NextStatementIsOk(s, e.t, e.now, e.fails);
      HandleKeeps(s.tables, s.flights[e.t].req, e.now, NO_FAULTS);
      forall u | u in s'.flights
        ensures FlightOk(s'.tables, s'.flights[u]) && u !in s'.answers
      {
        assert u != e.t ==> s'.flights[u] == s.flights[u];
        FlightStaysOk(s.tables, s'.tables, s'.flights[u]);
      }
    }
  }

  /** The requests that were answered with success, each once. */
  ghost predicate IsWriteOrder(order: seq<RequestId>, answers: map<RequestId, Answer>) {
    && (forall k :: 0 <= k < |order| ==> order[k] in answers && Succeeded(answers[order[k]].code))
    && (forall t :: t in answers && Succeeded(answers[t].code) ==> t in order)
    && (forall j, k :: 0 <= j < k < |order| ==> order[j] != order[k])
  }

  /** These requests one after the other, each at the time of its last statement. */
  function Serial(order: seq<RequestId>, answers: map<RequestId, Answer>): seq<Timed>
    requires forall k :: 0 <= k < |order| ==> order[k] in answers
  {
    seq(|order|, k requires 0 <= k < |order| => Timed(answers[order[k]].req, answers[order[k]].now, NO_FAULTS))
  }

  lemma AnswerGrowsSerial(order: seq<RequestId>, answers: map<RequestId, Answer>, t: RequestId, a: Answer)
    requires IsWriteOrder(order, answers) && t !in answers
    ensures if Succeeded(a.code)
            then IsWriteOrder(order + [t], answers[t := a])
                 && Serial(order + [t], answers[t := a]) == Serial(order, answers) + [Timed(a.req, a.now, NO_FAULTS)]
            else IsWriteOrder(order, answers[t := a]) && Serial(order, answers[t := a]) == Serial(order, answers)
  {
    if Succeeded(a.code) {
      forall u | u in answers[t := a] && Succeeded(answers[t := a][u].code)
        ensures u in order + [t]
      {
        assert u != t ==> u in order;
      }
    }
  }

  lemma OneMoreRequest(tables: State, reqs: seq<Timed>, last: Timed)
    ensures TaskService.Run(tables, reqs + [last])
         == Handle(TaskService.Run(tables, reqs), last.req, last.now, last.faults).0
  {
    assert (reqs + [last])[..|reqs|] == reqs;
  }

  /** One step carries on the serial order of the writes. */
  lemma StepIsSerial(tables: State, s: Server, e: Event, order: seq<RequestId>) returns (order': seq<RequestId>)
    requires Inv(s) && IsWriteOrder(order, s.answers)
    requires s.tables == TaskService.Run(tables, Serial(order, s.answers))
    ensures IsWriteOrder(order', Step(s, e).answers)
    ensures Step(s, e).tables == TaskService.Run(tables, Serial(order', Step(s, e).answers))
  {
    order' := order;
    if e.Advance? && e.t in s.flights {
      var s' := Step(s, e);
      NextStatementIsOk(s, e.t, e.now, e.fails);
      if e.t !in s'.flights {
        var a := s'.answers[e.t];
        AnswerGrowsSerial(order, s.answers, e.t, a);
        if Succeeded(a.code) {
          order' := order + [e.t];
          OneMoreRequest(tables, Serial(order, s.answers), Timed(a.req, a.now, NO_FAULTS));
        }
      }
    }
  }

  /**
   Every interleaving leaves the tables that the requests answered with success would have left one after
   the other, in the order of their writes.
   */
  lemma {:induction false} RunIsSerial(s: Server, events: seq<Event>) returns (order: seq<RequestId>)
    requires Idle(s)
    ensures var s' := Run(s, events);
            && Inv(s') && IsWriteOrder(order, s'.answers)
            && s'.tables == TaskService.Run(s.tables, Serial(order, s'.answers))
  {
    if events == [] {
      order := [];
      assert Serial(order, s.answers) == [];
    } else {
      var before := events[..|events| - 1];
      order := RunIsSerial(s, before);
      StepKeepsInv(Run(s, before), events[|events| - 1]);
      order := StepIsSerial(s.tables, Run(s, before), events[|events| - 1], order);
    }
  }

  /** No request of this user is or was served. */
  ghost predicate Unserved(s: Server, user: int64) {
    && (forall t :: t in s.flights ==> s.flights[t].req.user != user)
    && (forall t :: t in s.answers ==> s.answers[t].req.user != user)
  }

  lemma {:induction false} NobodyElseIsServed(s: Server, events: seq<Event>, user: int64)
    requires Idle(s) && forall e :: e in events && e.Arrive? ==> e.req.user != user
    ensures Inv(Run(s, events)) && Unserved(Run(s, events), user)
  {
    if events == [] {
    } else {
      var before, e := events[..|events| - 1], events[|events| - 1];
      NobodyElseIsServed(s, before, user);
      StepKeepsInv(Run(s, before), e);
      if e.Advance? && e.t in Run(s, before).flights {
        NextStatementIsOk(Run(s, before), e.t, e.now, e.fails);
      }
    }
  }

  /**
   So all that serial runs keep survives any interleaving of statements: titles, statuses, owners and numbers,
   and a user who sends no request owns exactly the tasks of before.
   */
  lemma InterleavedRunKeeps(s: Server, events: seq<Event>, bystander: int64)
    requires Idle(s)
    ensures var s' := Run(s, events);
            && Good(s'.tables) && Continues(s.tables, s'.tables)
            && ((forall e :: e in events && e.Arrive? ==> e.req.user != bystander) ==>
                  OwnedBy(s'.tables, bystander) == OwnedBy(s.tables, bystander))
  {
    var order := RunIsSerial(s, events);
    RunKeeps(s.tables, Serial(order, Run(s, events).answers), bystander);
    if forall e :: e in events && e.Arrive? ==> e.req.user != bystander {
      NobodyElseIsServed(s, events, bystander);
    }
  }

  // ---------- One request alone, and two that meet ----------

  lemma RunMore(s: Server, events: seq<Event>, e: Event)
    ensures Run(s, events + [e]) == Step(Run(s, events), e)
  {
    assert (events + [e])[..|events|] == events;
  }

  lemma RunFourMore(s: Server, events: seq<Event>, a: Event, b: Event, c: Event, d: Event)
    ensures Run(s, events + ([a] + [b] + [c] + [d])) == Step(Step(Step(Step(Run(s, events), a), b), c), d)
  {
    RunMore(s, events, a);
    RunMore(s, events + [a], b);
    RunMore(s, events + [a] + [b], c);
    RunMore(s, events + [a] + [b] + [c], d);
    assert events + ([a] + [b] + [c] + [d]) == events + [a] + [b] + [c] + [d];
  }

  /** Whether the first and the second statement of a request fail. */
  function First(req: Request, faults: Faults): bool {
    if req.CreateTask? then faults.readUser else faults.readTask
  }

  function Second(req: Request, faults: Faults): bool {
    if req.CreateTask? then faults.write else faults.reread
  }

  /** The statements of a request that nobody interrupts. */
  function Alone(t: RequestId, req: Request, now: int, faults: Faults): seq<Event> {
    [Arrive(t, req)] + [Advance(t, now, First(req, faults))] + [Advance(t, now, Second(req, faults))]
    + [Advance(t, now, faults.write)]
  }

  /** The next three statements of a request, as far as it gets. */
  function Statements(s: Server, t: RequestId, now: int, faults: Faults): Server
    requires t in s.flights
  {
    var req := s.flights[t].req;
    var read := Step(s, Advance(t, now, First(req, faults)));
    Step(Step(read, Advance(t, now, Second(req, faults))), Advance(t, now, faults.write))
  }

  predicate IsHandled(s: Server, t: RequestId, now: int, faults: Faults)
    requires t in s.flights
  {
    var (tables, code) := Handle(s.tables, s.flights[t].req, now, faults);
    Statements(s, t, now, faults) == End(s, t, tables, code, now)
  }

  lemma ProceedEnds(s: Server, t: RequestId, phase: Phase)
    requires t in s.flights
    ensures Proceed(s, t, phase).flights - {t} == s.flights - {t}
    ensures forall phase' :: Proceed(Proceed(s, t, phase), t, phase') == Proceed(s, t, phase')
  {
    forall phase'
      ensures Proceed(Proceed(s, t, phase), t, phase') == Proceed(s, t, phase')
    {
      assert Proceed(Proceed(s, t, phase), t, phase').flights == Proceed(s, t, phase').flights;
    }
  }

  lemma CreateIsHandled(s: Server, t: RequestId, now: int, faults: Faults)
    requires t in s.flights && s.flights[t].phase.Arrived? && s.flights[t].req.CreateTask?
    ensures IsHandled(s, t, now, faults)
  {
    ProceedEnds(s, t, Admitted);
  }

  /** Once its first read succeeded, the rest of an update is what the service does. */
  lemma RestOfUpdate(s: Server, t: RequestId, user: int64, id: int64, task: Task, now: int, faults: Faults)
    requires t in s.flights && s.flights[t] == Flight(UpdateTask(user, Some(id), Some(task)), Admitted)
    ensures var (tables, code) :=
              Respond(ServiceUpdate(s.tables, task.(id := id, userId := user), now, faults), OK);
            Step(Step(s, Advance(t, now, faults.reread)), Advance(t, now, faults.write)) == End(s, t, tables, code, now)
  {
    ProceedEnds(s, t, Confirmed);
  }

  lemma UpdateIsHandled(s: Server, t: RequestId, now: int, faults: Faults)
    requires t in s.flights && s.flights[t].phase.Arrived? && s.flights[t].req.UpdateTask?
    ensures IsHandled(s, t, now, faults)
  {
    var read := Step(s, Advance(t, now, faults.readTask));
    ProceedEnds(s, t, Admitted);
    match s.flights[t].req
    case UpdateTask(user, Some(id), Some(task)) =>
      if t in read.flights {
        RestOfUpdate(read, t, user, id, task, now, faults);
      }
    case _ =>
  }

  lemma DeleteIsHandled(s: Server, t: RequestId, now: int, faults: Faults)
    requires t in s.flights && s.flights[t].phase.Arrived? && s.flights[t].req.DeleteTask?
    ensures IsHandled(s, t, now, faults)
  {
    ProceedEnds(s, t, Admitted);
    ProceedEnds(s, t, Confirmed);
  }

  lemma StatementsRun(s: Server, before: seq<Event>, t: RequestId, req: Request, now: int, faults: Faults)
    requires t !in Run(s, before).flights && t !in Run(s, before).answers
    ensures Run(s, before + Alone(t, req, now, faults))
         == Statements(Step(Run(s, before), Arrive(t, req)), t, now, faults)
  {
    RunFourMore(s, before, Arrive(t, req), Advance(t, now, First(req, faults)), Advance(t, now, Second(req, faults)),
                Advance(t, now, faults.write));
  }

  /** Its statements one by one amount to handling it whole. */
  lemma AloneIsHandled(s: Server, before: seq<Event>, t: RequestId, req: Request, now: int, faults: Faults)
    requires t !in Run(s, before).flights && t !in Run(s, before).answers
    ensures var r := Run(s, before);
            var (tables, code) := Handle(r.tables, req, now, faults);
            Run(s, before + Alone(t, req, now, faults))
              == Server(tables, r.flights, r.answers[t := Answer(req, code, now)])
  {
    var r := Run(s, before);
    var arrived := Step(r, Arrive(t, req));
    StatementsRun(s, before, t, req, now, faults);
    match req {
      case CreateTask(_, _) => CreateIsHandled(arrived, t, now, faults);
      case UpdateTask(_, _, _) => UpdateIsHandled(arrived, t, now, faults);
      case DeleteTask(_, _) => DeleteIsHandled(arrived, t, now, faults);
    }
    assert IsHandled(arrived, t, now, faults);
    assert arrived.flights - {t} == r.flights;
  }

  /**
   A row can be deleted between the last read and the write of an update. The UPDATE then finds no row, and the
   client is told that all went well.
   */
  lemma UpdateOfDeletedRow(s: Server, t: RequestId, u: RequestId, user: int64, id: int64, task: Task, now: int)
    returns (events: seq<Event>)
    requires Idle(s) && t != u && id in s.tables.tasks && s.tables.tasks[id].userId == user && IsAcceptable(task, user)
    ensures var s' := Run(s, events);
            && t in s'.answers && s'.answers[t] == Answer(UpdateTask(user, Some(id), Some(task)), OK, now)
            && id !in s'.tables.tasks
  {
    var update, delete := UpdateTask(user, Some(id), Some(task)), DeleteTask(user, Some(id));
    var next := Advance(t, now, false);
    var none: seq<Event> := [];
    var read := none + [Arrive(t, update)] + [next] + [next];
    RunMore(s, none, Arrive(t, update));
    RunMore(s, none + [Arrive(t, update)], next);
    RunMore(s, none + [Arrive(t, update)] + [next], next);
    assert Run(s, read) == s.(flights := map[t := Flight(update, Confirmed)]);
    AloneIsHandled(s, read, u, delete, now, NO_FAULTS);
    DeleteMeaning(s.tables, user, id, now, NO_FAULTS);
    events := read + Alone(u, delete, now, NO_FAULTS) + [next];
    RunMore(s, read + Alone(u, delete, now, NO_FAULTS), next);
  }
}
