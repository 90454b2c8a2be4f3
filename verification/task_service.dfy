/** Task requests of authenticated users, through handlers and service, on the PostgreSQL tables. */
module TaskService {
  import opened Int64
  import opened Wrappers
  import opened Tasks

  datatype State = State(users: set<int64>, tasks: map<int64, Task>, lastId: nat)

  /** Which statements the database fails; an update or delete reads the task in the handler and in the service. */
  datatype Faults = Faults(readUser: bool, readTask: bool, reread: bool, write: bool)

  /** A request by a user; None is a path or a body that does not decode. */
  datatype Request =
    | CreateTask(user: int64, body: Option<Task>)
    | UpdateTask(user: int64, id: Option<int64>, body: Option<Task>)
    | DeleteTask(user: int64, id: Option<int64>)

  const NO_FAULTS := Faults(false, false, false, false)

  const OK := 200
  const CREATED := 201
  const BAD_REQUEST := 400
  const NOT_FOUND := 404
  const UNPROCESSABLE := 422
  const INTERNAL := 500

  function ErrorCode(e: Error): int {
    match e
    case NotFound => NOT_FOUND
    case Invalid(_) => UNPROCESSABLE
    case Failed => INTERNAL
  }

  // ---------- The service ----------

  function GetTask(s: State, id: int64, fails: bool): Result<Task, Error> {
    if fails || id !in s.tasks then Failure(NotFound) else Success(s.tasks[id])
  }

  /** INSERT: the id comes from the table's sequence, whatever the request says. */
  function InsertRow(s: State, t: Task, now: int): State {
    var id := Wrap(s.lastId + 1);
    s.(tasks := s.tasks[id := t.(id := id, createdAt := now, updatedAt := now)], lastId := s.lastId + 1)
  }

  function ServiceCreate(s: State, task: Task, now: int, faults: Faults): (State, Option<Error>) {
    match Validate(task)
    case Failure(e) => (s, Some(e))
    case Success(t) =>
      if faults.readUser || t.userId !in s.users then (s, Some(NotFound))
      else if faults.write || s.lastId >= MAX then (s, Some(Failed))
      else (InsertRow(s, t, now), None)
  }

  /** UPDATE: title, description and status of the row with that id. */
  function UpdateRow(s: State, t: Task, now: int): State {
    if t.id !in s.tasks then s
    else
      var row := s.tasks[t.id].(title := t.title, description := t.description, status := t.status, updatedAt := now);
      s.(tasks := s.tasks[t.id := row])
  }

  function ServiceUpdate(s: State, task: Task, now: int, faults: Faults): (State, Option<Error>) {
    if task.id == 0 then (s, Some(Invalid("id")))
    else
      match Validate(task)
      case Failure(e) => (s, Some(e))
      case Success(t) =>
        match GetTask(s, t.id, faults.reread)
        case Failure(e) => (s, Some(e))
        case Success(_) => if faults.write then (s, Some(Failed)) else (UpdateRow(s, t, now), None)
  }

  function ServiceDelete(s: State, id: int64, faults: Faults): (State, Option<Error>) {
    match GetTask(s, id, faults.reread)
    case Failure(e) => (s, Some(e))
    case Success(_) => if faults.write then (s, Some(Failed)) else (s.(tasks := s.tasks - {id}), None)
  }

  // ---------- The handlers ----------

  /** A task of someone else is reported like one that does not exist. */
  function TaskForUser(s: State, id: int64, user: int64, fails: bool): Result<Task, Error> {
    match GetTask(s, id, fails)
    case Failure(e) => Failure(e)
    case Success(t) => if t.userId != user then Failure(NotFound) else Success(t)
  }

  function Respond(r: (State, Option<Error>), code: int): (State, int) {
    (r.0, if r.1.Some? then ErrorCode(r.1.value) else code)
  }

  function Handle(s: State, req: Request, now: int, faults: Faults): (State, int) {
    match req
    case CreateTask(user, body) =>
      (match body
       case None => (s, BAD_REQUEST)
       case Some(task) => Respond(ServiceCreate(s, task.(userId := user), now, faults), CREATED))
    case UpdateTask(user, None, _) => (s, BAD_REQUEST)
    case UpdateTask(user, Some(id), body) =>
      (match TaskForUser(s, id, user, faults.readTask)
       case Failure(e) => (s, ErrorCode(e))
       case Success(_) =>
         match body
         case None => (s, BAD_REQUEST)
         case Some(task) => Respond(ServiceUpdate(s, task.(id := id, userId := user), now, faults), OK))
    case DeleteTask(user, None) => (s, BAD_REQUEST)
    case DeleteTask(user, Some(id)) =>
      (match TaskForUser(s, id, user, faults.readTask)
       case Failure(e) => (s, ErrorCode(e))
       case Success(_) => Respond(ServiceDelete(s, id, faults), OK))
  }

  datatype Timed = Timed(req: Request, now: int, faults: Faults)

  function Run(s: State, reqs: seq<Timed>): State {
    if reqs == [] then s
    else
      var last := reqs[|reqs| - 1];
      Handle(Run(s, reqs[..|reqs| - 1]), last.req, last.now, last.faults).0
  }

  // ---------- What every run keeps ----------

  ghost predicate Good(s: State) {
    && s.lastId <= MAX
    && forall id :: id in s.tasks ==>
         0 < id <= s.lastId && s.tasks[id].id == id && s.tasks[id].userId in s.users && WellFormed(s.tasks[id])
  }

  function OwnedBy(s: State, user: int64): map<int64, Task> {
    map id | id in s.tasks && s.tasks[id].userId == user :: s.tasks[id]
  }

  /** Users stay, no task changes hands, and a number once given out does not come back. */
  ghost predicate Continues(s: State, s': State) {
    && s'.users == s.users && s'.lastId >= s.lastId
    && forall id :: id in s'.tasks && id <= s.lastId ==>
         id in s.tasks && s'.tasks[id].userId == s.tasks[id].userId
  }

  /** Only this user's tasks may differ. */
  ghost predicate OnlyTouches(s: State, s': State, user: int64) {
    forall id ::
      && (id in s.tasks && s.tasks[id].userId != user ==> id in s'.tasks && s'.tasks[id] == s.tasks[id])
      && (id in s'.tasks && s'.tasks[id].userId != user ==> id in s.tasks && s'.tasks[id] == s.tasks[id])
  }

  /** What validation asks of a request. */
  predicate IsAcceptable(task: Task, user: int64) {
    TrimSpace(task.title) != "" && user != 0 && (task.status == "" || IsValidStatus(task.status))
  }

  /** The row holds the request's texts without surrounding space and its status, or the default one. */
  predicate HoldsContent(row: Task, task: Task) {
    && row.title == TrimSpace(task.title)
    && row.description == TrimSpace(task.description)
    && row.status == if task.status == "" then TODO else task.status
  }

  lemma CreateMeaning(s: State, user: int64, task: Task, now: int, faults: Faults)
    requires Good(s)
    ensures var (s', code) := Handle(s, CreateTask(user, Some(task)), now, faults);
            && (code == CREATED <==>
                  && IsAcceptable(task, user) && user in s.users && s.lastId < MAX
                  && !faults.readUser && !faults.write)
            && (code != CREATED ==> s' == s)
            && (code == CREATED ==>
                  var id := s.lastId + 1;
                  && id !in s.tasks && id in s'.tasks
                  && s' == s.(tasks := s.tasks[id := s'.tasks[id]], lastId := id)
                  && HoldsContent(s'.tasks[id], task)
                  && s'.tasks[id].id == id && s'.tasks[id].userId == user
                  && s'.tasks[id].createdAt == s'.tasks[id].updatedAt == now)
  {
  }

  lemma UpdateMeaning(s: State, user: int64, id: int64, task: Task, now: int, faults: Faults)
    requires Good(s)
    ensures var (s', code) := Handle(s, UpdateTask(user, Some(id), Some(task)), now, faults);
            && (code == OK <==>
                  && id in s.tasks && s.tasks[id].userId == user && IsAcceptable(task, user)
                  && !faults.readTask && !faults.reread && !faults.write)
            && (code != OK ==> s' == s)
            && (code == OK ==>
                  && id in s'.tasks
                  && s' == s.(tasks := s.tasks[id := s'.tasks[id]])
                  && HoldsContent(s'.tasks[id], task)
                  && s'.tasks[id].id == id && s'.tasks[id].userId == user
                  && s'.tasks[id].createdAt == s.tasks[id].createdAt && s'.tasks[id].updatedAt == now)
  {
  }

  // ---------- Every answer ----------

  predicate Owns(s: State, id: Option<int64>, user: int64) {
    id.Some? && id.value in s.tasks && s.tasks[id.value].userId == user
  }

  lemma CreateAnswers(s: State, user: int64, body: Option<Task>, now: int, faults: Faults)
    requires Good(s)
    ensures var (s', code) := Handle(s, CreateTask(user, body), now, faults);
            var valid := body.Some? && IsAcceptable(body.value, user);
            var known := user in s.users && !faults.readUser;
            && (code == BAD_REQUEST <==> body.None?)
            && (code == UNPROCESSABLE <==> body.Some? && !valid)
            && (code == NOT_FOUND <==> valid && !known)
            && (code == INTERNAL <==> valid && known && (faults.write || s.lastId == MAX))
            && (code == CREATED <==> valid && known && !faults.write && s.lastId < MAX)
            && code in {BAD_REQUEST, UNPROCESSABLE, NOT_FOUND, INTERNAL, CREATED}
            && (code != CREATED ==> s' == s)
  {
  }

  /** Who does not own the task is told that there is none, before anything else about his request is looked at. */
  lemma UpdateAnswers(s: State, user: int64, id: Option<int64>, body: Option<Task>, now: int, faults: Faults)
    requires Good(s)
    ensures var (s', code) := Handle(s, UpdateTask(user, id, body), now, faults);
            var found := Owns(s, id, user) && !faults.readTask;
            var valid := body.Some? && IsAcceptable(body.value, user);
            && (code == BAD_REQUEST <==> id.None? || (found && body.None?))
            && (code == NOT_FOUND <==> id.Some? && (!found || (valid && faults.reread)))
            && (code == UNPROCESSABLE <==> found && body.Some? && !valid)
            && (code == INTERNAL <==> found && valid && !faults.reread && faults.write)
            && (code == OK <==> found && valid && !faults.reread && !faults.write)
            && code in {BAD_REQUEST, NOT_FOUND, UNPROCESSABLE, INTERNAL, OK}
            && (code != OK ==> s' == s)
  {
  }

  lemma DeleteAnswers(s: State, user: int64, id: Option<int64>, now: int, faults: Faults)
    requires Good(s)
    ensures var (s', code) := Handle(s, DeleteTask(user, id), now, faults);
            var found := Owns(s, id, user) && !faults.readTask;
            && (code == BAD_REQUEST <==> id.None?)
            && (code == NOT_FOUND <==> id.Some? && (!found || faults.reread))
            && (code == INTERNAL <==> found && !faults.reread && faults.write)
            && (code == OK <==> found && !faults.reread && !faults.write)
            && code in {BAD_REQUEST, NOT_FOUND, INTERNAL, OK}
            && (code != OK ==> s' == s)
  {
  }

  /**
   The answers a user gets tell him nothing about the tasks of others: on tables that hold the same tasks of
   his they are the same. So a task of someone else is answered like one that does not exist.
   */
  lemma AnswersHideTasks(s: State, other: State, req: Request, now: int, faults: Faults)
    requires Good(s) && Good(other) && OwnedBy(other, req.user) == OwnedBy(s, req.user)
    requires other.users == s.users && other.lastId == s.lastId
    ensures Handle(other, req, now, faults).1 == Handle(s, req, now, faults).1
  {
    match req
    case CreateTask(user, body) =>
      CreateAnswers(s, user, body, now, faults);
      CreateAnswers(other, user, body, now, faults);
    case UpdateTask(user, id, body) =>
      SameOwner(s, other, id, user);
      UpdateAnswers(s, user, id, body, now, faults);
      UpdateAnswers(other, user, id, body, now, faults);
    case DeleteTask(user, id) =>
      SameOwner(s, other, id, user);
      DeleteAnswers(s, user, id, now, faults);
      DeleteAnswers(other, user, id, now, faults);
  }

  lemma SameOwner(s: State, other: State, id: Option<int64>, user: int64)
    requires OwnedBy(other, user) == OwnedBy(s, user)
    ensures Owns(other, id, user) <==> Owns(s, id, user)
  {
    if id.Some? {
      assert id.value in OwnedBy(other, user) <==> id.value in OwnedBy(s, user);
    }
  }

  lemma ForeignIsAbsent(s: State, req: Request, id: int64, now: int, faults: Faults)
    requires Good(s) && id in s.tasks && s.tasks[id].userId != req.user
    ensures var without := s.(tasks := s.tasks - {id});
            Handle(without, req, now, faults).1 == Handle(s, req, now, faults).1
  {
    var without := s.(tasks := s.tasks - {id});
    assert OwnedBy(without, req.user) == OwnedBy(s, req.user);
    AnswersHideTasks(s, without, req, now, faults);
  }

  lemma ContentIsWellFormed(row: Task, task: Task, user: int64)
    requires IsAcceptable(task, user) && HoldsContent(row, task)
    ensures WellFormed(row)
  {
    TrimSpaceMeaning(task.title);
    TrimSpaceMeaning(task.description);
  }

  lemma DeleteMeaning(s: State, user: int64, id: int64, now: int, faults: Faults)
    requires Good(s)
    ensures var (s', code) := Handle(s, DeleteTask(user, Some(id)), now, faults);
            && Good(s') && Continues(s, s') && OnlyTouches(s, s', user)
            && (code == OK <==>
                  && id in s.tasks && s.tasks[id].userId == user
                  && !faults.readTask && !faults.reread && !faults.write)
            && s' == if code == OK then s.(tasks := s.tasks - {id}) else s
  {
  }

  /** A good row of the user under its own or the next number keeps everything that has to stay. */
  lemma PutKeeps(s: State, id: int64, row: Task, lastId: nat, user: int64)
    requires Good(s) && WellFormed(row) && row.id == id && row.userId == user && user in s.users
    requires if id in s.tasks then s.tasks[id].userId == user && lastId == s.lastId
             else id == lastId == s.lastId + 1
    ensures var s' := s.(tasks := s.tasks[id := row], lastId := lastId);
            Good(s') && Continues(s, s') && OnlyTouches(s, s', user)
  {
  }

  lemma CreateKeeps(s: State, user: int64, task: Task, now: int, faults: Faults)
    requires Good(s)
    ensures var s' := Handle(s, CreateTask(user, Some(task)), now, faults).0;
            Good(s') && Continues(s, s') && OnlyTouches(s, s', user)
  {
    var (s', code) := Handle(s, CreateTask(user, Some(task)), now, faults);
    CreateMeaning(s, user, task, now, faults);
    if code == CREATED {
      var id := s.lastId + 1;
      ContentIsWellFormed(s'.tasks[id], task, user);
      PutKeeps(s, id, s'.tasks[id], id, user);
    }
  }

  lemma UpdateKeeps(s: State, user: int64, id: int64, task: Task, now: int, faults: Faults)
    requires Good(s)
    ensures var s' := Handle(s, UpdateTask(user, Some(id), Some(task)), now, faults).0;
            Good(s') && Continues(s, s') && OnlyTouches(s, s', user)
  {
    var (s', code) := Handle(s, UpdateTask(user, Some(id), Some(task)), now, faults);
    UpdateMeaning(s, user, id, task, now, faults);
    if code == OK {
      ContentIsWellFormed(s'.tasks[id], task, user);
      PutKeeps(s, id, s'.tasks[id], s.lastId, user);
    }
  }

  lemma HandleKeeps(s: State, req: Request, now: int, faults: Faults)
    requires Good(s)
    ensures var s' := Handle(s, req, now, faults).0;
            Good(s') && Continues(s, s') && OnlyTouches(s, s', req.user)
  {
    match req
    case CreateTask(user, Some(task)) => CreateKeeps(s, user, task, now, faults);
    case UpdateTask(user, Some(id), Some(task)) => UpdateKeeps(s, user, id, task, now, faults);
    case DeleteTask(user, Some(id)) => DeleteMeaning(s, user, id, now, faults);
    case _ =>
  }

  /**
   After any serial run: every stored task is trimmed, titled and in an allowed state; no task changed
   hands, nor came back once deleted; and a user who sent no request owns exactly the tasks of before.
   */
  lemma {:induction false} RunKeeps(s: State, reqs: seq<Timed>, bystander: int64)
    requires Good(s)
    ensures var s' := Run(s, reqs);
            && Good(s') && Continues(s, s')
            && ((forall r :: r in reqs ==> r.req.user != bystander) ==> OwnedBy(s', bystander) == OwnedBy(s, bystander))
  {
    if reqs == [] {
    } else {
      var front, last := reqs[..|reqs| - 1], reqs[|reqs| - 1];
      RunKeeps(s, front, bystander);
      HandleKeeps(Run(s, front), last.req, last.now, last.faults);
    }
  }
}
