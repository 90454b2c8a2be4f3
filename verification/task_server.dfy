/** The task service and its handlers as objects that change the tables; each method is a step of `TaskService`. */
module TaskServer {
  import opened Int64
  import opened Wrappers
  import opened Tasks
  import opened TaskService

  class PgTaskRepo {
    var users: set<int64>
    var tasks: map<int64, Task>
    var lastId: nat

    constructor (users: set<int64>)
      ensures View() == State(users, map[], 0)
    {
      this.users := users;
      tasks, lastId := map[], 0;
    }

    ghost function View(): State
      reads this
    {
      State(users, tasks, lastId)
    }

    method Create(task: Task, now: int, fails: bool) returns (ok: bool)
      modifies this
      ensures ok <==> !fails && old(lastId) < MAX
      ensures View() == if ok then InsertRow(old(View()), task, now) else old(View())
    {
      if fails || lastId >= MAX {
        return false;
      }
      lastId := lastId + 1;
      tasks := tasks[lastId := task.(id := lastId, createdAt := now, updatedAt := now)];
      return true;
    }

    method GetByID(id: int64, fails: bool) returns (task: Option<Task>)
      ensures task == if fails || id !in tasks then None else Some(tasks[id])
    {
      if fails || id !in tasks {
        return None;
      }
      return Some(tasks[id]);
    }

    method Update(task: Task, now: int, fails: bool) returns (ok: bool)
      modifies this
      ensures ok <==> !fails
      ensures View() == if ok then UpdateRow(old(View()), task, now) else old(View())
    {
      if fails {
        return false;
      }
      if task.id in tasks {
        tasks := tasks[task.id := tasks[task.id].(title := task.title, description := task.description,
                                                  status := task.status, updatedAt := now)];
      }
      return true;
    }

    method Delete(id: int64, fails: bool) returns (ok: bool)
      modifies this
      ensures ok <==> !fails
      ensures View() == if ok then old(View()).(tasks := old(tasks) - {id}) else old(View())
    {
      if fails {
        return false;
      }
      tasks := tasks - {id};
      return true;
    }
  }

  class Service {
    const repo: PgTaskRepo

    constructor (repo: PgTaskRepo)
      ensures this.repo == repo
    {
      this.repo := repo;
    }

    method Create(task: Task, now: int, faults: Faults) returns (err: Option<Error>)
      modifies repo
      ensures (repo.View(), err) == ServiceCreate(old(repo.View()), task, now, faults)
    {
      var valid := Validate(task);
      if valid.Failure? {
        return Some(valid.error);
      }
      if faults.readUser || valid.value.userId !in repo.users {
        return Some(NotFound);
      }
      var ok := repo.Create(valid.value, now, faults.write);
      return if ok then None else Some(Failed);
    }

    method GetByID(id: int64, fails: bool) returns (res: Result<Task, Error>)
      ensures res == GetTask(repo.View(), id, fails)
    {
      var task := repo.GetByID(id, fails);
      return match task case None => Failure(NotFound) case Some(t) => Success(t);
    }

    method Update(task: Task, now: int, faults: Faults) returns (err: Option<Error>)
      modifies repo
      ensures (repo.View(), err) == ServiceUpdate(old(repo.View()), task, now, faults)
    {
      if task.id == 0 {
        return Some(Invalid("id"));
      }
      var valid := Validate(task);
      if valid.Failure? {
        return Some(valid.error);
      }
      var present := GetByID(valid.value.id, faults.reread);
      if present.Failure? {
        return Some(present.error);
      }
      var ok := repo.Update(valid.value, now, faults.write);
      return if ok then None else Some(Failed);
    }

    method Delete(id: int64, faults: Faults) returns (err: Option<Error>)
      modifies repo
      ensures (repo.View(), err) == ServiceDelete(old(repo.View()), id, faults)
    {
      var present := GetByID(id, faults.reread);
      if present.Failure? {
        return Some(present.error);
      }
      var ok := repo.Delete(id, faults.write);
      return if ok then None else Some(Failed);
    }
  }

  class Router {
    const tasks: Service

    constructor (tasks: Service)
      ensures this.tasks == tasks
    {
      this.tasks := tasks;
    }

    method HandleTaskCreate(user: int64, body: Option<Task>, now: int, faults: Faults) returns (code: int)
      modifies tasks.repo
      ensures (tasks.repo.View(), code) == Handle(old(tasks.repo.View()), CreateTask(user, body), now, faults)
    {
      if body.None? {
        return BAD_REQUEST;
      }
      var task := body.value.(userId := user);
      var err := tasks.Create(task, now, faults);
      return if err.Some? then ErrorCode(err.value) else CREATED;
    }

    method TaskOfUser(id: int64, user: int64, fails: bool) returns (res: Result<Task, Error>)
      ensures res == TaskForUser(tasks.repo.View(), id, user, fails)
    {
      res := tasks.GetByID(id, fails);
      if res.Success? && res.value.userId != user {
        return Failure(NotFound);
      }
    }

    method HandleTaskUpdate(user: int64, id: Option<int64>, body: Option<Task>, now: int, faults: Faults)
      returns (code: int)
      modifies tasks.repo
      ensures (tasks.repo.View(), code) == Handle(old(tasks.repo.View()), UpdateTask(user, id, body), now, faults)
    {
      if id.None? {
        return BAD_REQUEST;
      }
      var present := TaskOfUser(id.value, user, faults.readTask);
      if present.Failure? {
        return ErrorCode(present.error);
      }
      if body.None? {
        return BAD_REQUEST;
      }
      var task := body.value.(id := id.value, userId := user);
      var err := tasks.Update(task, now, faults);
      return if err.Some? then ErrorCode(err.value) else OK;
    }

    method HandleTaskDelete(user: int64, id: Option<int64>, now: int, faults: Faults) returns (code: int)
      modifies tasks.repo
      ensures (tasks.repo.View(), code) == Handle(old(tasks.repo.View()), DeleteTask(user, id), now, faults)
    {
      if id.None? {
        return BAD_REQUEST;
      }
      var present := TaskOfUser(id.value, user, faults.readTask);
      if present.Failure? {
        return ErrorCode(present.error);
      }
      var err := tasks.Delete(id.value, faults);
      return if err.Some? then ErrorCode(err.value) else OK;
    }
  }
}
