/** Statistics of one user's tasks: statuses encoded as bytes, counted by the status counter. */
module TaskStats {
  import opened Int64
  import opened Wrappers
  import opened Tasks
  import opened TaskService
  import opened StatusCount

  datatype Stats = Stats(total: int, todo: int, inProgress: int, done: int)

  /** A status that is none of the three is encoded like a pending one. */
  function EncodeStatus(status: string): uint8 {
    if status == IN_PROGRESS then 1 else if status == DONE then 2 else 0
  }

  function Encoded(tasks: seq<Task>): (codes: seq<uint8>)
    ensures |codes| == |tasks|
  {
    seq(|tasks|, i requires 0 <= i < |tasks| => EncodeStatus(tasks[i].status))
  }

  method EncodeStatuses(tasks: seq<Task>) returns (buf: array<uint8>)
    ensures fresh(buf) && buf[..] == Encoded(tasks)
  {
    buf := new uint8[|tasks|](_ => 0);
    for i := 0 to |tasks|
      invariant forall j :: 0 <= j < i ==> buf[j] == EncodeStatus(tasks[j].status)
    {
      var status := tasks[i].status;
      if status == TODO {
        buf[i] := 0;
      } else if status == IN_PROGRESS {
        buf[i] := 1;
      } else if status == DONE {
        buf[i] := 2;
      } else {
        buf[i] := 0;  // left as allocated
      }
    }
  }

  /** How many tasks of a list have a status. */
  function WithStatus(tasks: seq<Task>, status: string): (n: nat) {
    if tasks == [] then 0
    else (if tasks[0].status == status then 1 else 0) + WithStatus(tasks[1..], status)
  }

  function Unknown(tasks: seq<Task>): (n: nat) {
    if tasks == [] then 0 else (if IsValidStatus(tasks[0].status) then 0 else 1) + Unknown(tasks[1..])
  }

  lemma {:induction false} EncodedCounts(tasks: seq<Task>)
    ensures Count(Encoded(tasks), 0) == WithStatus(tasks, TODO) + Unknown(tasks)
    ensures Count(Encoded(tasks), 1) == WithStatus(tasks, IN_PROGRESS)
    ensures Count(Encoded(tasks), 2) == WithStatus(tasks, DONE)
    ensures |tasks|
         == WithStatus(tasks, TODO) + WithStatus(tasks, IN_PROGRESS) + WithStatus(tasks, DONE) + Unknown(tasks)
  {
    if tasks == [] {
    } else {
      EncodedCounts(tasks[1..]);
      assert Encoded(tasks)[1..] == Encoded(tasks[1..]);
    }
  }

  lemma {:induction false} NoneUnknown(tasks: seq<Task>)
    ensures Unknown(tasks) == 0 <==> forall t :: t in tasks ==> IsValidStatus(t.status)
  {
    if tasks == [] {
    } else {
      NoneUnknown(tasks[1..]);
      assert tasks == [tasks[0]] + tasks[1..];
    }
  }

  /** Where a build of the program keeps the encoded statuses, and whether it counts them with the assembly routine. */
  datatype Build = Portable | Amd64(base: reg, x3: xmm, x4: xmm, x5: xmm)

  method CountStatuses(build: Build, statuses: seq<uint8>) returns (todo: int, inProgress: int, done: int)
    requires build.Amd64? ==> InMemory(build.base, statuses)
    ensures Counts(statuses, todo, inProgress, done)
  {
    match build
    case Portable => todo, inProgress, done := CountStatusesGeneric(statuses);
    case Amd64(base, x3, x4, x5) => todo, inProgress, done := CountStatusesAmd64(base, statuses, x3, x4, x5);
  }

  /**
   The counts always add up to the total; the first is the number of pending tasks exactly when every status
   is an allowed one.
   */
  method ComputeStats(build: Build, tasks: seq<Task>) returns (stats: Stats)
    requires build.Amd64? ==> InMemory(build.base, Encoded(tasks))
    ensures stats.total == |tasks| == stats.todo + stats.inProgress + stats.done
    ensures stats.inProgress == WithStatus(tasks, IN_PROGRESS) && stats.done == WithStatus(tasks, DONE)
    ensures stats.todo == WithStatus(tasks, TODO) <==> forall t :: t in tasks ==> IsValidStatus(t.status)
  {
    var statuses := EncodeStatuses(tasks);
    var todo, inProgress, done := CountStatuses(build, statuses[..]);
    EncodedCounts(tasks);
    NoneUnknown(tasks);
    return Stats(|tasks|, todo, inProgress, done);
  }

  // ---------- The statistics of a user ----------

  /** The rows of a user's tasks, each once, in any order. */
  ghost predicate IsListing(rows: seq<Task>, s: State, user: int64) {
    && (forall t :: t in rows <==> t.id in s.tasks && s.tasks[t.id] == t && t.userId == user)
    && (forall i, j :: 0 <= i < j < |rows| ==> rows[i].id != rows[j].id)
  }

  function IdsOf(s: State, user: int64, status: string): set<int64> {
    set id | id in s.tasks && s.tasks[id].userId == user && s.tasks[id].status == status
  }

  function RowIds(rows: seq<Task>, status: string): set<int64> {
    set t | t in rows && t.status == status :: t.id
  }

  lemma RowIdsGrow(rows: seq<Task>, status: string)
    requires rows != []
    ensures RowIds(rows, status) == RowIds(rows[1..], status) + (if rows[0].status == status then {rows[0].id} else {})
  {
    assert rows == [rows[0]] + rows[1..];
  }

  lemma {:induction false} WithStatusCountsIds(rows: seq<Task>, status: string)
    requires forall i, j :: 0 <= i < j < |rows| ==> rows[i].id != rows[j].id
    ensures WithStatus(rows, status) == |RowIds(rows, status)|
  {
    if rows == [] {
      assert RowIds(rows, status) == {};
    } else {
      WithStatusCountsIds(rows[1..], status);
      RowIdsGrow(rows, status);
      assert rows[0].id !in RowIds(rows[1..], status);
    }
  }

  lemma ListingCounts(rows: seq<Task>, s: State, user: int64, status: string)
    requires Good(s) && IsListing(rows, s, user)
    ensures WithStatus(rows, status) == |IdsOf(s, user, status)|
  {
    WithStatusCountsIds(rows, status);
    forall id | id in IdsOf(s, user, status)
      ensures id in RowIds(rows, status)
    {
      assert s.tasks[id] in rows;
    }
    assert RowIds(rows, status) == IdsOf(s, user, status);
  }

  lemma AllKnown(rows: seq<Task>, s: State, user: int64)
    requires Good(s) && IsListing(rows, s, user)
    ensures forall t :: t in rows ==> IsValidStatus(t.status)
  {
  }

  lemma OwnedIds(s: State, user: int64)
    requires Good(s)
    ensures OwnedBy(s, user).Keys == IdsOf(s, user, TODO) + IdsOf(s, user, IN_PROGRESS) + IdsOf(s, user, DONE)
  {
    forall id | id in OwnedBy(s, user)
      ensures id in IdsOf(s, user, TODO) || id in IdsOf(s, user, IN_PROGRESS) || id in IdsOf(s, user, DONE)
    {
      assert WellFormed(s.tasks[id]);
    }
  }

  lemma IdsDiffer(s: State, user: int64, status: string, other: string)
    requires status != other
    ensures IdsOf(s, user, status) !! IdsOf(s, user, other)
  {
  }

  lemma OwnedSplits(s: State, user: int64)
    requires Good(s)
    ensures |OwnedBy(s, user)| == |IdsOf(s, user, TODO)| + |IdsOf(s, user, IN_PROGRESS)| + |IdsOf(s, user, DONE)|
  {
    var todo, inProgress, done := IdsOf(s, user, TODO), IdsOf(s, user, IN_PROGRESS), IdsOf(s, user, DONE);
    OwnedIds(s, user);
    IdsDiffer(s, user, TODO, IN_PROGRESS);
    IdsDiffer(s, user, TODO, DONE);
    IdsDiffer(s, user, IN_PROGRESS, DONE);
    assert |OwnedBy(s, user)| == |OwnedBy(s, user).Keys|;
    assert |todo + inProgress| == |todo| + |inProgress|;
  }

  /** On tables that any run of requests leaves behind, the three counts are the user's tasks by status. */
  method StatsByUser(build: Build, s: State, user: int64, rows: seq<Task>, faults: Faults)
    returns (res: Result<Stats, Error>)
    requires Good(s) && IsListing(rows, s, user)
    requires build.Amd64? ==> InMemory(build.base, Encoded(rows))
    ensures res.Success? <==> user in s.users && !faults.readUser && !faults.readTask
    ensures res == Failure(NotFound) <==> user !in s.users || faults.readUser
    ensures res.Failure? ==> res.error == NotFound || res.error == Failed
    ensures res.Success? ==>
              && res.value.todo == |IdsOf(s, user, TODO)|
              && res.value.inProgress == |IdsOf(s, user, IN_PROGRESS)|
              && res.value.done == |IdsOf(s, user, DONE)|
              && res.value.total == res.value.todo + res.value.inProgress + res.value.done == |OwnedBy(s, user)|
  {
    if faults.readUser || user !in s.users {
      return Failure(NotFound);
    }
    if faults.readTask {
      return Failure(Failed);
    }
    var stats := ComputeStats(build, rows);
    ListingCounts(rows, s, user, TODO);
    ListingCounts(rows, s, user, IN_PROGRESS);
    ListingCounts(rows, s, user, DONE);
    OwnedSplits(s, user);
    AllKnown(rows, s, user);
    return Success(stats);
  }
}
