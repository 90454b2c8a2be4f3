/** The fixed-window rate limiter: one counter per client and minute, kept in the shared Redis. */
module RateLimit {
  import opened Int64
  import opened Wrappers
  import Decimal
  import opened Redis
  import opened SharedRedis

  /** The deadline of a call's context, and what the client waits for its sockets when it does not enforce that. */
  const CALL_TIMEOUT := 200
  const SOCKET_TIMEOUT := 3000

  // ---------- Windows ----------

  /** A clock reading whose Unix second is an int64. */
  predicate Readable(clock: int) {
    InRange(clock / 1000)
  }

  /** The first and the last millisecond of a bucket; truncation makes bucket 0 almost two minutes wide. */
  function WindowStart(bucket: int): int {
    if bucket > 0 then bucket * 60_000 else (bucket * 60 - 59) * 1000
  }

  function WindowEnd(bucket: int): int {
    if bucket >= 0 then bucket * 60_000 + 59_999 else bucket * 60_000 + 999
  }

  lemma WindowBounds(clock: int)
    requires Readable(clock)
    ensures WindowStart(Bucket(clock)) <= clock <= WindowEnd(Bucket(clock))
  {
  }

  /** How long a call may take for the lifetime of a counter to outlast its window. */
  function LongestCall(bucket: int): int {
    WindowStart(bucket) + TWO_MINUTES - WindowEnd(bucket)
  }

  /** Over a minute, so that both timeouts are short enough; only the long bucket 0 bears no more than the first. */
  lemma TimeoutsAreShort(bucket: int)
    ensures LongestCall(bucket) == if bucket == 0 then 1_001 else 60_001
    ensures CALL_TIMEOUT <= LongestCall(bucket)
    ensures bucket != 0 <==> SOCKET_TIMEOUT <= LongestCall(bucket)
  {
  }

  lemma OneMinuteMeetsTwoBuckets(start: int, clock: int)
    requires Readable(start) && Readable(clock) && start <= clock < start + 60_000
    ensures Bucket(clock) == Bucket(start) || Bucket(clock) == Bucket(start) + 1
  {
  }

  /** The windows do not overlap, so a bucket is known by its bounds. */
  lemma WindowNamesBucket(clock: int, bucket: int)
    requires Readable(clock) && WindowStart(bucket) <= clock <= WindowEnd(bucket)
    ensures Bucket(clock) == bucket
  {
    var other := Bucket(clock);
    WindowBounds(clock);
    assert other < bucket ==> WindowEnd(other) < WindowStart(bucket);
    assert bucket < other ==> WindowEnd(bucket) < WindowStart(other);
  }

  // ---------- Runs ----------

  /**
   Commands reach Redis in the order of its clock; no command is earlier than the call that sent it, and
   a call whose reply was seen took at most the timeout.
   */
  ghost predicate ValidRun(events: seq<Event>, timeout: int) {
    && (forall i, j :: 0 <= i < j < |events| ==> events[i].at <= events[j].at)
    && (forall i :: 0 <= i < |events| && events[i].RateIncr? ==>
          && Readable(events[i].arrived)
          && events[i].arrived <= events[i].at
          && (!events[i].lost ==> events[i].at <= events[i].arrived + timeout))
  }

  /** What became of one client's calls in one bucket. `applied` is a counter that never expires. */
  datatype Tally = Tally(calls: nat, errors: nat, applied: nat, admitted: nat)

  predicate IsLimited(count: int64, perMinute: int) {
    count > perMinute
  }

  function CountCall(t: Tally, reply: Option<int64>, applied: bool, perMinute: int): Tally {
    var passes := reply.None? || !IsLimited(reply.value, perMinute);  // errors fail open
    Tally(t.calls + 1,
          t.errors + (if reply.None? then 1 else 0),
          t.applied + (if applied then 1 else 0),
          t.admitted + (if passes then 1 else 0))
  }

  function Count(t: Tally, store: Store, e: Event, ip: string, bucket: int64, perMinute: int): Tally {
    match e
    case RateIncr(at, ip', arrived, lost) =>
      if ip' != ip || Bucket(arrived) != bucket then t
      else
        (match Incr(store, RateKey(ip, bucket), at)
         case None => CountCall(t, None, false, perMinute)
         case Some((_, count)) => CountCall(t, if lost then None else Some(count), true, perMinute))
    case RateFail(_, ip', arrived) =>
      if ip' != ip || Bucket(arrived) != bucket then t else CountCall(t, None, false, perMinute)
    case _ => t
  }

  function TallyOf(store: Store, events: seq<Event>, ip: string, bucket: int64, perMinute: int): Tally {
    if events == [] then Tally(0, 0, 0, 0)
    else
      var before := events[..|events| - 1];
      var t := TallyOf(store, before, ip, bucket, perMinute);
      Count(t, Run(store, before), events[|events| - 1], ip, bucket, perMinute)
  }

  // ---------- The expiring counter ----------

  /** The stored counter is the one that never expires, and will not expire while the window is open. */
  predicate InStep(store: Store, key: string, applied: nat, bucket: int64, timeout: int) {
    if applied == 0 then key !in store
    else
      && key in store && applied <= MAX && store[key].value == Decimal.FormatInt(applied)
      && (store[key].deadline.Some? ==> store[key].deadline.value >= WindowEnd(bucket) + timeout)
  }

  /** From here on no call of the bucket can see its reply in time. */
  predicate WindowOver(now: int, bucket: int64, timeout: int) {
    now > WindowEnd(bucket) + timeout
  }

  lemma StepKeepsCounter(store: Store, e: Event, ip: string, bucket: int64, perMinute: int, timeout: int, t: Tally)
    requires timeout <= LongestCall(bucket)
    requires InStep(store, RateKey(ip, bucket), t.applied, bucket, timeout)
    requires t.applied > 0 ==> WindowStart(bucket) <= e.at
    requires e.RateIncr? ==> Readable(e.arrived) && e.arrived <= e.at
    requires !WindowOver(e.at, bucket, timeout)
    ensures var t' := Count(t, store, e, ip, bucket, perMinute);
            && InStep(Step(store, e), RateKey(ip, bucket), t'.applied, bucket, timeout)
            && (t'.applied > 0 ==> WindowStart(bucket) <= e.at)
  {
    var key := RateKey(ip, bucket);
    if t.applied > 0 {
      Decimal.ParseFormat(t.applied);
    }
    if KeyOf(e) != key {
      StepTouchesOneKey(store, e, key);
    } else {
      assert KeyOf(e)[0] == 'r';
      if e.RateIncr? {
        RateKeyInjective(e.ip, Bucket(e.arrived), ip, bucket);
        WindowBounds(e.arrived);
      } else if e.RateExpire? {
        RateKeyInjective(e.ip, e.bucket, ip, bucket);
      } else {
        assert e.RateFail?;
      }
    }
  }

  /** The bounds that one more call keeps, given that a reply it sees is the true count. */
  predicate Bounded(t: Tally, perMinute: int) {
    && t.admitted <= t.errors + perMinute
    && t.admitted <= t.errors + t.applied
    && (t.errors == 0 ==> t.applied == t.calls && t.admitted == if t.calls <= perMinute then t.calls else perMinute)
  }

  /** A call whose reply is seen finds the counter in step, as its window is not over yet. */
  lemma StepKeepsBounds(store: Store, e: Event, ip: string, bucket: int64, perMinute: int, timeout: int, t: Tally)
    requires perMinute > 0 && Bounded(t, perMinute)
    requires e.RateIncr? ==> Readable(e.arrived) && (!e.lost ==> e.at <= e.arrived + timeout)
    requires WindowOver(e.at, bucket, timeout) || InStep(store, RateKey(ip, bucket), t.applied, bucket, timeout)
    ensures Bounded(Count(t, store, e, ip, bucket, perMinute), perMinute)
  {
    if e.RateIncr? {
      WindowBounds(e.arrived);
      if t.applied > 0 && !WindowOver(e.at, bucket, timeout) {
        Decimal.ParseFormat(t.applied);
      }
    }
  }

  /** Either the window is over, or the counter is in step. */
  predicate Tracks(store: Store, events: seq<Event>, ip: string, bucket: int64, timeout: int, applied: nat) {
    || (events != [] && WindowOver(events[|events| - 1].at, bucket, timeout))
    || (&& InStep(store, RateKey(ip, bucket), applied, bucket, timeout)
        && (applied > 0 ==> events != [] && WindowStart(bucket) <= events[|events| - 1].at))
  }

  lemma {:induction false} RunKeepsCounter(store: Store, events: seq<Event>, ip: string, bucket: int64, perMinute: int,
                                           timeout: int)
    requires perMinute > 0 && ValidRun(events, timeout) && timeout <= LongestCall(bucket)
    requires RateKey(ip, bucket) !in store
    ensures var t := TallyOf(store, events, ip, bucket, perMinute);
            Bounded(t, perMinute) && Tracks(Run(store, events), events, ip, bucket, timeout, t.applied)
  {
    if events == [] {
    } else {
      var before, e := events[..|events| - 1], events[|events| - 1];
      var t := TallyOf(store, before, ip, bucket, perMinute);
      RunKeepsCounter(store, before, ip, bucket, perMinute, timeout);
      assert before != [] ==> before[|before| - 1].at <= e.at;
      StepKeepsBounds(Run(store, before), e, ip, bucket, perMinute, timeout, t);
      if !WindowOver(e.at, bucket, timeout) {
        StepKeepsCounter(Run(store, before), e, ip, bucket, perMinute, timeout, t);
      }
    }
  }

  // ---------- What it means ----------

  /** A counter in step answers INCR with the true count. */
  lemma InStepReplies(store: Store, key: string, applied: nat, bucket: int64, timeout: int, at: int)
    requires InStep(store, key, applied, bucket, timeout) && !WindowOver(at, bucket, timeout)
    ensures var reply := Incr(store, key, at); reply.Some? ==> reply.value.1 == applied + 1
  {
    if applied > 0 {
      Decimal.ParseFormat(applied);
    }
  }

  /** The reply to a call, if there is one, is the number of calls applied in its window, itself included. */
  ghost predicate RepliesTruly(store: Store, before: seq<Event>, e: Event, perMinute: int)
    requires e.RateIncr?
  {
    var reply := Incr(Run(store, before), KeyOf(e), e.at);
    reply.Some? ==> reply.value.1 == TallyOf(store, before, e.ip, Bucket(e.arrived), perMinute).applied + 1
  }

  /**
   Expiry never drops a counter in use: on every run that starts without the key, a reply that is seen
   is the number of calls of that client and minute applied so far, whether EXPIRE worked or not.
   */
  lemma ExpiringCounterAgrees(store: Store, before: seq<Event>, e: Event, perMinute: int, timeout: int)
    requires perMinute > 0 && e.RateIncr? && !e.lost && ValidRun(before + [e], timeout)
    requires timeout <= LongestCall(Bucket(e.arrived)) && RateKey(e.ip, Bucket(e.arrived)) !in store
    ensures RepliesTruly(store, before, e, perMinute)
  {
    var bucket := Bucket(e.arrived);
    ValidRunSplits(before, e, timeout);
    RunKeepsCounter(store, before, e.ip, bucket, perMinute, timeout);
    WindowBounds(e.arrived);
    var applied := TallyOf(store, before, e.ip, bucket, perMinute).applied;
    InStepReplies(Run(store, before), KeyOf(e), applied, bucket, timeout, e.at);
  }

  /** On no run from an empty store is a call of this client and bucket miscounted. */
  ghost predicate NeverDropped(ip: string, bucket: int64, perMinute: int, timeout: int) {
    forall before: seq<Event>, e: Event ::
      ValidRun(before + [e], timeout) && e.RateIncr? && !e.lost && e.ip == ip && Bucket(e.arrived) == bucket ==>
        RepliesTruly(map[], before, e, perMinute)
  }

  lemma FirstCallCounts(ip: string, at: int, perMinute: int)
    ensures var before := [RateIncr(at, ip, at, false), RateExpire(at, ip, Bucket(at))];
            && Run(map[], before)
                 == map[RateKey(ip, Bucket(at)) := Entry(Decimal.FormatInt(1), Some(at + TWO_MINUTES))]
            && TallyOf(map[], before, ip, Bucket(at), perMinute).applied == 1
  {
    var first, expire := RateIncr(at, ip, at, false), RateExpire(at, ip, Bucket(at));
    assert [first, expire][..1] == [first] && [first][..0] == [];
    assert Run(map[], [first]) == map[RateKey(ip, Bucket(at)) := Entry(Decimal.FormatInt(1), None)];
    assert TallyOf(map[], [first], ip, Bucket(at), perMinute).applied == 1;
  }

  /** The first call as a window begins, with its EXPIRE, and another as the window ends that takes too long. */
  lemma LateCallIsMiscounted(ip: string, bucket: int64, perMinute: int, timeout: int)
    returns (before: seq<Event>, e: Event)
    requires Readable(WindowStart(bucket)) && Readable(WindowEnd(bucket)) && timeout > LongestCall(bucket)
    ensures ValidRun(before + [e], timeout) && e.RateIncr? && !e.lost && e.ip == ip && Bucket(e.arrived) == bucket
    ensures !RepliesTruly(map[], before, e, perMinute)
  {
    var start, end := WindowStart(bucket), WindowEnd(bucket);
    WindowNamesBucket(start, bucket);
    WindowNamesBucket(end, bucket);
    var first, expire := RateIncr(start, ip, start, false), RateExpire(start, ip, bucket);
    before, e := [first, expire], RateIncr(end + timeout, ip, end, false);
    FirstCallCounts(ip, start, perMinute);
  }

  /** Exactly the calls that may take longer than `LongestCall` can lose their counter. */
  lemma NeverDroppedIffCallsAreShort(ip: string, bucket: int64, perMinute: int, timeout: int)
    requires perMinute > 0 && Readable(WindowStart(bucket)) && Readable(WindowEnd(bucket))
    ensures NeverDropped(ip, bucket, perMinute, timeout) <==> timeout <= LongestCall(bucket)
  {
    if timeout <= LongestCall(bucket) {
      forall before: seq<Event>, e: Event |
        ValidRun(before + [e], timeout) && e.RateIncr? && !e.lost && e.ip == ip && Bucket(e.arrived) == bucket
        ensures RepliesTruly(map[], before, e, perMinute)
      {
        ExpiringCounterAgrees(map[], before, e, perMinute, timeout);
      }
    } else {
      var before, e := LateCallIsMiscounted(ip, bucket, perMinute, timeout);
    }
  }

  lemma ValidRunSplits(before: seq<Event>, e: Event, timeout: int)
    requires ValidRun(before + [e], timeout)
    ensures ValidRun(before, timeout)
    ensures before != [] ==> before[|before| - 1].at <= e.at
    ensures e.RateIncr? ==> Readable(e.arrived) && (!e.lost ==> e.at <= e.arrived + timeout)
  {
    assert (before + [e])[|before|] == e;
    assert forall i :: 0 <= i < |before| ==> (before + [e])[i] == before[i];
  }

  /**
   Of n calls of a client in a minute, exactly min(n, perMinute) are admitted when no call fails,
   and at most one more for each that does.
   */
  lemma AdmissionBound(store: Store, events: seq<Event>, ip: string, bucket: int64, perMinute: int, timeout: int)
    requires perMinute > 0 && ValidRun(events, timeout) && timeout <= LongestCall(bucket)
    requires RateKey(ip, bucket) !in store
    ensures var t := TallyOf(store, events, ip, bucket, perMinute);
            && t.admitted <= perMinute + t.errors
            && (t.errors == 0 ==> t.admitted == if t.calls <= perMinute then t.calls else perMinute)
  {
    RunKeepsCounter(store, events, ip, bucket, perMinute, timeout);
  }

  predicate IsCallOf(e: Event, ip: string) {
    (e.RateIncr? || e.RateFail?) && e.ip == ip
  }

  /** 1 for a call that is admitted, 0 for one that is not. */
  function Admits(store: Store, e: Event, ip: string, perMinute: int): nat
    requires IsCallOf(e, ip)
  {
    Count(Tally(0, 0, 0, 0), store, e, ip, Bucket(e.arrived), perMinute).admitted
  }

  /** The calls of a client admitted among those arriving in the minute from `start` on. */
  function AdmittedFrom(store: Store, events: seq<Event>, ip: string, start: int, perMinute: int): nat {
    if events == [] then 0
    else
      var before, e := events[..|events| - 1], events[|events| - 1];
      AdmittedFrom(store, before, ip, start, perMinute)
      + (if IsCallOf(e, ip) && start <= e.arrived < start + 60_000
         then Admits(Run(store, before), e, ip, perMinute) else 0)
  }

  lemma CountAdds(t: Tally, store: Store, e: Event, ip: string, bucket: int64, perMinute: int)
    ensures Count(t, store, e, ip, bucket, perMinute).admitted
         == t.admitted + (if IsCallOf(e, ip) && Bucket(e.arrived) == bucket then Admits(store, e, ip, perMinute) else 0)
  {
  }

  lemma {:induction false} SpanWithinTwoBuckets(store: Store, events: seq<Event>, ip: string, start: int, bucket: int64,
                                                perMinute: int)
    requires bucket < MAX
    requires forall e :: e in events && IsCallOf(e, ip) && start <= e.arrived < start + 60_000 ==>
               Bucket(e.arrived) == bucket || Bucket(e.arrived) == bucket + 1
    ensures AdmittedFrom(store, events, ip, start, perMinute) <=
              TallyOf(store, events, ip, bucket, perMinute).admitted
              + TallyOf(store, events, ip, bucket + 1, perMinute).admitted
  {
    if events == [] {
    } else {
      var before, e := events[..|events| - 1], events[|events| - 1];
      SpanWithinTwoBuckets(store, before, ip, start, bucket, perMinute);
      var s := Run(store, before);
      CountAdds(TallyOf(store, before, ip, bucket, perMinute), s, e, ip, bucket, perMinute);
      CountAdds(TallyOf(store, before, ip, bucket + 1, perMinute), s, e, ip, bucket + 1, perMinute);
    }
  }

  /** Any sixty seconds admit at most twice the limit, plus one call for each error in the buckets they meet. */
  lemma AnyMinuteBound(store: Store, events: seq<Event>, ip: string, start: int, perMinute: int, timeout: int)
    requires perMinute > 0 && ValidRun(events, timeout) && Readable(start) && Readable(start + 60_000)
    requires timeout <= LongestCall(Bucket(start)) && timeout <= LongestCall(Bucket(start) + 1)
    requires RateKey(ip, Bucket(start)) !in store && RateKey(ip, Bucket(start) + 1) !in store
    ensures AdmittedFrom(store, events, ip, start, perMinute) <= 2 * perMinute
              + TallyOf(store, events, ip, Bucket(start), perMinute).errors
              + TallyOf(store, events, ip, Bucket(start) + 1, perMinute).errors
  {
    forall e | e in events && IsCallOf(e, ip) && start <= e.arrived < start + 60_000
      ensures Bucket(e.arrived) == Bucket(start) || Bucket(e.arrived) == Bucket(start) + 1
    {
      OneMinuteMeetsTwoBuckets(start, e.arrived);
    }
    SpanWithinTwoBuckets(store, events, ip, start, Bucket(start), perMinute);
    AdmissionBound(store, events, ip, Bucket(start), perMinute, timeout);
    AdmissionBound(store, events, ip, Bucket(start) + 1, perMinute, timeout);
  }
}
