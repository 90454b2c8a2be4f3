/** Windows against a rolling minute: when sixty seconds admit no more than the limit, and when twice as much. */
module RateMinute {
  import opened Int64
  import Decimal
  import opened Redis
  import opened SharedRedis
  import opened RateLimit

  // ---------- Calls that do not fail ----------

  /** Every call of the client got its count back. */
  ghost predicate NoErrors(events: seq<Event>, ip: string, perMinute: int) {
    forall bucket: int64 :: TallyOf(map[], events, ip, bucket, perMinute).errors == 0
  }

  /** The command ran and its reply was seen. */
  predicate WasServed(e: Event) {
    !e.RateFail? && (e.RateIncr? ==> !e.lost)
  }

  /** How many calls of the client a run has in a bucket. */
  function CallsIn(events: seq<Event>, ip: string, bucket: int64): nat {
    if events == [] then 0
    else
      var e := events[|events| - 1];
      CallsIn(events[..|events| - 1], ip, bucket) + (if IsCallOf(e, ip) && Bucket(e.arrived) == bucket then 1 else 0)
  }

  /** A counter fails by itself only at the largest int64. */
  lemma {:induction false} ServedCallsCount(events: seq<Event>, ip: string, bucket: int64, perMinute: int, timeout: int)
    requires perMinute > 0 && ValidRun(events, timeout) && timeout <= LongestCall(bucket)
    requires forall e :: e in events ==> WasServed(e)
    requires CallsIn(events, ip, bucket) <= MAX
    ensures var t := TallyOf(map[], events, ip, bucket, perMinute);
            t.errors == 0 && t.applied == CallsIn(events, ip, bucket)
  {
    if events == [] {
    } else {
      var before, e := events[..|events| - 1], events[|events| - 1];
      ServedCallsCount(before, ip, bucket, perMinute, timeout);
      RunKeepsCounter(map[], before, ip, bucket, perMinute, timeout);
      assert e in events;
      if e.RateIncr? && e.ip == ip && Bucket(e.arrived) == bucket {
        WindowBounds(e.arrived);
        assert before != [] ==> before[|before| - 1].at <= e.at;
        var applied := TallyOf(map[], before, ip, bucket, perMinute).applied;
        CounterAnswers(Run(map[], before), RateKey(ip, bucket), applied, bucket, timeout, e.at);
      }
    }
  }

  lemma CounterAnswers(store: Store, key: string, applied: nat, bucket: int64, timeout: int, at: int)
    requires InStep(store, key, applied, bucket, timeout) && !WindowOver(at, bucket, timeout) && applied < MAX
    ensures Incr(store, key, at).Some?
  {
    if applied > 0 {
      Decimal.ParseFormat(applied);
    }
  }

  // ---------- A burst of calls ----------

  /** A run whose commands all succeed at once and are over by `at`. */
  ghost predicate ServedUntil(events: seq<Event>, at: int) {
    ValidRun(events, 0) && forall e :: e in events ==> WasServed(e) && e.at <= at
  }

  /** The calls a run has gained over another one, all at one instant. */
  ghost predicate GainsCalls(events: seq<Event>, run: seq<Event>, ip: string, at: int, n: nat) {
    forall bucket: int64 ::
      CallsIn(run, ip, bucket) == CallsIn(events, ip, bucket) + (if bucket == Bucket(at) then n else 0)
  }

  /** A call within the limit is admitted. */
  lemma NextIsAdmitted(events: seq<Event>, ip: string, at: int, perMinute: int)
    requires ServedUntil(events, at) && Readable(at)
    requires CallsIn(events, ip, Bucket(at)) < perMinute <= MAX
    ensures Admits(Run(map[], events), RateIncr(at, ip, at, false), ip, perMinute) == 1
  {
    var e := RateIncr(at, ip, at, false);
    TimeoutsAreShort(Bucket(at));
    ServedCallsCount(events, ip, Bucket(at), perMinute, 0);
    ExpiringCounterAgrees(map[], events, e, perMinute, 0);
  }

  lemma StaysServed(events: seq<Event>, e: Event, at: int)
    requires ServedUntil(events, at) && WasServed(e) && e.at == at
    requires e.RateIncr? ==> e.arrived == at && Readable(at)
    ensures ServedUntil(events + [e], at)
  {
  }

  lemma GainsOne(events: seq<Event>, e: Event, ip: string, start: int, perMinute: int)
    requires IsCallOf(e, ip) && start <= e.arrived < start + 60_000
    ensures GainsCalls(events, events + [e], ip, e.arrived, 1)
    ensures AdmittedFrom(map[], events + [e], ip, start, perMinute)
         == AdmittedFrom(map[], events, ip, start, perMinute) + Admits(Run(map[], events), e, ip, perMinute)
  {
    assert (events + [e])[..|events|] == events;
  }

  lemma GainsNone(events: seq<Event>, e: Event, ip: string, start: int, perMinute: int)
    requires !IsCallOf(e, ip)
    ensures forall bucket: int64 :: CallsIn(events + [e], ip, bucket) == CallsIn(events, ip, bucket)
    ensures AdmittedFrom(map[], events + [e], ip, start, perMinute) == AdmittedFrom(map[], events, ip, start, perMinute)
  {
    assert (events + [e])[..|events|] == events;
  }

  /** One more call within the limit is admitted; EXPIRE follows the first one of a bucket. */
  lemma OneMoreCall(events: seq<Event>, ip: string, at: int, isFirst: bool, start: int, perMinute: int)
    returns (run: seq<Event>)
    requires ServedUntil(events, at) && Readable(at) && start <= at < start + 60_000
    requires CallsIn(events, ip, Bucket(at)) < perMinute <= MAX
    ensures ServedUntil(run, at) && GainsCalls(events, run, ip, at, 1)
    ensures AdmittedFrom(map[], run, ip, start, perMinute) == AdmittedFrom(map[], events, ip, start, perMinute) + 1
  {
    var e := RateIncr(at, ip, at, false);
    run := events + [e];
    StaysServed(events, e, at);
    NextIsAdmitted(events, ip, at, perMinute);
    GainsOne(events, e, ip, start, perMinute);
    if isFirst {
      var expire := RateExpire(at, ip, Bucket(at));
      StaysServed(run, expire, at);
      GainsNone(run, expire, ip, start, perMinute);
      run := run + [expire];
    }
  }

  /** n calls at one instant: within the limit, and in a bucket of their own, they are admitted all. */
  lemma {:induction false} Burst(events: seq<Event>, ip: string, at: int, n: nat, start: int, perMinute: int)
    returns (run: seq<Event>)
    requires ServedUntil(events, at) && Readable(at) && start <= at < start + 60_000
    requires CallsIn(events, ip, Bucket(at)) == 0 && n <= perMinute <= MAX
    ensures ServedUntil(run, at) && GainsCalls(events, run, ip, at, n)
    ensures AdmittedFrom(map[], run, ip, start, perMinute) == AdmittedFrom(map[], events, ip, start, perMinute) + n
    decreases n
  {
    run := events;
    if n == 0 {
    } else {
      var before := Burst(events, ip, at, n - 1, start, perMinute);
      run := OneMoreCall(before, ip, at, n == 1, start, perMinute);
    }
  }

  // ---------- When a rolling minute keeps the limit ----------

  /** A window ends and the next one begins within the minute from `start` on. */
  predicate MeetsEdge(start: int) {
    Bucket(start + 59_999) != Bucket(start)
  }

  /** From minute 0 on, windows begin at the full minutes. */
  lemma EdgesAreFullMinutes(start: int)
    requires 0 <= start && Readable(start + 60_000)
    ensures MeetsEdge(start) <==> start % 60_000 != 0
  {
    var minute := start / 60_000;
    assert start == 60_000 * minute + start % 60_000;
    WindowNamesBucket(start, minute);
    WindowNamesBucket(start + 59_999, if start % 60_000 == 0 then minute else minute + 1);
  }

  /** The last millisecond of a window and the first of the next, both within the minute. */
  lemma EdgeWithin(start: int) returns (edge: int)
    requires Readable(start) && Readable(start + 60_000) && MeetsEdge(start)
    ensures start < edge < start + 60_000
    ensures Bucket(edge - 1) == Bucket(start) && Bucket(edge) == Bucket(start) + 1
  {
    var bucket := Bucket(start);
    OneMinuteMeetsTwoBuckets(start, start + 59_999);
    WindowBounds(start);
    WindowBounds(start + 59_999);
    edge := EdgeBetween(start, start + 59_999, bucket);
  }

  /** Where one window ends and the next one begins. */
  lemma EdgeBetween(early: int, late: int, bucket: int) returns (edge: int)
    requires Readable(early) && Readable(late)
    requires WindowStart(bucket) <= early <= WindowEnd(bucket) && WindowStart(bucket + 1) <= late
    ensures early < edge <= late && Bucket(edge - 1) == bucket && Bucket(edge) == bucket + 1
  {
    edge := WindowStart(bucket + 1);
    WindowNamesBucket(edge - 1, bucket);
    WindowNamesBucket(edge, bucket + 1);
  }

  /** Full bursts in two buckets raise no error, and both are admitted whole. */
  lemma TwoBursts(ip: string, early: int, late: int, start: int, perMinute: int) returns (events: seq<Event>)
    requires 0 < perMinute <= MAX && Readable(early) && Readable(late)
    requires start <= early <= late < start + 60_000 && Bucket(early) != Bucket(late)
    ensures ValidRun(events, 0) && NoErrors(events, ip, perMinute)
    ensures AdmittedFrom(map[], events, ip, start, perMinute) == 2 * perMinute
  {
    var first := Burst([], ip, early, perMinute, start, perMinute);
    events := Burst(first, ip, late, perMinute, start, perMinute);
    forall bucket: int64
      ensures TallyOf(map[], events, ip, bucket, perMinute).errors == 0
    {
      TimeoutsAreShort(bucket);
      ServedCallsCount(events, ip, bucket, perMinute, 0);
    }
  }

  /** Twice the limit, without any error: a full burst at the end of one window, another as the next begins. */
  lemma TwiceTheLimit(ip: string, start: int, perMinute: int) returns (events: seq<Event>)
    requires 0 < perMinute <= MAX && Readable(start) && Readable(start + 60_000) && MeetsEdge(start)
    ensures ValidRun(events, 0) && NoErrors(events, ip, perMinute)
    ensures AdmittedFrom(map[], events, ip, start, perMinute) == 2 * perMinute
  {
    var edge := EdgeWithin(start);
    events := TwoBursts(ip, edge - 1, edge, start, perMinute);
  }

  lemma {:induction false} SpanWithinBucket(events: seq<Event>, ip: string, start: int, bucket: int64, perMinute: int)
    requires forall e :: e in events && IsCallOf(e, ip) && start <= e.arrived < start + 60_000 ==>
               Bucket(e.arrived) == bucket
    ensures AdmittedFrom(map[], events, ip, start, perMinute) <= TallyOf(map[], events, ip, bucket, perMinute).admitted
  {
    if events == [] {
    } else {
      var before, e := events[..|events| - 1], events[|events| - 1];
      SpanWithinBucket(before, ip, start, bucket, perMinute);
      CountAdds(TallyOf(map[], before, ip, bucket, perMinute), Run(map[], before), e, ip, bucket, perMinute);
    }
  }

  /** No run without errors admits more than the limit from `start` until a minute later. */
  ghost predicate KeepsRollingLimit(ip: string, start: int, perMinute: int, timeout: int) {
    forall events :: ValidRun(events, timeout) && NoErrors(events, ip, perMinute) ==>
      AdmittedFrom(map[], events, ip, start, perMinute) <= perMinute
  }

  lemma WithinOneWindow(events: seq<Event>, ip: string, start: int, perMinute: int, timeout: int)
    requires perMinute > 0 && Readable(start) && Readable(start + 60_000) && !MeetsEdge(start)
    requires ValidRun(events, timeout) && timeout <= LongestCall(Bucket(start)) && NoErrors(events, ip, perMinute)
    ensures AdmittedFrom(map[], events, ip, start, perMinute) <= perMinute
  {
    WindowBounds(start);
    WindowBounds(start + 59_999);
    forall e | e in events && IsCallOf(e, ip) && start <= e.arrived < start + 60_000
      ensures Bucket(e.arrived) == Bucket(start)
    {
      WindowNamesBucket(e.arrived, Bucket(start));
    }
    SpanWithinBucket(events, ip, start, Bucket(start), perMinute);
    AdmissionBound(map[], events, ip, Bucket(start), perMinute, timeout);
    assert TallyOf(map[], events, ip, Bucket(start), perMinute).errors == 0;
  }

  /**
   The limit holds for the sixty seconds from `start` on, over all runs without errors, exactly when they
   lie in one window; for clocks from 1970 on, exactly when `start` is a full minute.
   */
  lemma RollingLimitIffOneWindow(ip: string, start: int, perMinute: int, timeout: int)
    requires 0 < perMinute <= MAX && Readable(start) && Readable(start + 60_000)
    requires 0 <= timeout <= LongestCall(Bucket(start))
    ensures KeepsRollingLimit(ip, start, perMinute, timeout) <==> Bucket(start + 59_999) == Bucket(start)
    ensures start >= 0 ==> (KeepsRollingLimit(ip, start, perMinute, timeout) <==> start % 60_000 == 0)
  {
    if start >= 0 {
      EdgesAreFullMinutes(start);
    }
    if MeetsEdge(start) {
      var events := TwiceTheLimit(ip, start, perMinute);
      assert ValidRun(events, timeout) && AdmittedFrom(map[], events, ip, start, perMinute) > perMinute;
    } else {
      forall events | ValidRun(events, timeout) && NoErrors(events, ip, perMinute)
        ensures AdmittedFrom(map[], events, ip, start, perMinute) <= perMinute
      {
        WithinOneWindow(events, ip, start, perMinute, timeout);
      }
    }
  }
}
