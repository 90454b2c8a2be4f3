/** How long the rate limiter's counters stay in Redis, over any sequence of its calls. */
module RateLifetime {
  import opened Int64
  import opened Wrappers
  import Decimal
  import opened Redis
  import opened SharedRedis
  import opened RedisClients

  /** One call of the limiter: when its commands run, for whom, and how INCR and EXPIRE end. */
  datatype Call = Call(now: int, ip: string, clock: int, incr: Fault, expire: Fault)

  function CounterKey(c: Call): string {
    RateKey(c.ip, Bucket(c.clock))
  }

  function ServeOne(store: Store, c: Call): Store {
    Run(store, CallEvents(store, c.now, c.ip, c.clock, c.incr, c.expire))
  }

  function ServeAll(calls: seq<Call>): Store {
    if calls == [] then map[] else ServeOne(ServeAll(calls[..|calls| - 1]), calls[|calls| - 1])
  }

  /** The call starts a counter: its increment is applied and counts 1. */
  predicate Starts(store: Store, c: Call) {
    var reply := Incr(store, CounterKey(c), c.now);
    !c.incr.NotApplied? && reply.Some? && reply.value.1 == 1
  }

  /** The call that started the counter that is now under a key. */
  function FirstCall(calls: seq<Call>, key: string): Option<Call> {
    if calls == [] then None
    else
      var before, c := calls[..|calls| - 1], calls[|calls| - 1];
      if CounterKey(c) == key && Starts(ServeAll(before), c) then Some(c) else FirstCall(before, key)
  }

  /** Its caller saw the count 1, and the EXPIRE it then sent was applied. */
  predicate SetsLifetime(c: Call) {
    c.incr.Fine? && !c.expire.NotApplied?
  }

  predicate HoldsCounter(store: Store, key: string, first: Option<Call>) {
    && (key in store <==> first.Some?)
    && (key in store ==>
          && Decimal.ParseInt(store[key].value).Some? && Decimal.ParseInt(store[key].value).value >= 1
          && store[key].deadline == if SetsLifetime(first.value) then Some(first.value.now + TWO_MINUTES) else None)
  }

  lemma ServeOneMeaning(store: Store, c: Call)
    ensures var key, reply := CounterKey(c), Incr(store, CounterKey(c), c.now);
            ServeOne(store, c) ==
              if c.incr.NotApplied? || reply.None? then store
              else if reply.value.1 == 1 && SetsLifetime(c) then Expire(reply.value.0, key, c.now, TWO_MINUTES)
              else reply.value.0
  {
    var events := CallEvents(store, c.now, c.ip, c.clock, c.incr, c.expire);
    RunOne(store, events[0]);
    if |events| == 2 {
      RunTwo(store, events[0], events[1]);
    }
  }

  lemma ServeOneHolds(store: Store, c: Call, key: string, first: Option<Call>)
    requires HoldsCounter(store, key, first)
    ensures HoldsCounter(ServeOne(store, c), key, if CounterKey(c) == key && Starts(store, c) then Some(c) else first)
  {
    ServeOneMeaning(store, c);
    if CounterKey(c) == key {
      var reply := Incr(store, key, c.now);
      if reply.Some? {
        Decimal.ParseFormat(reply.value.1);
      }
    }
  }

  /**
   A counter lives two minutes from its first increment, whatever calls follow, if that call's count was seen
   and its EXPIRE applied; otherwise it has no deadline and stays for good.
   */
  lemma {:induction false} CounterLifetime(calls: seq<Call>, key: string)
    ensures HoldsCounter(ServeAll(calls), key, FirstCall(calls, key))
  {
    if calls == [] {
    } else {
      CounterLifetime(calls[..|calls| - 1], key);
      ServeOneHolds(ServeAll(calls[..|calls| - 1]), calls[|calls| - 1], key, FirstCall(calls[..|calls| - 1], key));
    }
  }

  /** Where no EXPIRE fails and no reply is lost, no counter is there later than two minutes after its start. */
  lemma NoCounterOutlives(calls: seq<Call>, key: string, now: int)
    requires forall c :: c in calls ==> !c.incr.ReplyLost? && !c.expire.NotApplied?
    ensures Live(ServeAll(calls), key, now) <==>
              FirstCall(calls, key).Some? && now <= FirstCall(calls, key).value.now + TWO_MINUTES
  {
    CounterLifetime(calls, key);
    FirstCallIsACall(calls, key);
  }

  lemma {:induction false} FirstCallIsACall(calls: seq<Call>, key: string)
    ensures FirstCall(calls, key).Some? ==>
              var c := FirstCall(calls, key).value; c in calls && CounterKey(c) == key && !c.incr.NotApplied?
  {
    if calls == [] {
    } else {
      FirstCallIsACall(calls[..|calls| - 1], key);
    }
  }

  /** A counter is there at all times to come exactly when its first call lost its reply or its EXPIRE. */
  lemma LivesForeverIffNotExpired(calls: seq<Call>, key: string)
    requires key in ServeAll(calls)
    ensures FirstCall(calls, key).Some?
    ensures (forall now :: Live(ServeAll(calls), key, now)) <==> !SetsLifetime(FirstCall(calls, key).value)
  {
    CounterLifetime(calls, key);
    var first := FirstCall(calls, key).value;
    if SetsLifetime(first) {
      assert !Live(ServeAll(calls), key, first.now + TWO_MINUTES + 1);
    }
  }
}
