/** The methods through which the program reaches Redis; each one is a step of the shared history. */
module RedisClients {
  import opened Int64
  import opened Wrappers
  import Decimal
  import opened Redis
  import opened SharedRedis
  import opened RateLimit
  import opened Token

  lemma RunOne(store: Store, e: Event)
    ensures Run(store, [e]) == Step(store, e)
  {
    assert [e][..0] == [];
  }

  lemma RunTwo(store: Store, e: Event, e': Event)
    ensures Run(store, [e, e']) == Step(Step(store, e), e')
  {
    assert [e, e'][..1] == [e];
    RunOne(store, e);
  }

  // ---------- The rate limiter ----------

  /** What a rate call does to Redis: EXPIRE follows only the first increment, and only if its reply was seen. */
  function CallEvents(store: Store, now: int, ip: string, clock: int, incr: Fault, expire: Fault): seq<Event> {
    if incr.NotApplied? then [RateFail(now, ip, clock)]
    else
      var first := RateIncr(now, ip, clock, incr.ReplyLost?);
      match Incr(store, RateKey(ip, Bucket(clock)), now)
      case None => [first]
      case Some((_, count)) =>
        if incr.Fine? && count == 1 && !expire.NotApplied?
        then [first, RateExpire(now, ip, Bucket(clock))]
        else [first]
  }

  lemma FirstEventDecides(store: Store, now: int, ip: string, clock: int, incr: Fault, expire: Fault, perMinute: int)
    ensures var reply := Incr(store, RateKey(ip, Bucket(clock)), now);
            var t := Count(Tally(0, 0, 0, 0), store, CallEvents(store, now, ip, clock, incr, expire)[0],
                           ip, Bucket(clock), perMinute);
            t.calls == 1 &&
            t.admitted == if incr.Fine? && reply.Some? && IsLimited(reply.value.1, perMinute) then 0 else 1
  {
  }

  /** After the announced wait, and not a second earlier, the clock is in the next bucket. */
  predicate RetryHelps(clock: int, retryAfter: int) {
    clock >= 0 && Readable(clock) && Readable(clock + 60_000) ==>
      && Bucket(clock + 1000 * retryAfter) == Bucket(clock) + 1
      && Bucket(clock + 1000 * (retryAfter - 1)) == Bucket(clock)
  }

  /** The Retry-After of a rejection: the seconds left in the minute. */
  method RetryAfter(clock: int) returns (seconds: int)
    ensures 1 <= seconds <= 60 && RetryHelps(clock, seconds)
  {
    seconds := 60 - clock / 1000 % 60;
    if seconds <= 0 {
      seconds := 1;
    }
  }

  /** Nothing but one key's entry tells the two stores apart. */
  predicate OnlyKey(before: Store, after: Store, key: string) {
    after - {key} == before - {key}
  }

  /**
   What a call leaves under its key. A first count whose EXPIRE is applied lives two minutes from now; no other
   call touches the deadline of a live counter or gives one to a new counter.
   */
  predicate CounterAfter(before: Store, after: Store, key: string, now: int, res: Result<int64, ()>, expired: bool) {
    && OnlyKey(before, after, key)
    && (res.Success? ==> key in after && after[key].value == Decimal.FormatInt(res.value))
    && (key in after ==>
          if res == Success(1) && expired then after[key].deadline == Some(now + TWO_MINUTES)
          else if Live(before, key, now) then after[key].deadline == before[key].deadline
          else after[key].deadline == None || (res.Failure? && after == before))
  }

  lemma CommandsLeaveCounter(before: Store, key: string, now: int, incr: Fault, expire: Fault)
    ensures var reply := Incr(before, key, now);
            var res := if incr.Fine? && reply.Some? then Success(reply.value.1) else Failure(());
            var counted := if incr.NotApplied? || reply.None? then before else reply.value.0;
            var after := if res == Success(1) && !expire.NotApplied? then Expire(counted, key, now, TWO_MINUTES)
                         else counted;
            CounterAfter(before, after, key, now, res, !expire.NotApplied?)
  {
  }

  datatype Decision = Next | TooManyRequests(retryAfter: int)

  class RateLimiter {
    const server: Server
    const perMinute: int

    constructor (server: Server, perMinute: int)
      ensures this.server == server && this.perMinute == perMinute
    {
      this.server := server;
      this.perMinute := perMinute;
    }

    method IncrementRateCounter(ip: string, clock: int, incr: Fault, expire: Fault) returns (res: Result<int64, ()>)
      modifies server`store
      ensures var reply := Incr(old(server.store), RateKey(ip, Bucket(clock)), server.now);
              res == if incr.Fine? && reply.Some? then Success(reply.value.1) else Failure(())
      ensures CounterAfter(old(server.store), server.store, RateKey(ip, Bucket(clock)), server.now, res,
                           !expire.NotApplied?)
      ensures server.store == Run(old(server.store), CallEvents(old(server.store), server.now, ip, clock, incr, expire))
    {
      var key := RateKey(ip, Bucket(clock));
      ghost var events := CallEvents(server.store, server.now, ip, clock, incr, expire);
      CommandsLeaveCounter(server.store, key, server.now, incr, expire);
      RunOne(server.store, events[0]);
      if |events| == 2 {
        RunTwo(server.store, events[0], events[1]);
      }
      res := server.DoIncr(key, incr);
      if res == Success(1) {
        var _ := server.DoExpire(key, TWO_MINUTES, expire);  // a failure is only logged
      }
    }

    /** A call passes on any error, and otherwise exactly while the count is within the limit. */
    method Handle(ip: string, clock: int, clockAtReply: int, incr: Fault, expire: Fault) returns (d: Decision)
      modifies server`store
      ensures perMinute <= 0 ==> d == Next && server.store == old(server.store)
      ensures perMinute > 0 ==>
                var reply := Incr(old(server.store), RateKey(ip, Bucket(clock)), server.now);
                d.Next? <==> !incr.Fine? || reply.None? || reply.value.1 <= perMinute
      ensures perMinute > 0 ==>
                && (var t := Count(Tally(0, 0, 0, 0), old(server.store),
                                   CallEvents(old(server.store), server.now, ip, clock, incr, expire)[0],
                                   ip, Bucket(clock), perMinute);
                    && t.calls == 1
                    && t.admitted == if d.Next? then 1 else 0)
                && server.store
                     == Run(old(server.store), CallEvents(old(server.store), server.now, ip, clock, incr, expire))
      ensures d.TooManyRequests? ==> 1 <= d.retryAfter <= 60 && RetryHelps(clockAtReply, d.retryAfter)
    {
      if perMinute <= 0 {
        return Next;
      }
      FirstEventDecides(server.store, server.now, ip, clock, incr, expire, perMinute);
      var count := IncrementRateCounter(ip, clock, incr, expire);
      if count.Success? && IsLimited(count.value, perMinute) {
        var retryAfter := RetryAfter(clockAtReply);
        return TooManyRequests(retryAfter);
      }
      return Next;
    }
  }

  /** The Redis a client may be configured with, as the set of objects its calls may change. */
  function Servers(redis: Option<Server>): set<Server> {
    match redis
    case Some(server) => {server}
    case None => {}
  }

  // ---------- Sessions ----------

  class SessionManager {
    const redis: Option<Server>
    const mac: Mac
    const ttl: int

    constructor (redis: Option<Server>, mac: Mac, ttl: int)
      ensures this.redis == redis && this.mac == mac && this.ttl == ttl
    {
      this.redis := redis;
      this.mac := mac;
      this.ttl := ttl;
    }

    /**
     Without Redis the cookie is a signed token; with it, a session id drawn at random, which may fail, and
     the user id is stored under it.
     */
    method BuildCookieValue(userId: int64, expiresAt: Time, sessionId: Option<string>, fault: Fault)
      returns (cookie: Option<string>)
      modifies Servers(redis)`store
      ensures match redis
              case None => cookie == Some(Sign(mac, userId, expiresAt))
              case Some(server) =>
                && cookie == (if fault.Fine? then sessionId else None)
                && server.store == if sessionId.None? || fault.NotApplied? then old(server.store)
                                   else Step(old(server.store), IssueSession(server.now, sessionId.value, userId, ttl))
    {
      if redis.None? {
        return Some(Sign(mac, userId, expiresAt));
      }
      if sessionId.None? {
        return None;
      }
      var ok := redis.value.DoSet(SessionKey(sessionId.value), Decimal.FormatInt(userId), ttl, fault);
      return if ok then sessionId else None;
    }

    method UserIdFromCookieValue(cookie: string, now: Time, fault: Fault) returns (userId: Option<int64>)
      ensures match redis
              case None => userId == Verify(mac, now, cookie).ToOption()
              case Some(server) =>
                userId == if fault.Fine? then SessionUser(server.store, cookie, server.now) else None
    {
      if redis.None? {
        return Verify(mac, now, cookie).ToOption();
      }
      var raw := redis.value.DoGet(SessionKey(cookie), fault);
      match raw
      case Failure(_) => return None;
      case Success(None) => return None;
      case Success(Some(s)) => return Decimal.ParseInt(s);
    }

    /** A signed token cannot be revoked. */
    method Revoke(cookie: string, fault: Fault)
      modifies Servers(redis)`store
      ensures match redis
              case None => true
              case Some(server) =>
                server.store == if fault.NotApplied? then old(server.store)
                                else Step(old(server.store), RevokeSession(server.now, cookie))
    {
      if redis.None? || cookie == "" {
        return;
      }
      var _ := redis.value.DoDel(SessionKey(cookie), fault);
    }
  }

  // ---------- The balance cache ----------

  class BalanceCache {
    const redis: Option<Server>
    const ttl: int

    constructor (redis: Option<Server>, ttl: int)
      ensures this.redis == redis && this.ttl == ttl
    {
      this.redis := redis;
      this.ttl := ttl;
    }

    /** A miss is not an error; a value that does not parse is. Without Redis everything is a miss. */
    method Get(accountId: int64, fault: Fault) returns (res: Result<Option<int64>, ()>)
      ensures redis.None? ==> res == Success(None)
      ensures redis.Some? ==>
                var server := redis.value;
                && (res.Success? ==> res.value == CachedBalance(server.store, accountId, server.now))
                && (res.Failure? <==>
                      || !fault.Fine?
                      || (&& Redis.Get(server.store, BalanceKey(accountId), server.now).Some?
                          && CachedBalance(server.store, accountId, server.now).None?))
    {
      if redis.None? {
        return Success(None);
      }
      var raw := redis.value.DoGet(BalanceKey(accountId), fault);
      match raw
      case Failure(_) => return Failure(());
      case Success(None) => return Success(None);
      case Success(Some(s)) =>
        match Decimal.ParseInt(s)
        case None => return Failure(());
        case Some(balance) => return Success(Some(balance));
    }

    method Set(accountId: int64, balance: int64, fault: Fault) returns (ok: bool)
      modifies Servers(redis)`store
      ensures ok <==> redis.None? || fault.Fine?
      ensures redis.Some? ==>
                redis.value.store
                  == if fault.NotApplied? then old(redis.value.store)
                     else Step(old(redis.value.store), CacheSet(redis.value.now, accountId, balance, ttl))
    {
      if redis.None? {
        return true;
      }
      ok := redis.value.DoSet(BalanceKey(accountId), Decimal.FormatInt(balance), ttl, fault);
    }

    method Invalidate(accountId: int64, fault: Fault) returns (ok: bool)
      modifies Servers(redis)`store
      ensures ok <==> redis.None? || fault.Fine?
      ensures redis.Some? ==>
                redis.value.store
                  == if fault.NotApplied? then old(redis.value.store)
                     else Step(old(redis.value.store), CacheInvalidate(redis.value.now, accountId))
    {
      if redis.None? {
        return true;
      }
      ok := redis.value.DoDel(BalanceKey(accountId), fault);
    }
  }
}
