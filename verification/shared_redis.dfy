/**
 One Redis shared by the rate limiter, the sessions and the balance cache: their keys never meet, and
 sessions and balances read back what their own history says, whatever the others do.
 */
module SharedRedis {
  import opened Int64
  import opened Wrappers
  import Decimal
  import opened Redis

  // ---------- Keys ----------

  function RateKey(ip: string, bucket: int64): string {
    "rate:" + ip + ":" + Decimal.FormatInt(bucket)
  }

  function SessionKey(sessionId: string): string {
    "session:" + sessionId
  }

  function BalanceKey(accountId: int64): string {
    "balance:" + Decimal.FormatInt(accountId)
  }

  lemma {:induction false} LastColonSplits(a: string, b: string, c: string, d: string)
    requires a + ":" + b == c + ":" + d
    requires ':' !in b && ':' !in d
    ensures a == c && b == d
  {
    var s := a + ":" + b;
    assert s[|a|] == ':' && s[|c|] == ':';
    assert |a| == |c|;
    assert a == s[..|a|] && c == s[..|c|];
    assert b == s[|a| + 1..] && d == s[|c| + 1..];
  }

  /** Client and bucket can be read off the key, also when the address has colons of its own. */
  lemma RateKeyInjective(ip: string, bucket: int64, ip': string, bucket': int64)
    requires RateKey(ip, bucket) == RateKey(ip', bucket')
    ensures ip == ip' && bucket == bucket'
  {
    assert ':' !in Decimal.FormatInt(bucket) && ':' !in Decimal.FormatInt(bucket');
    assert RateKey(ip, bucket)[5..] == ip + ":" + Decimal.FormatInt(bucket);
    assert RateKey(ip', bucket')[5..] == ip' + ":" + Decimal.FormatInt(bucket');
    LastColonSplits(ip, Decimal.FormatInt(bucket), ip', Decimal.FormatInt(bucket'));
    Decimal.FormatInjective(bucket, bucket');
  }

  lemma SessionKeyInjective(a: string, b: string)
    requires SessionKey(a) == SessionKey(b)
    ensures a == b
  {
    assert SessionKey(a)[8..] == a && SessionKey(b)[8..] == b;
  }

  lemma BalanceKeyInjective(a: int64, b: int64)
    requires BalanceKey(a) == BalanceKey(b)
    ensures a == b
  {
    assert BalanceKey(a)[8..] == Decimal.FormatInt(a) && BalanceKey(b)[8..] == Decimal.FormatInt(b);
    Decimal.FormatInjective(a, b);
  }

  lemma KeysOfOtherKinds(ip: string, bucket: int64, sessionId: string, accountId: int64)
    ensures RateKey(ip, bucket)[0] == 'r' && SessionKey(sessionId)[0] == 's' && BalanceKey(accountId)[0] == 'b'
    ensures RateKey(ip, bucket) != SessionKey(sessionId)
    ensures SessionKey(sessionId) != BalanceKey(accountId)
    ensures BalanceKey(accountId) != RateKey(ip, bucket)
  {
  }

  // ---------- What the program does to the store ----------

  /**
   `at` is when the command reaches Redis. A rate call arrives earlier, at `arrived`, which decides its
   bucket; when `lost`, its caller saw an error although it was applied. `RateFail` is a call that failed
   without effect.
   */
  datatype Event =
    | RateIncr(at: int, ip: string, arrived: int, lost: bool)
    | RateFail(at: int, ip: string, arrived: int)
    | RateExpire(at: int, ip: string, bucket: int64)
    | IssueSession(at: int, sessionId: string, userId: int64, ttl: int)
    | RevokeSession(at: int, cookie: string)
    | CacheSet(at: int, accountId: int64, balance: int64, ttl: int)
    | CacheInvalidate(at: int, accountId: int64)

  const TWO_MINUTES := 120_000

  /** Go's integer division: it truncates towards zero. */
  function Quotient(x: int, d: int): int
    requires d > 0
  {
    if x >= 0 then x / d else -((0 - x) / d)
  }

  /** now.Unix() / 60, for a clock in milliseconds */
  function Bucket(now: int): (bucket: int64)
    ensures bucket < MAX
  {
    Wrap(Quotient(Wrap(now / 1000), 60))
  }

  function Step(store: Store, e: Event): Store {
    match e
    case RateIncr(at, ip, arrived, _) =>
      (match Incr(store, RateKey(ip, Bucket(arrived)), at)
       case None => store
       case Some((after, _)) => after)
    case RateFail(_, _, _) => store
    case RateExpire(at, ip, bucket) => Expire(store, RateKey(ip, bucket), at, TWO_MINUTES)
    case IssueSession(at, sessionId, userId, ttl) =>
      Set(store, SessionKey(sessionId), Decimal.FormatInt(userId), at, ttl)
    case RevokeSession(_, cookie) => if cookie == "" then store else Del(store, SessionKey(cookie))
    case CacheSet(at, accountId, balance, ttl) =>
      Set(store, BalanceKey(accountId), Decimal.FormatInt(balance), at, ttl)
    case CacheInvalidate(_, accountId) => Del(store, BalanceKey(accountId))
  }

  function Run(store: Store, events: seq<Event>): Store {
    if events == [] then store else Step(Run(store, events[..|events| - 1]), events[|events| - 1])
  }

  // ---------- What the readers see ----------

  function ReadInt(raw: Option<string>): Option<int64> {
    match raw
    case None => None
    case Some(s) => Decimal.ParseInt(s)
  }

  function CachedBalance(store: Store, accountId: int64, now: int): Option<int64> {
    ReadInt(Get(store, BalanceKey(accountId), now))
  }

  function SessionUser(store: Store, sessionId: string, now: int): Option<int64> {
    ReadInt(Get(store, SessionKey(sessionId), now))
  }

  /** The last balance put for the account, unless it was invalidated or ran out since. */
  function LastBalance(events: seq<Event>, accountId: int64, now: int): Option<int64> {
    if events == [] then None
    else
      match events[|events| - 1]
      case CacheSet(at, id, balance, ttl) =>
        if id == accountId then if ttl <= 0 || now <= at + ttl then Some(balance) else None
        else LastBalance(events[..|events| - 1], accountId, now)
      case CacheInvalidate(_, id) =>
        if id == accountId then None else LastBalance(events[..|events| - 1], accountId, now)
      case _ => LastBalance(events[..|events| - 1], accountId, now)
  }

  /** The user the session was issued for, unless it was revoked or ran out since. */
  function LastUser(events: seq<Event>, sessionId: string, now: int): Option<int64> {
    if events == [] then None
    else
      match events[|events| - 1]
      case IssueSession(at, id, userId, ttl) =>
        if id == sessionId then if ttl <= 0 || now <= at + ttl then Some(userId) else None
        else LastUser(events[..|events| - 1], sessionId, now)
      case RevokeSession(_, cookie) =>
        if cookie == sessionId then None else LastUser(events[..|events| - 1], sessionId, now)
      case _ => LastUser(events[..|events| - 1], sessionId, now)
  }

  /** The one key an event may change. */
  function KeyOf(e: Event): string {
    match e
    case RateIncr(_, ip, arrived, _) => RateKey(ip, Bucket(arrived))
    case RateFail(_, ip, arrived) => RateKey(ip, Bucket(arrived))
    case RateExpire(_, ip, bucket) => RateKey(ip, bucket)
    case IssueSession(_, sessionId, _, _) => SessionKey(sessionId)
    case RevokeSession(_, cookie) => SessionKey(cookie)
    case CacheSet(_, accountId, _, _) => BalanceKey(accountId)
    case CacheInvalidate(_, accountId) => BalanceKey(accountId)
  }

  lemma StepTouchesOneKey(store: Store, e: Event, key: string)
    requires key != KeyOf(e)
    ensures key in Step(store, e) <==> key in store
    ensures key in store ==> Step(store, e)[key] == store[key]
  {
  }

  /** A cached balance is the last one put that is neither invalidated nor expired, for every int64. */
  lemma {:induction false} BalanceView(store: Store, events: seq<Event>, accountId: int64, now: int)
    requires BalanceKey(accountId) !in store
    ensures CachedBalance(Run(store, events), accountId, now) == LastBalance(events, accountId, now)
  {
    if events == [] {
    } else {
      var e := events[|events| - 1];
      BalanceView(store, events[..|events| - 1], accountId, now);
      if KeyOf(e) == BalanceKey(accountId) {
        KeysAgree(e, accountId);
        if e.CacheSet? {
          Decimal.ParseFormat(e.balance);
        }
      } else {
        StepTouchesOneKey(Run(store, events[..|events| - 1]), e, BalanceKey(accountId));
      }
    }
  }

  lemma KeysAgree(e: Event, accountId: int64)
    requires KeyOf(e) == BalanceKey(accountId)
    ensures (e.CacheSet? || e.CacheInvalidate?) && e.accountId == accountId
  {
    assert KeyOf(e)[0] == 'b';
    assert e.CacheSet? || e.CacheInvalidate?;
    BalanceKeyInjective(e.accountId, accountId);
  }

  /** A session names the user it was issued for until it is revoked or runs out. */
  lemma {:induction false} SessionView(store: Store, events: seq<Event>, sessionId: string, now: int)
    requires SessionKey(sessionId) !in store && sessionId != ""
    ensures SessionUser(Run(store, events), sessionId, now) == LastUser(events, sessionId, now)
  {
    if events == [] {
    } else {
      var e := events[|events| - 1];
      SessionView(store, events[..|events| - 1], sessionId, now);
      if KeyOf(e) == SessionKey(sessionId) {
        assert KeyOf(e)[0] == 's';
        assert e.IssueSession? || e.RevokeSession?;
        SessionKeyInjective(if e.IssueSession? then e.sessionId else e.cookie, sessionId);
        if e.IssueSession? {
          Decimal.ParseFormat(e.userId);
        }
      } else {
        StepTouchesOneKey(Run(store, events[..|events| - 1]), e, SessionKey(sessionId));
      }
    }
  }
}
