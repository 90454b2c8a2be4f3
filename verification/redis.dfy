/** The Redis commands the program uses, on a map from keys to values with optional deadlines; times in milliseconds. */
module Redis {
  import opened Int64
  import opened Wrappers
  import Decimal

  datatype Entry = Entry(value: string, deadline: Option<int>)

  type Store = map<string, Entry>

  predicate Live(store: Store, key: string, now: int) {
    key in store && (store[key].deadline.Some? ==> now <= store[key].deadline.value)
  }

  function Get(store: Store, key: string, now: int): Option<string> {
    if Live(store, key, now) then Some(store[key].value) else None
  }

  /** SET: the client asks for a lifetime only when it is positive; otherwise the entry stays for good. */
  function Set(store: Store, key: string, value: string, now: int, ttl: int): Store {
    store[key := Entry(value, if ttl > 0 then Some(now + ttl) else None)]
  }

  function Del(store: Store, key: string): Store {
    store - {key}
  }

  /**
   INCR: a missing or expired key counts as 0 and gets no deadline; a value that is no int64, or the largest
   one, is an error.
   */
  function Incr(store: Store, key: string, now: int): Option<(Store, int64)> {
    if !Live(store, key, now) then Some((store[key := Entry(Decimal.FormatInt(1), None)], 1))
    else
      match Decimal.ParseInt(store[key].value)
      case None => None
      case Some(n) =>
        if n == MAX || Decimal.FormatInt(n) != store[key].value then None
        else Some((store[key := store[key].(value := Decimal.FormatInt(n + 1))], n + 1))
  }

  function Expire(store: Store, key: string, now: int, ttl: int): Store {
    if Live(store, key, now) then store[key := store[key].(deadline := Some(now + ttl))] else store
  }

  /** How one command ends for its caller. */
  datatype Fault = Fine | NotApplied | ReplyLost

  /** The server, with the clock its commands run at. */
  class Server {
    var store: Store
    var now: int

    constructor ()
      ensures store == map[]
    {
      store := map[];
      now := 0;
    }

    method DoGet(key: string, fault: Fault) returns (res: Result<Option<string>, ()>)
      ensures res == if fault.Fine? then Success(Get(store, key, now)) else Failure(())
    {
      if !fault.Fine? {
        return Failure(());
      }
      return Success(Get(store, key, now));
    }

    method DoSet(key: string, value: string, ttl: int, fault: Fault) returns (ok: bool)
      modifies this`store
      ensures ok <==> fault.Fine?
      ensures store == if fault.NotApplied? then old(store) else Set(old(store), key, value, now, ttl)
    {
      if !fault.NotApplied? {
        store := Set(store, key, value, now, ttl);
      }
      return fault.Fine?;
    }

    method DoDel(key: string, fault: Fault) returns (ok: bool)
      modifies this`store
      ensures ok <==> fault.Fine?
      ensures store == if fault.NotApplied? then old(store) else Del(old(store), key)
    {
      if !fault.NotApplied? {
        store := Del(store, key);
      }
      return fault.Fine?;
    }

    method DoIncr(key: string, fault: Fault) returns (res: Result<int64, ()>)
      modifies this`store
      ensures var reply := Incr(old(store), key, now);
              && (res == if fault.Fine? && reply.Some? then Success(reply.value.1) else Failure(()))
              && (store == if fault.NotApplied? || reply.None? then old(store) else reply.value.0)
    {
      res := Failure(());
      if !fault.NotApplied? {
        match Incr(store, key, now)
        case None =>
        case Some((after, count)) =>
          store := after;
          if fault.Fine? {
            res := Success(count);
          }
      }
    }

    method DoExpire(key: string, ttl: int, fault: Fault) returns (ok: bool)
      modifies this`store
      ensures ok <==> fault.Fine?
      ensures store == if fault.NotApplied? then old(store) else Expire(old(store), key, now, ttl)
    {
      if !fault.NotApplied? {
        store := Expire(store, key, now, ttl);
      }
      return fault.Fine?;
    }
  }
}
