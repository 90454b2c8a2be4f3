/** The append-only audit log: records under the bucket's own sequence numbers. */
module AuditLog {
  import opened Int64
  import opened Wrappers
  import opened Bolt

  datatype AuditRecord = AuditRecord(timestamp: int, httpMethod: string, path: string, remote: string, status: int)

  /** A record as stored, in the encoding of the JSON library. */
  type Payload = string

  datatype Log = Log(items: map<Key, Payload>, sequence: int)

  const EMPTY_LOG := Log(map[], 0)

  /** itob(int64(id)) */
  function SequenceKey(id: int): Key {
    Itob(Wrap(id))
  }

  function Put(log: Log, payload: Payload): Log {
    var id := NextSequence(log.sequence);
    Log(log.items[SequenceKey(id) := payload], id)
  }

  /** One attempt: a failed one is rolled back, its sequence number included. */
  function Attempt(log: Log, payload: Option<Payload>): Log {
    if payload.Some? then Put(log, payload.value) else log
  }

  function Run(log: Log, attempts: seq<Option<Payload>>): Log {
    if attempts == [] then log
    else Attempt(Run(log, attempts[..|attempts| - 1]), attempts[|attempts| - 1])
  }

  function Successes(attempts: seq<Option<Payload>>): seq<Payload> {
    if attempts == [] then []
    else
      var last := attempts[|attempts| - 1];
      Successes(attempts[..|attempts| - 1]) + (if last.Some? then [last.value] else [])
  }

  // ---------- The log holds its records in order ----------

  function KeysUpTo(n: nat): set<Key> {
    set id | 1 <= id <= n :: SequenceKey(id)
  }

  /** The record numbered `id` lies under that number, and nothing else is there. */
  ghost predicate Holds(log: Log, records: seq<Payload>) {
    && |records| < TWO_TO_THE_64
    && log.sequence == |records|
    && log.items.Keys == KeysUpTo(|records|)
    && forall id :: 1 <= id <= |records| ==>
         SequenceKey(id) in log.items && log.items[SequenceKey(id)] == records[id - 1]
  }

  lemma SequenceKeysOrder(i: int, j: int)
    requires 0 <= i < TWO_TO_THE_64 && 0 <= j < TWO_TO_THE_64
    ensures Less(SequenceKey(i), SequenceKey(j)) <==> i < j
    ensures SequenceKey(i) == SequenceKey(j) <==> i == j
  {
    UnsignedOfWrap(i);
    UnsignedOfWrap(j);
    ItobOrder(Wrap(i), Wrap(j));
  }

  lemma PutHolds(log: Log, records: seq<Payload>, payload: Payload)
    requires Holds(log, records) && |records| + 1 < TWO_TO_THE_64
    ensures Holds(Put(log, payload), records + [payload])
  {
    var n := |records| + 1;
    assert KeysUpTo(n) == KeysUpTo(n - 1) + {SequenceKey(n)};
    forall id | 1 <= id < n
      ensures SequenceKey(id) != SequenceKey(n)
      ensures SequenceKey(id) in log.items && log.items[SequenceKey(id)] == (records + [payload])[id - 1]
    {
      SequenceKeysOrder(id, n);
    }
    assert Put(log, payload) == Log(log.items[SequenceKey(n) := payload], n);
  }

  lemma {:induction false} RunHolds(attempts: seq<Option<Payload>>)
    requires |Successes(attempts)| < TWO_TO_THE_64
    ensures Holds(Run(EMPTY_LOG, attempts), Successes(attempts))
  {
    if attempts == [] {
    } else {
      var before, last := attempts[..|attempts| - 1], attempts[|attempts| - 1];
      RunHolds(before);
      if last.Some? {
        PutHolds(Run(EMPTY_LOG, before), Successes(before), last.value);
      }
    }
  }

  /** The values of a bucket in the order of a walk. */
  function ValuesAlong(keys: seq<Key>, items: map<Key, Payload>): seq<Payload>
    requires forall k :: k in keys ==> k in items
  {
    seq(|keys|, i requires 0 <= i < |keys| => items[keys[i]])
  }

  function KeysInOrder(n: nat): (keys: seq<Key>)
    ensures |keys| == n && forall i :: 0 <= i < n ==> keys[i] == SequenceKey(i + 1)
  {
    seq(n, i => SequenceKey(i + 1))
  }

  lemma KeysAscend(n: nat)
    requires n < TWO_TO_THE_64
    ensures Ascending(KeysInOrder(n))
  {
    forall i, j | 0 <= i < j < n
      ensures Less(KeysInOrder(n)[i], KeysInOrder(n)[j])
    {
      SequenceKeysOrder(i + 1, j + 1);
    }
  }

  lemma SequenceOrderIsWalk(log: Log, records: seq<Payload>)
    requires Holds(log, records)
    ensures IsWalk(KeysInOrder(|records|), log.items)
  {
    var keys := KeysInOrder(|records|);
    KeysAscend(|records|);
    forall k | k in log.items
      ensures k in keys
    {
      assert k in KeysUpTo(|records|);
      var id :| 1 <= id <= |records| && k == SequenceKey(id);
      assert keys[id - 1] == k;
    }
    forall i | 0 <= i < |keys|
      ensures keys[i] in log.items
    {
      assert keys[i] == SequenceKey(i + 1);
    }
  }

  /**
   After any attempts on an empty log, walking its keys in byte order gives the successful records in the
   order they were appended, each of them once and none overwritten.
   */
  lemma WalkIsAppendOrder(attempts: seq<Option<Payload>>, keys: seq<Key>)
    requires |Successes(attempts)| < TWO_TO_THE_64
    requires IsWalk(keys, Run(EMPTY_LOG, attempts).items)
    ensures ValuesAlong(keys, Run(EMPTY_LOG, attempts).items) == Successes(attempts)
  {
    RunHolds(attempts);
    SequenceOrderIsWalk(Run(EMPTY_LOG, attempts), Successes(attempts));
    WalkIsUnique(keys, KeysInOrder(|Successes(attempts)|), Run(EMPTY_LOG, attempts).items);
  }

  lemma PutKeeps(log: Log, records: seq<Payload>, payload: Payload, k: Key)
    requires Holds(log, records) && |records| + 1 < TWO_TO_THE_64 && k in log.items
    ensures k in Put(log, payload).items && Put(log, payload).items[k] == log.items[k]
  {
    var id :| 1 <= id <= |records| && k == SequenceKey(id);
    SequenceKeysOrder(id, |records| + 1);
  }

  /** Append-only: what an earlier state of the log holds, every later state holds under the same key. */
  lemma {:induction false} NothingIsOverwritten(before: seq<Option<Payload>>, after: seq<Option<Payload>>, k: Key)
    requires |Successes(before + after)| < TWO_TO_THE_64
    requires k in Run(EMPTY_LOG, before).items
    ensures k in Run(EMPTY_LOG, before + after).items
    ensures Run(EMPTY_LOG, before + after).items[k] == Run(EMPTY_LOG, before).items[k]
    decreases |after|
  {
    if after == [] {
      assert before + after == before;
    } else {
      var front, last := before + after[..|after| - 1], after[|after| - 1];
      assert (before + after)[..|before + after| - 1] == front;
      NothingIsOverwritten(before, after[..|after| - 1], k);
      if last.Some? {
        RunHolds(front);
        PutKeeps(Run(EMPTY_LOG, front), Successes(front), last.value, k);
      }
    }
  }

  /** The 2^64th append would get number 0, whose key comes before every other one. */
  lemma SequenceRunsOut(log: Log, payload: Payload, k: Key, id: int64)
    requires log.sequence == TWO_TO_THE_64 - 1 && k == Itob(id) && id != 0
    ensures Put(log, payload).sequence == 0 && Less(Itob(0), k) && Itob(0) in Put(log, payload).items
  {
    ItobOrder(0, id);
  }

  // ---------- The logger ----------

  /** Which step of the update function, or its commit, fails. */
  datatype Faults = Faults(noBucket: bool, sequence: bool, put: bool, commit: bool)

  class BoltAuditLogger {
    const encode: AuditRecord -> Option<Payload>
    var items: map<Key, Payload>
    var sequence: int

    constructor (encode: AuditRecord -> Option<Payload>)
      ensures this.encode == encode && View() == EMPTY_LOG
    {
      this.encode := encode;
      items, sequence := map[], 0;
    }

    ghost function View(): Log
      reads this
    {
      Log(items, sequence)
    }

    method Append(record: AuditRecord, faults: Faults) returns (ok: bool)
      modifies this
      ensures ok <==> faults == Faults(false, false, false, false) && encode(record).Some?
      ensures View() == Attempt(old(View()), if ok then encode(record) else None)
    {
      if faults.noBucket || faults.sequence {
        return false;
      }
      var id := NextSequence(sequence);
      match encode(record)
      case None => return false;
      case Some(payload) =>
        var items' := items[SequenceKey(id) := payload];
        if faults.put || faults.commit {
          return false;
        }
        items, sequence := items', id;
        return true;
    }
  }
}
