/** BoltTaskRepo: encoded tasks under big-endian ids, as a plain map from ids to tasks. */
module TaskRepo {
  import opened Int64
  import opened Wrappers
  import opened Bolt
  import opened Tasks

  type Payload = string

  /** The JSON codec: marshalling may fail, and unmarshalling inverts it. */
  datatype Codec = Codec(encode: Task -> Option<Payload>, decode: Payload -> Option<Task>) {
    ghost predicate Inverse() {
      forall t :: encode(t).Some? ==> decode(encode(t).value) == Some(t)
    }
  }

  /** The bucket holds the encodings of these tasks under their ids, and nothing else. */
  ghost predicate Represents(codec: Codec, items: map<Key, Payload>, tasks: map<int64, Task>) {
    && (forall id: int64 :: Itob(id) in items <==> id in tasks)
    && (forall id :: id in tasks ==> codec.decode(items[Itob(id)]) == Some(tasks[id]) && tasks[id].id == id)
    && (forall k :: k in items ==> IsIdKey(k))
  }

  ghost predicate IsIdKey(k: Key) {
    exists id :: Itob(id) == k
  }

  lemma KeysDiffer(id: int64)
    ensures forall other: int64 :: Itob(other) == Itob(id) <==> other == id
  {
    forall other: int64
      ensures Itob(other) == Itob(id) <==> other == id
    {
      ItobOrder(other, id);
    }
  }

  lemma PutRepresents(codec: Codec, items: map<Key, Payload>, tasks: map<int64, Task>, t: Task, data: Payload)
    requires Represents(codec, items, tasks) && codec.decode(data) == Some(t)
    ensures Represents(codec, items[Itob(t.id) := data], tasks[t.id := t])
  {
    KeysDiffer(t.id);
  }

  lemma DeleteRepresents(codec: Codec, items: map<Key, Payload>, tasks: map<int64, Task>, id: int64)
    requires Represents(codec, items, tasks)
    ensures Represents(codec, items - {Itob(id)}, tasks - {id})
  {
    KeysDiffer(id);
  }

  function Decoded(codec: Codec, items: map<Key, Payload>, k: Key): Option<Task>
    requires k in items
  {
    codec.decode(items[k])
  }

  lemma KeyDecodes(codec: Codec, items: map<Key, Payload>, tasks: map<int64, Task>, k: Key)
    requires Represents(codec, items, tasks) && k in items
    ensures var t := Decoded(codec, items, k);
            t.Some? && Itob(t.value.id) == k && t.value.id in tasks && tasks[t.value.id] == t.value
  {
    assert IsIdKey(k);
    var id :| Itob(id) == k;
    assert id in tasks;
  }

  /** The tasks along some keys of the bucket that belong to a user. */
  function Owned(codec: Codec, items: map<Key, Payload>, keys: seq<Key>, userId: int64): seq<Task>
    requires forall k :: k in keys ==> k in items
  {
    if keys == [] then []
    else
      var last := Decoded(codec, items, keys[|keys| - 1]);
      Owned(codec, items, keys[..|keys| - 1], userId)
      + (if last.Some? && last.value.userId == userId then [last.value] else [])
  }

  ghost predicate AscendingIds(listed: seq<Task>) {
    forall i, j :: 0 <= i < j < |listed| ==> ToUnsigned(listed[i].id) < ToUnsigned(listed[j].id)
  }

  /** A list of stored tasks of the user, in order, whose keys are among these. */
  ghost predicate IsOwnedList(listed: seq<Task>, tasks: map<int64, Task>, keys: seq<Key>, userId: int64) {
    && (forall t :: t in listed <==>
          t.id in tasks && tasks[t.id] == t && t.userId == userId && Itob(t.id) in keys)
    && AscendingIds(listed)
  }

  lemma OneKeyMore(listed: seq<Task>, tasks: map<int64, Task>, keys: seq<Key>, t: Task, userId: int64)
    requires IsOwnedList(listed, tasks, keys, userId) && Ascending(keys + [Itob(t.id)])
    requires t.id in tasks && tasks[t.id] == t
    ensures IsOwnedList(if t.userId == userId then listed + [t] else listed, tasks, keys + [Itob(t.id)], userId)
  {
    KeysDiffer(t.id);
    forall i | 0 <= i < |listed|
      ensures ToUnsigned(listed[i].id) < ToUnsigned(t.id)
    {
      assert listed[i] in listed;
      var j :| 0 <= j < |keys| && keys[j] == Itob(listed[i].id);
      assert Less((keys + [Itob(t.id)])[j], (keys + [Itob(t.id)])[|keys|]);
      ItobOrder(listed[i].id, t.id);
    }
  }

  lemma {:induction false} OwnedMeaning(codec: Codec, items: map<Key, Payload>, tasks: map<int64, Task>,
                                        keys: seq<Key>, userId: int64)
    requires Represents(codec, items, tasks) && Ascending(keys) && forall k :: k in keys ==> k in items
    ensures IsOwnedList(Owned(codec, items, keys, userId), tasks, keys, userId)
  {
    if keys == [] {
    } else {
      var front, k := keys[..|keys| - 1], keys[|keys| - 1];
      OwnedMeaning(codec, items, tasks, front, userId);
      KeyDecodes(codec, items, tasks, k);
      assert keys == front + [k];
      OneKeyMore(Owned(codec, items, front, userId), tasks, front, Decoded(codec, items, k).value, userId);
    }
  }

  // ---------- Ids ----------

  /** The ids given out by so many creations: 1, 2, ... as unsigned numbers, and in the end all of them. */
  predicate GivenOut(id: int64, creations: nat) {
    0 < ToUnsigned(id) <= creations || creations >= TWO_TO_THE_64
  }

  /** The sequence after so many creations; past the wrap all that matters is that no id is new. */
  predicate Sequenced(sequence: int, creations: nat) {
    0 <= sequence < TWO_TO_THE_64 && (creations < TWO_TO_THE_64 ==> sequence == creations)
  }

  ghost predicate AreIssued(issued: set<int64>, creations: nat) {
    forall id: int64 :: id in issued <==> GivenOut(id, creations)
  }

  ghost predicate IsHighest(id: int64, issued: set<int64>) {
    forall other :: other in issued ==> ToUnsigned(other) < ToUnsigned(id)
  }

  /** The next number is new, and the highest so far, as long as there is one. */
  lemma NextIsNew(sequence: int, creations: nat, issued: set<int64>)
    requires Sequenced(sequence, creations) && AreIssued(issued, creations)
    ensures var id := Wrap(NextSequence(sequence));
            && Sequenced(NextSequence(sequence), creations + 1) && AreIssued(issued + {id}, creations + 1)
            && (id !in issued <==> creations < TWO_TO_THE_64)
            && (creations + 1 < TWO_TO_THE_64 ==> IsHighest(id, issued))
  {
    UnsignedOfWrap(NextSequence(sequence));
  }

  class BoltTaskRepo {
    const codec: Codec
    var items: map<Key, Payload>
    var sequence: int
    /** The map this bucket stands for, every id it ever gave out, and how many times it did. */
    ghost var tasks: map<int64, Task>
    ghost var issued: set<int64>
    ghost var creations: nat

    ghost predicate Valid()
      reads this
    {
      && codec.Inverse()
      && Sequenced(sequence, creations)
      && tasks.Keys <= issued
      && AreIssued(issued, creations)
      && Represents(codec, items, tasks)
    }

    constructor (codec: Codec)
      requires codec.Inverse()
      ensures Valid() && this.codec == codec && tasks == map[] && issued == {} && creations == 0
    {
      this.codec := codec;
      items, sequence := map[], 0;
      tasks, issued, creations := map[], {}, 0;
    }

    /**
     The id is new for 2^64 creations: no task has it, and none ever had, deleted ones included. After that
     the bucket's sequence has been through all ids, and starts over.
     */
    method Create(task: Task, now: int, commitFails: bool) returns (created: Option<Task>)
      requires Valid()
      modifies this
      ensures Valid()
      ensures match created
              case Some(t) =>
                && t == task.(id := t.id, createdAt := now, updatedAt := now)
                && issued == old(issued) + {t.id} && creations == old(creations) + 1
                && (t.id !in old(issued) <==> old(creations) < TWO_TO_THE_64)
                && (creations < TWO_TO_THE_64 ==> IsHighest(t.id, old(issued)))
                && tasks == old(tasks)[t.id := t]
              case None => unchanged(this)
      ensures created.None? <==>
                commitFails ||
                codec.encode(task.(id := Wrap(NextSequence(old(sequence))), createdAt := now, updatedAt := now)).None?
    {
      var next := NextSequence(sequence);
      var id := Wrap(next);
      var t := task.(id := id, createdAt := now, updatedAt := now);
      var data := codec.encode(t);
      if data.None? || commitFails {
        return None;
      }
      PutRepresents(codec, items, tasks, t, data.value);
      NextIsNew(sequence, creations, issued);
      items, sequence := items[Itob(id) := data.value], next;
      tasks, issued, creations := tasks[id := t], issued + {id}, creations + 1;
      return Some(t);
    }

    method GetByID(id: int64) returns (task: Option<Task>)
      requires Valid()
      ensures task == if id in tasks then Some(tasks[id]) else None
    {
      if Itob(id) !in items {
        return None;
      }
      return codec.decode(items[Itob(id)]);
    }

    method Update(task: Task, now: int, commitFails: bool) returns (updated: Option<Task>)
      requires Valid()
      modifies this
      ensures Valid() && issued == old(issued) && creations == old(creations)
      ensures match updated
              case Some(t) =>
                && t == task.(updatedAt := now) && task.id in old(tasks)
                && tasks == old(tasks)[task.id := t]
              case None => unchanged(this)
      ensures updated.None? <==>
                task.id !in old(tasks) || commitFails || codec.encode(task.(updatedAt := now)).None?
    {
      if Itob(task.id) !in items {
        return None;
      }
      var t := task.(updatedAt := now);
      var data := codec.encode(t);
      if data.None? || commitFails {
        return None;
      }
      PutRepresents(codec, items, tasks, t, data.value);
      items := items[Itob(task.id) := data.value];
      tasks := tasks[task.id := t];
      return Some(t);
    }

    /** Deleting a missing task is no error. */
    method Delete(id: int64, commitFails: bool) returns (ok: bool)
      requires Valid()
      modifies this
      ensures Valid() && issued == old(issued) && creations == old(creations)
      ensures ok <==> !commitFails
      ensures tasks == if ok then old(tasks) - {id} else old(tasks)
    {
      if commitFails {
        return false;
      }
      DeleteRepresents(codec, items, tasks, id);
      items := items - {Itob(id)};
      tasks := tasks - {id};
      return true;
    }

    /** Walks the bucket and collects the owner's tasks: all of them, each once, in ascending order of their ids. */
    method ListByUser(userId: int64, keys: seq<Key>) returns (listed: seq<Task>)
      requires Valid() && IsWalk(keys, items)
      ensures forall t :: t in listed <==> t.id in tasks && tasks[t.id] == t && t.userId == userId
      ensures AscendingIds(listed)
    {
      listed := [];
      for n := 0 to |keys|
        invariant forall k :: k in keys[..n] ==> k in items
        invariant listed == Owned(codec, items, keys[..n], userId)
      {
        KeyDecodes(codec, items, tasks, keys[n]);
        assert keys[..n + 1][..n] == keys[..n];
        var t := codec.decode(items[keys[n]]).value;
        if t.userId == userId {
          listed := listed + [t];
        }
      }
      assert keys[..|keys|] == keys;
      OwnedMeaning(codec, items, tasks, keys, userId);
      assert forall t: Task :: t.id in tasks ==> Itob(t.id) in items;
    }
  }
}
