/** BoltDB buckets: values under byte keys, walked in byte order, and the 8-byte big-endian keys of ids. */
module Bolt {
  import opened Int64
  import opened Bytes

  type Key = seq<byte>

  // ---------- Byte order ----------

  predicate Less(a: Key, b: Key) {
    b != [] && (a == [] || a[0] < b[0] || (a[0] == b[0] && Less(a[1..], b[1..])))
  }

  lemma {:induction false} LessIsTotal(a: Key, b: Key)
    ensures Less(a, b) || Less(b, a) || a == b
    ensures !(Less(a, b) && Less(b, a))
    ensures !Less(a, a)
  {
    if a != [] && b != [] {
      LessIsTotal(a[1..], b[1..]);
      assert a == [a[0]] + a[1..] && b == [b[0]] + b[1..];
    }
    if a == [] {
    } else {
      LessIsTotal(a[1..], a[1..]);
    }
  }

  lemma {:induction false} LessIsTransitive(a: Key, b: Key, c: Key)
    requires Less(a, b) && Less(b, c)
    ensures Less(a, c)
  {
    if a != [] && a[0] == b[0] == c[0] {
      LessIsTransitive(a[1..], b[1..], c[1..]);
    }
  }

  // ---------- Big-endian keys ----------

  /** b.NextSequence(): a 64-bit counter, which wraps */
  function NextSequence(sequence: int): int {
    if sequence + 1 < TWO_TO_THE_64 then sequence + 1 else 0
  }

  function Power256(n: nat): nat {
    if n == 0 then 1 else 256 * Power256(n - 1)
  }

  /** Fills a buffer with the low bytes of `u`, the most significant one first. */
  function PutBigEndian(buffer: seq<byte>, u: nat): (k: Key)
    ensures |k| == |buffer|
  {
    if buffer == [] then [] else PutBigEndian(buffer[..|buffer| - 1], u / 256) + [u % 256]
  }

  /** itob: the 64 bits of an id in a buffer of eight bytes */
  function Itob(v: int64): (k: Key)
    ensures |k| == 8
  {
    PutBigEndian(seq(8, _ => 0), ToUnsigned(v))
  }

  lemma {:induction false} LessOnLastByte(a: Key, b: Key, x: byte, y: byte)
    requires |a| == |b|
    ensures Less(a + [x], b + [y]) <==> Less(a, b) || (a == b && x < y)
  {
    if a == [] {
    } else {
      assert (a + [x])[1..] == a[1..] + [x] && (b + [y])[1..] == b[1..] + [y];
      LessOnLastByte(a[1..], b[1..], x, y);
      assert a == [a[0]] + a[1..] && b == [b[0]] + b[1..];
    }
  }

  lemma {:induction false} BigEndianOrder(buffer: seq<byte>, u: nat, v: nat)
    requires u < Power256(|buffer|) && v < Power256(|buffer|)
    ensures Less(PutBigEndian(buffer, u), PutBigEndian(buffer, v)) <==> u < v
    ensures PutBigEndian(buffer, u) == PutBigEndian(buffer, v) <==> u == v
  {
    if buffer == [] {
    } else {
      var front := buffer[..|buffer| - 1];
      var a, b := PutBigEndian(front, u / 256), PutBigEndian(front, v / 256);
      BigEndianOrder(front, u / 256, v / 256);
      LessOnLastByte(a, b, u % 256, v % 256);
      assert (a + [u % 256])[..|a|] == a && (b + [v % 256])[..|b|] == b;
    }
  }

  /** Keys are ordered like the ids read as unsigned numbers, and no two ids share a key. */
  lemma ItobOrder(v: int64, w: int64)
    ensures Less(Itob(v), Itob(w)) <==> ToUnsigned(v) < ToUnsigned(w)
    ensures Itob(v) == Itob(w) <==> v == w
  {
    assert Power256(4) == 0x1_0000_0000;
    assert Power256(8) == TWO_TO_THE_64;
    BigEndianOrder(seq(8, _ => 0), ToUnsigned(v), ToUnsigned(w));
  }

  // ---------- Walking a bucket ----------

  ghost predicate Ascending(keys: seq<Key>) {
    forall i, j :: 0 <= i < j < |keys| ==> Less(keys[i], keys[j])
  }

  /** The keys in the order ForEach visits them. */
  ghost predicate IsWalk<V>(keys: seq<Key>, items: map<Key, V>) {
    Ascending(keys) && forall k :: k in keys <==> k in items
  }

  lemma {:induction false} AscendingIsUnique(p: seq<Key>, q: seq<Key>)
    requires Ascending(p) && Ascending(q) && (forall k :: k in p <==> k in q)
    ensures p == q
    decreases |p|
  {
    assert q == [] || q[0] in p;
    if p == [] {
    } else {
      assert p[0] in q;
      var i :| 0 <= i < |q| && q[i] == p[0];
      assert q[0] in p;
      var j :| 0 <= j < |p| && p[j] == q[0];
      LessIsTotal(p[0], q[0]);
      assert p[0] == q[0];
      forall k
        ensures k in p[1..] <==> k in q[1..]
      {
        LessIsTotal(p[0], p[0]);
        assert k in p <==> k == p[0] || k in p[1..];
        assert k in q <==> k == q[0] || k in q[1..];
        assert k in p[1..] ==> Less(p[0], k);
        assert k in q[1..] ==> Less(q[0], k);
      }
      AscendingIsUnique(p[1..], q[1..]);
      assert p == [p[0]] + p[1..] && q == [q[0]] + q[1..];
    }
  }

  /** There is only one such order. */
  lemma WalkIsUnique<V>(p: seq<Key>, q: seq<Key>, items: map<Key, V>)
    requires IsWalk(p, items) && IsWalk(q, items)
    ensures p == q
  {
    assert forall k :: k in p <==> k in q;
    AscendingIsUnique(p, q);
  }

  function Insert(keys: seq<Key>, k: Key): seq<Key> {
    if keys == [] then [k]
    else if Less(k, keys[0]) then [k] + keys
    else [keys[0]] + Insert(keys[1..], k)
  }

  lemma {:induction false} InsertAscends(keys: seq<Key>, k: Key)
    requires Ascending(keys) && k !in keys
    ensures Ascending(Insert(keys, k))
    ensures forall x :: x in Insert(keys, k) <==> x in keys || x == k
  {
    if keys == [] {
    } else {
      if Less(k, keys[0]) {
        forall j | 0 < j < |keys|
          ensures Less(k, keys[j])
        {
          LessIsTransitive(k, keys[0], keys[j]);
        }
      } else {
        InsertAscends(keys[1..], k);
        LessIsTotal(k, keys[0]);
        assert keys == [keys[0]] + keys[1..];
        forall x | x in Insert(keys[1..], k)
          ensures Less(keys[0], x)
        {
          assert x in keys[1..] ==> Less(keys[0], x);
        }
      }
    }
  }

  /** And every bucket has one. */
  lemma {:induction false} WalkExists<V>(items: map<Key, V>)
    ensures exists keys: seq<Key> :: IsWalk(keys, items)
    decreases |items|
  {
    if items == map[] {
      assert IsWalk([], items);
    } else {
      var k :| k in items;
      WalkExists(items - {k});
      var keys: seq<Key> :| IsWalk(keys, items - {k});
      InsertAscends(keys, k);
      assert IsWalk(Insert(keys, k), items);
    }
  }
}
