/**
 base64.RawURLEncoding: the URL-safe alphabet without padding (sections 3.2 and 5 of RFC 4648), with
 Go's lenient decoder, which skips line breaks and ignores the unused bits of the last character.
 */
module Base64Url {
  import opened Bytes
  import opened Wrappers

  type sextet = x: int | 0 <= x < 64

  function EncodeChar(x: sextet): char {
    if x < 26 then (x + 'A' as int) as char
    else if x < 52 then (x - 26 + 'a' as int) as char
    else if x < 62 then (x - 52 + '0' as int) as char
    else if x == 62 then '-' else '_'
  }

  function DecodeChar(c: char): Option<sextet> {
    if 'A' <= c <= 'Z' then Some(c as int - 'A' as int)
    else if 'a' <= c <= 'z' then Some(c as int - 'a' as int + 26)
    else if '0' <= c <= '9' then Some(c as int - '0' as int + 52)
    else if c == '-' then Some(62)
    else if c == '_' then Some(63)
    else None
  }

  predicate IsLineBreak(c: char) {
    c == '\r' || c == '\n'
  }

  lemma CharsInvert(x: sextet, c: char)
    ensures DecodeChar(EncodeChar(x)) == Some(x)
    ensures DecodeChar(c) == Some(x) ==> EncodeChar(x) == c
    ensures EncodeChar(x) != '.' && !IsLineBreak(EncodeChar(x))
  {
  }

  /** Three bytes, as their four sextets. */
  function Split3(x: byte, y: byte, z: byte): (q: seq<sextet>)
    ensures |q| == 4
  {
    [x as int / 4, x as int % 4 * 16 + y as int / 16, y as int % 16 * 4 + z as int / 64, z as int % 64]
  }

  /** Four sextets, as their three bytes. */
  function Join4(a: sextet, b: sextet, c: sextet, d: sextet): (r: seq<byte>)
    ensures |r| == 3
  {
    [a as int * 4 + b as int / 16, b as int % 16 * 16 + c as int / 4, c as int % 4 * 64 + d as int]
  }

  /** The bits of the bytes, six at a time; the last sextet is filled up with zeros. */
  function Pack(b: seq<byte>): seq<sextet> {
    if |b| == 0 then []
    else if |b| == 1 then Split3(b[0], 0, 0)[..2]
    else if |b| == 2 then Split3(b[0], b[1], 0)[..3]
    else Split3(b[0], b[1], b[2]) + Pack(b[3..])
  }

  function Unpack(q: seq<sextet>): Option<seq<byte>> {
    if |q| == 0 then Some([])
    else if |q| == 1 then None
    else if |q| == 2 then Some(Join4(q[0], q[1], 0, 0)[..1])
    else if |q| == 3 then Some(Join4(q[0], q[1], q[2], 0)[..2])
    else
      match Unpack(q[4..])
      case None => None
      case Some(rest) => Some(Join4(q[0], q[1], q[2], q[3]) + rest)
  }

  function EncodeChars(q: seq<sextet>): (s: string) {
    if q == [] then [] else [EncodeChar(q[0])] + EncodeChars(q[1..])
  }

  /** The sextets of a text: line breaks are skipped, any other foreign character is an error. */
  function DecodeChars(s: string): Option<seq<sextet>> {
    if s == [] then Some([])
    else
      match DecodeChars(s[1..])
      case None => None
      case Some(rest) =>
        match DecodeChar(s[0])
        case Some(x) => Some([x] + rest)
        case None => if IsLineBreak(s[0]) then Some(rest) else None
  }

  function Encode(b: seq<byte>): string {
    EncodeChars(Pack(b))
  }

  function Decode(s: string): Option<seq<byte>> {
    match DecodeChars(s)
    case None => None
    case Some(q) => Unpack(q)
  }

  // ---------- What an encoding looks like ----------

  /** Table 2 in section 5 of RFC 4648. */
  const UPPER := "ABCDEFGHIJKLMNOPQRSTUVWXYZ"
  const LOWER := "abcdefghijklmnopqrstuvwxyz"
  const DIGITS := "0123456789"
  const ALPHABET := UPPER + LOWER + DIGITS + "-_"

  lemma UpperAt(i: nat)
    requires i < 26
    ensures |UPPER| == 26 && UPPER[i] as int == i + 'A' as int
  {
  }

  lemma LowerAt(i: nat)
    requires i < 26
    ensures |LOWER| == 26 && LOWER[i] as int == i + 'a' as int
  {
  }

  lemma DigitAt(i: nat)
    requires i < 10
    ensures |DIGITS| == 10 && DIGITS[i] as int == i + '0' as int
  {
  }

  lemma CharsAreAlphabet(x: sextet)
    ensures |ALPHABET| == 64 && EncodeChar(x) == ALPHABET[x]
  {
    UpperAt(if x < 26 then x else 0);
    LowerAt(if 26 <= x < 52 then x - 26 else 0);
    DigitAt(if 52 <= x < 62 then x - 52 else 0);
  }

  lemma {:induction false} EncodedChar(q: seq<sextet>, i: nat)
    requires i < |q|
    ensures |EncodeChars(q)| == |q| && EncodeChars(q)[i] == EncodeChar(q[i])
  {
    if |q| == 1 {
    } else {
      EncodedChar(q[1..], if i == 0 then 0 else i - 1);
    }
  }

  /** The 24-bit number of three bytes, and of four sextets. */
  function OfBytes(x: byte, y: byte, z: byte): int {
    x as int * 65536 + y as int * 256 + z as int
  }

  function OfSextets(a: sextet, b: sextet, c: sextet, d: sextet): int {
    a as int * 262144 + b as int * 4096 + c as int * 64 + d as int
  }

  lemma SplitKeepsNumber(x: byte, y: byte, z: byte)
    ensures var q := Split3(x, y, z); OfSextets(q[0], q[1], q[2], q[3]) == OfBytes(x, y, z)
    ensures Split3(x, 0, 0)[2] == 0 && Split3(x, 0, 0)[3] == 0 && Split3(x, y, 0)[3] == 0
  {
  }

  lemma {:induction false} PackLength(b: seq<byte>)
    ensures |Pack(b)| == (8 * |b| + 5) / 6
  {
    if |b| < 3 {
    } else {
      PackLength(b[3..]);
    }
  }

  /** The groups after the first one are those of the rest. */
  lemma PackShifts(b: seq<byte>)
    requires |b| >= 3
    ensures forall k :: 0 <= k < |Pack(b[3..])| ==> |Pack(b)| == 4 + |Pack(b[3..])| && Pack(b)[k + 4] == Pack(b[3..])[k]
  {
  }

  /** Section 4 of RFC 4648: each group of three bytes is a 24-bit number that is cut into four sextets. */
  lemma {:induction false} PackGroups(b: seq<byte>, i: nat)
    requires 3 * i + 2 < |b|
    ensures var q := Pack(b);
            4 * i + 3 < |q| &&
            OfSextets(q[4 * i], q[4 * i + 1], q[4 * i + 2], q[4 * i + 3])
              == OfBytes(b[3 * i], b[3 * i + 1], b[3 * i + 2])
    decreases i
  {
    if i == 0 {
      SplitKeepsNumber(b[0], b[1], b[2]);
    } else {
      PackGroups(b[3..], i - 1);
      PackShifts(b);
    }
  }

  /** What is left at the end is filled up with zero bits to two or three sextets. */
  lemma {:induction false} PackTail(b: seq<byte>, i: nat)
    requires 3 * i < |b| < 3 * i + 3
    ensures var q := Pack(b);
            if |b| == 3 * i + 1
            then |q| == 4 * i + 2 && OfSextets(q[4 * i], q[4 * i + 1], 0, 0) == OfBytes(b[3 * i], 0, 0)
            else |q| == 4 * i + 3
                 && OfSextets(q[4 * i], q[4 * i + 1], q[4 * i + 2], 0) == OfBytes(b[3 * i], b[3 * i + 1], 0)
    decreases i
  {
    if i == 0 {
      SplitKeepsNumber(b[0], if |b| == 1 then 0 else b[1], 0);
    } else {
      PackTail(b[3..], i - 1);
      PackShifts(b);
    }
  }

  // ---------- Decoding inverts encoding ----------

  lemma JoinSplit(x: byte, y: byte, z: byte)
    ensures var q := Split3(x, y, z); Join4(q[0], q[1], q[2], q[3]) == [x, y, z]
  {
  }

  lemma {:induction false} UnpackPack(b: seq<byte>)
    ensures Unpack(Pack(b)) == Some(b)
  {
    if |b| == 0 {
    } else if |b| == 1 {
      var q := Pack(b);
      assert q == [b[0] as int / 4, b[0] as int % 4 * 16];
      assert Unpack(q).value == [b[0]] == b;
    } else if |b| == 2 {
      var q := Pack(b);
      JoinSplit(b[0], b[1], 0);
      assert Unpack(q).value == Join4(q[0], q[1], q[2], 0)[..2];
      assert Unpack(q).value == [b[0], b[1]] == b;
    } else {
      var q := Split3(b[0], b[1], b[2]);
      UnpackPack(b[3..]);
      JoinSplit(b[0], b[1], b[2]);
      assert Pack(b)[4..] == Pack(b[3..]);
      assert [b[0], b[1], b[2]] + b[3..] == b;
    }
  }

  lemma {:induction false} DecodeEncodeChars(q: seq<sextet>)
    ensures DecodeChars(EncodeChars(q)) == Some(q)
  {
    if q == [] {
    } else {
      DecodeEncodeChars(q[1..]);
      CharsInvert(q[0], 'A');
      assert EncodeChars(q)[1..] == EncodeChars(q[1..]);
      assert [q[0]] + q[1..] == q;
    }
  }

  lemma DecodeEncode(b: seq<byte>)
    ensures Decode(Encode(b)) == Some(b)
  {
    DecodeEncodeChars(Pack(b));
    UnpackPack(b);
  }

  lemma {:induction false} EncodingHasNoDot(q: seq<sextet>)
    ensures '.' !in EncodeChars(q)
  {
    if q == [] {
    } else {
      CharsInvert(q[0], 'A');
      EncodingHasNoDot(q[1..]);
    }
  }

  // ---------- Which texts decode, and which are encodings ----------

  predicate InAlphabet(c: char) {
    DecodeChar(c).Some?
  }

  /** The number of characters that carry bits. */
  function Carriers(s: string): nat {
    if s == [] then 0 else (if InAlphabet(s[0]) then 1 else 0) + Carriers(s[1..])
  }

  lemma {:induction false} UnpackFailsOnOneLeft(q: seq<sextet>)
    ensures Unpack(q).None? <==> |q| % 4 == 1
    decreases |q|
  {
    if |q| < 4 {
      assert |q| % 4 == |q|;
    } else {
      var rest := q[4..];
      UnpackFailsOnOneLeft(rest);
      assert |q| % 4 == |rest| % 4;
      assert Unpack(q).None? <==> Unpack(rest).None?;
    }
  }

  lemma {:induction false} DecodeCharsDomain(s: string)
    ensures DecodeChars(s).Some? <==> forall c :: c in s ==> InAlphabet(c) || IsLineBreak(c)
    ensures DecodeChars(s).Some? ==> |DecodeChars(s).value| == Carriers(s)
  {
    if s == [] {
    } else {
      DecodeCharsDomain(s[1..]);
      assert s == [s[0]] + s[1..];
    }
  }

  /** A text decodes exactly when it holds nothing foreign and no single character is left over. */
  lemma DecodeDomain(s: string)
    ensures Decode(s).Some? <==>
              (forall c :: c in s ==> InAlphabet(c) || IsLineBreak(c)) && Carriers(s) % 4 != 1
  {
    DecodeCharsDomain(s);
    if DecodeChars(s).Some? {
      UnpackFailsOnOneLeft(DecodeChars(s).value);
    }
  }

  /** The bits of the last sextet that no byte uses are zero. */
  predicate ZeroFilled(q: seq<sextet>) {
    && (|q| % 4 == 2 ==> q[|q| - 1] % 16 == 0)
    && (|q| % 4 == 3 ==> q[|q| - 1] % 4 == 0)
  }

  /** The same sextets with those bits cleared. */
  function Cleared(q: seq<sextet>): (r: seq<sextet>)
    ensures |r| == |q|
  {
    if |q| % 4 == 2 then q[..|q| - 1] + [q[|q| - 1] as int / 16 * 16]
    else if |q| % 4 == 3 then q[..|q| - 1] + [q[|q| - 1] as int / 4 * 4]
    else q
  }

  lemma ClearedIfZeroFilled(q: seq<sextet>)
    ensures Cleared(q) == q <==> ZeroFilled(q)
  {
    if |q| % 4 == 2 || |q| % 4 == 3 {
      assert q == q[..|q| - 1] + [q[|q| - 1]];
      assert Cleared(q)[|q| - 1] == q[|q| - 1] <==> Cleared(q) == q;
    }
  }

  lemma ClearedTail(q: seq<sextet>)
    requires |q| >= 4
    ensures Cleared(q) == q[..4] + Cleared(q[4..])
  {
  }

  lemma SplitJoin(a: sextet, b: sextet, c: sextet, d: sextet)
    ensures var r := Join4(a, b, c, d); Split3(r[0], r[1], r[2]) == [a, b, c, d]
  {
    var r := Join4(a, b, c, d);
    assert r[0] / 4 == a && r[0] % 4 == b / 16;
    assert r[1] / 16 == b % 16 && r[1] % 16 == c / 4;
    assert r[2] / 64 == c % 4 && r[2] % 64 == d;
  }

  lemma PackUnpackTwo(a: sextet, b: sextet)
    ensures Unpack([a, b]).Some?
    ensures Pack(Unpack([a, b]).value) == [a, b as int / 16 * 16]
  {
    var x: byte := a as int * 4 + b as int / 16;
    assert Unpack([a, b]).value == [x];
    assert x / 4 == a && x % 4 == b / 16;
    assert Pack([x]) == [x as int / 4, x as int % 4 * 16];
  }

  /** The unused bits of a third sextet do not reach the two bytes. */
  lemma LowBitsAreUnused(a: sextet, b: sextet, c: sextet)
    ensures var clear: sextet := c as int / 4 * 4;
            var r := Join4(a, b, clear, 0);
            r[0] == Join4(a, b, c, 0)[0] && r[1] == Join4(a, b, c, 0)[1] && r[2] == 0
  {
    var clear: sextet := c as int / 4 * 4;
    assert clear as int / 4 == c as int / 4 && clear % 4 == 0;
  }

  lemma PackUnpackThree(a: sextet, b: sextet, c: sextet)
    ensures Unpack([a, b, c]).Some?
    ensures Pack(Unpack([a, b, c]).value) == [a, b, c as int / 4 * 4]
  {
    var clear: sextet := c as int / 4 * 4;
    var r := Join4(a, b, clear, 0);
    LowBitsAreUnused(a, b, c);
    SplitJoin(a, b, clear, 0);
    assert Unpack([a, b, c]).value == [r[0], r[1]];
    assert Pack([r[0], r[1]]) == Split3(r[0], r[1], 0)[..3];
    assert Split3(r[0], r[1], 0) == [a, b, clear, 0];
  }

  lemma PackHead(r: seq<byte>, rest: seq<byte>)
    requires |r| == 3
    ensures Pack(r + rest) == Split3(r[0], r[1], r[2]) + Pack(rest)
  {
    assert (r + rest)[3..] == rest;
  }

  lemma PackUnpackFour(q: seq<sextet>)
    requires |q| >= 4 && Unpack(q).Some?
    ensures Unpack(q[4..]).Some?
    ensures Pack(Unpack(q).value) == q[..4] + Pack(Unpack(q[4..]).value)
  {
    PackHead(Join4(q[0], q[1], q[2], q[3]), Unpack(q[4..]).value);
    SplitJoin(q[0], q[1], q[2], q[3]);
  }

  lemma {:induction false} PackUnpack(q: seq<sextet>)
    requires Unpack(q).Some?
    ensures Pack(Unpack(q).value) == Cleared(q)
    decreases |q|
  {
    if |q| == 0 {
    } else if |q| == 2 {
      PackUnpackTwo(q[0], q[1]);
      assert q == [q[0], q[1]];
    } else if |q| == 3 {
      PackUnpackThree(q[0], q[1], q[2]);
      assert q == [q[0], q[1], q[2]];
    } else {
      PackUnpackFour(q);
      PackUnpack(q[4..]);
      ClearedTail(q);
    }
  }

  function WithoutLineBreaks(s: string): string {
    if s == [] then [] else (if IsLineBreak(s[0]) then [] else [s[0]]) + WithoutLineBreaks(s[1..])
  }

  lemma {:induction false} EncodeDecodeChars(s: string)
    requires DecodeChars(s).Some?
    ensures EncodeChars(DecodeChars(s).value) == WithoutLineBreaks(s)
    ensures EncodeChars(DecodeChars(s).value) == s <==> forall c :: c in s ==> !IsLineBreak(c)
    ensures |EncodeChars(DecodeChars(s).value)| == Carriers(s) <= |s|
  {
    if s == [] {
    } else {
      EncodeDecodeChars(s[1..]);
      if InAlphabet(s[0]) {
        CharsInvert(DecodeChar(s[0]).value, s[0]);
        assert s == [s[0]] + s[1..];
      } else {
        assert IsLineBreak(s[0]);
      }
    }
  }

  /** A text decodes to the bytes whose encoding it is once its line breaks are dropped and its unused bits cleared. */
  lemma DecodeMeaning(s: string)
    requires Decode(s).Some?
    ensures Encode(Decode(s).value) == EncodeChars(Cleared(DecodeChars(s).value))
    ensures EncodeChars(DecodeChars(s).value) == WithoutLineBreaks(s)
  {
    PackUnpack(DecodeChars(s).value);
    EncodeDecodeChars(s);
  }

  /**
   Decoding is not injective. Among the texts that decode, re-encoding gives the text back exactly when
   it has no line break and its unused bits are zero.
   */
  lemma EncodeDecode(s: string)
    requires Decode(s).Some?
    ensures Encode(Decode(s).value) == s <==>
              (forall c :: c in s ==> !IsLineBreak(c)) && ZeroFilled(DecodeChars(s).value)
  {
    var q := DecodeChars(s).value;
    PackUnpack(q);
    ClearedIfZeroFilled(q);
    EncodeDecodeChars(s);
    DecodeEncodeChars(q);
    DecodeEncodeChars(Pack(Decode(s).value));
  }
}
