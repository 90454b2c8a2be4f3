/** Bytes, and Go strings seen as byte sequences. */
module Bytes {

  type byte = x: int | 0 <= x < 256

  /** Every character stands for one byte, as in any Go string read byte by byte. */
  predicate IsByteString(s: string) {
    forall i :: 0 <= i < |s| ==> s[i] as int < 256
  }

  /** []byte(s) */
  function ToBytes(s: string): (b: seq<byte>)
    requires IsByteString(s)
  {
    seq(|s|, i requires 0 <= i < |s| => s[i] as int)
  }

  /** string(b) */
  function FromBytes(b: seq<byte>): (s: string)
  {
    seq(|b|, i requires 0 <= i < |b| => b[i] as char)
  }

  lemma FromToBytes(s: string)
    requires IsByteString(s)
    ensures FromBytes(ToBytes(s)) == s
  {
  }
}
