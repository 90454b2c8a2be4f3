/** Go's 64-bit signed integers: the range, wrap-around and the unary minus. */
module Int64 {

  const MIN: int := -0x8000_0000_0000_0000
  const MAX: int := 0x7FFF_FFFF_FFFF_FFFF
  const TWO_TO_THE_64: int := 0x1_0000_0000_0000_0000

  type int64 = x: int | MIN <= x <= MAX

  predicate InRange(x: int) {
    MIN <= x <= MAX
  }

  /** The `uint64(v)` conversion: the same 64 bits read as an unsigned number. */
  function ToUnsigned(v: int64): (u: int)
    ensures 0 <= u < TWO_TO_THE_64
  {
    if v < 0 then v + TWO_TO_THE_64 else v
  }

  /** The low 64 bits of an integer, read as a signed number. */
  function Wrap(x: int): (v: int64)
    ensures InRange(x) ==> v == x
    ensures ToUnsigned(v) == x % TWO_TO_THE_64
  {
    var u := x % TWO_TO_THE_64;
    if u <= MAX then u else u - TWO_TO_THE_64
  }

  lemma UnsignedOfWrap(x: int)
    requires 0 <= x < TWO_TO_THE_64
    ensures ToUnsigned(Wrap(x)) == x
  {
  }

  /** Unary minus on int64: it wraps on the smallest value, which is its own negation. */
  function Neg(x: int64): int64 {
    Wrap(0 - x as int)
  }

  lemma NegIsExactExceptOnMin(x: int64)
    ensures Neg(x) as int == -(x as int) - (if x == MIN then TWO_TO_THE_64 else 0)
  {
  }
}
