/**
 Counting encoded task statuses: the portable loop, and the SSE2/POPCNT routine instruction by
 instruction. Both return how often 0, 1 and 2 occur in the slice.
 */
module StatusCount {
  import opened Int64

  type uint8 = bv8

  /** How many bytes of the slice are `x`. */
  function Count(s: seq<uint8>, x: uint8): (n: nat)
    ensures n <= |s|
  {
    if s == [] then 0 else (if s[0] == x then 1 else 0) + Count(s[1..], x)
  }

  lemma {:induction false} CountConcat(a: seq<uint8>, b: seq<uint8>, x: uint8)
    ensures Count(a + b, x) == Count(a, x) + Count(b, x)
  {
    if a == [] {
      assert a + b == b;
    } else {
      assert (a + b)[1..] == a[1..] + b;
      CountConcat(a[1..], b, x);
    }
  }

  predicate Counts(s: seq<uint8>, todo: int, inProgress: int, done: int) {
    todo == Count(s, 0) && inProgress == Count(s, 1) && done == Count(s, 2)
  }

  /** Counting a stretch and adding it to the counts of what comes before it. */
  lemma CountsGrow(s: seq<uint8>, i: nat, j: nat, x: uint8)
    requires i <= j <= |s|
    ensures Count(s[..j], x) == Count(s[..i], x) + Count(s[i..j], x)
  {
    assert s[..j] == s[..i] + s[i..j];
    CountConcat(s[..i], s[i..j], x);
  }

  lemma CountOneMore(s: seq<uint8>, i: nat)
    requires i < |s|
    ensures forall x: uint8 :: Count(s[..i + 1], x) == Count(s[..i], x) + (if s[i] == x then 1 else 0)
  {
    forall x: uint8
      ensures Count(s[..i + 1], x) == Count(s[..i], x) + (if s[i] == x then 1 else 0)
    {
      CountsGrow(s, i, i + 1, x);
      assert s[i..i + 1] == [s[i]];
    }
  }

  method CountStatusesGeneric(statuses: seq<uint8>) returns (todo: int, inProgress: int, done: int)
    ensures Counts(statuses, todo, inProgress, done)
  {
    todo, inProgress, done := 0, 0, 0;
    for i := 0 to |statuses|
      invariant Counts(statuses[..i], todo, inProgress, done)
    {
      CountOneMore(statuses, i);
      match statuses[i]
      case 0 => todo := todo + 1;
      case 1 => inProgress := inProgress + 1;
      case 2 => done := done + 1;
      case _ =>
    }
    assert statuses[..|statuses|] == statuses;
  }

  // ---------- Registers ----------

  /** A 64-bit general register, read as an unsigned number. */
  type reg = x: int | 0 <= x < TWO_TO_THE_64

  type word32 = x: int | 0 <= x < 0x1_0000_0000

  /** Sixteen byte lanes; lane 0 is the byte at the lowest address. */
  type xmm = v: seq<uint8> | |v| == 16 witness seq(16, _ => 0)

  function ADDQ(src: int, dst: reg): reg {
    (dst + src) % TWO_TO_THE_64
  }

  function SUBQ(src: int, dst: reg): reg {
    (dst - src) % TWO_TO_THE_64
  }

  function Lanes(src: seq<uint8>, dst: seq<uint8>, op: (uint8, uint8) -> uint8): (r: seq<uint8>)
    requires |src| == |dst|
    ensures |r| == |dst| && forall i :: 0 <= i < |r| ==> r[i] == op(src[i], dst[i])
  {
    seq(|dst|, i requires 0 <= i < |dst| => op(src[i], dst[i]))
  }

  function Xor(src: uint8, dst: uint8): uint8 { dst ^ src }

  function Sub(src: uint8, dst: uint8): uint8 { dst - src }

  function Add(src: uint8, dst: uint8): uint8 { dst + src }

  function Eq(src: uint8, dst: uint8): uint8 { if dst == src then 0xFF else 0 }

  function PXOR(src: xmm, dst: xmm): xmm { Lanes(src, dst, Xor) }

  function PSUBB(src: xmm, dst: xmm): xmm { Lanes(src, dst, Sub) }

  function PADDB(src: xmm, dst: xmm): xmm { Lanes(src, dst, Add) }

  function PCMPEQB(src: xmm, dst: xmm): xmm { Lanes(src, dst, Eq) }

  /** The sign bits of the lanes, lane 0 in bit 0. */
  function SignBits(v: seq<uint8>): nat {
    if v == [] then 0 else 2 * SignBits(v[1..]) + (if v[0] >= 0x80 then 1 else 0)
  }

  function PowerOfTwo(n: nat): nat {
    if n == 0 then 1 else 2 * PowerOfTwo(n - 1)
  }

  lemma {:induction false} SignBitsBound(v: seq<uint8>)
    ensures SignBits(v) < PowerOfTwo(|v|)
  {
    if v == [] {
    } else {
      SignBitsBound(v[1..]);
    }
  }

  lemma MaskFits(v: xmm)
    ensures SignBits(v) < 65536
  {
    SignBitsBound(v);
    assert PowerOfTwo(4) == 16;
    assert PowerOfTwo(8) == 256;
    assert PowerOfTwo(12) == 4096;
    assert PowerOfTwo(16) == 65536;
  }

  function PMOVMSKB(src: xmm): (mask: word32)
  {
    MaskFits(src);
    SignBits(src)
  }

  /** The number of ones in the binary form. */
  function POPCNTL(x: nat): (count: nat)
    ensures count <= x
  {
    if x == 0 then 0 else x % 2 + POPCNTL(x / 2)
  }

  // ---------- One block ----------

  lemma OneLaneMore(v: seq<uint8>)
    requires v != []
    ensures POPCNTL(SignBits(v)) == POPCNTL(SignBits(v[1..])) + (if v[0] >= 0x80 then 1 else 0)
  {
    PopulationOfShift(SignBits(v[1..]), if v[0] >= 0x80 then 1 else 0);
  }

  lemma PopulationOfShift(x: nat, bit: nat)
    requires bit <= 1
    ensures POPCNTL(2 * x + bit) == POPCNTL(x) + bit
  {
    assert (2 * x + bit) % 2 == bit && (2 * x + bit) / 2 == x;
  }

  /** Comparing every lane with `x`, collecting the sign bits and counting them counts the lanes equal to `x`. */
  lemma {:induction false} CompareMaskCount(x: uint8, splat: seq<uint8>, v: seq<uint8>)
    requires |splat| == |v| && forall i :: 0 <= i < |splat| ==> splat[i] == x
    ensures POPCNTL(SignBits(Lanes(splat, v, Eq))) == Count(v, x)
  {
    if v == [] {
    } else {
      var mask := Lanes(splat, v, Eq);
      CompareMaskCount(x, splat[1..], v[1..]);
      OneLaneMore(mask);
      assert mask[1..] == Lanes(splat[1..], v[1..], Eq);
      assert mask[0] == if v[0] == x then 0xFF else 0;
    }
  }

  // ---------- The routine ----------

  /** A slice in memory: its bytes lie at base, base + 1, ... and end inside the address space. */
  predicate InMemory(base: reg, s: seq<uint8>) {
    base + |s| <= TWO_TO_THE_64 && |s| <= MAX
  }

  /** The loads may touch only the slice. */
  function LoadOne(base: reg, s: seq<uint8>, address: reg): (r: bv64)
    requires base <= address < base + |s|
    ensures r == 0 <==> s[address - base] == 0
    ensures r == 1 <==> s[address - base] == 1
    ensures r == 2 <==> s[address - base] == 2
  {
    s[address - base] as bv64
  }

  function LoadSixteen(base: reg, s: seq<uint8>, address: reg): xmm
    requires base <= address && address + 16 <= base + |s|
  {
    s[address - base..address - base + 16]
  }

  lemma SplatCount(splat: xmm, x: uint8, block: xmm)
    requires forall i :: 0 <= i < 16 ==> splat[i] == x
    ensures POPCNTL(PMOVMSKB(PCMPEQB(splat, block))) == Count(block, x)
  {
    CompareMaskCount(x, splat, block);
  }

  /** The block's lanes equal to `x`, counted the SIMD way and added to an accumulator. */
  lemma BlockCount(splat: xmm, x: uint8, base: reg, s: seq<uint8>, address: reg, acc: reg)
    requires InMemory(base, s) && base <= address && address + 16 <= base + |s|
    requires forall i :: 0 <= i < 16 ==> splat[i] == x
    requires acc == Count(s[..address - base], x)
    ensures ADDQ(POPCNTL(PMOVMSKB(PCMPEQB(splat, LoadSixteen(base, s, address)))), acc)
         == Count(s[..address - base + 16], x)
  {
    SplatCount(splat, x, LoadSixteen(base, s, address));
    CountsGrow(s, address - base, address - base + 16, x);
    AddsExactly(Count(LoadSixteen(base, s, address), x), acc);
  }

  /** Counts of bytes of a slice never reach the top of a register. */
  lemma AddsExactly(n: nat, acc: reg)
    requires n + acc < TWO_TO_THE_64
    ensures ADDQ(n, acc) == acc + n
  {
  }

  /** Registers after `|s| - CX` bytes: the pointer is that far in, and the accumulators count them. */
  predicate Progress(base: reg, s: seq<uint8>, SI: reg, CX: reg, R8: reg, R9: reg, R10: reg) {
    && InMemory(base, s)
    && CX <= |s|
    && SI == (base + |s| - CX) % TWO_TO_THE_64
    && Counts(s[..|s| - CX], R8, R9, R10)
  }

  lemma PointersMove(base: reg, s: seq<uint8>, SI: reg, CX: reg, k: nat)
    requires InMemory(base, s) && k <= CX <= |s| && SI == (base + |s| - CX) % TWO_TO_THE_64
    ensures SUBQ(k, CX) == CX - k
    ensures ADDQ(k, SI) == (base + |s| - (CX - k)) % TWO_TO_THE_64
    ensures CX > 0 ==> SI == base + |s| - CX
  {
  }

  /** The vectors of zeros, ones and twos, whatever the registers held before. */
  method ComparisonVectors(x3: xmm, x4: xmm, x5: xmm) returns (X3: xmm, X4: xmm, X5: xmm)
    ensures forall i :: 0 <= i < 16 ==> X3[i] == 0 && X4[i] == 1 && X5[i] == 2
  {
    X3 := PXOR(x3, x3);
    X4 := PXOR(x4, x4);
    X5 := PCMPEQB(x5, x5);
    X4 := PSUBB(X5, X4);
    X5 := X4;
    X5 := PADDB(X4, X5);
  }

  /** simd: sixteen bytes per iteration. */
  method SimdLoop(base: reg, statuses: seq<uint8>, X3: xmm, X4: xmm, X5: xmm,
                  si: reg, cx: reg, r8: reg, r9: reg, r10: reg)
    returns (SI: reg, CX: reg, R8: reg, R9: reg, R10: reg)
    requires forall i :: 0 <= i < 16 ==> X3[i] == 0 && X4[i] == 1 && X5[i] == 2
    requires Progress(base, statuses, si, cx, r8, r9, r10)
    ensures Progress(base, statuses, SI, CX, R8, R9, R10) && CX < 16
  {
    SI, CX, R8, R9, R10 := si, cx, r8, r9, r10;
    while Wrap(CX) >= 16
      invariant Progress(base, statuses, SI, CX, R8, R9, R10)
      decreases CX
    {
      PointersMove(base, statuses, SI, CX, 16);
      var X0 := LoadSixteen(base, statuses, SI);
      BlockCount(X3, 0, base, statuses, SI, R8);
      BlockCount(X4, 1, base, statuses, SI, R9);
      BlockCount(X5, 2, base, statuses, SI, R10);

      var X1 := PCMPEQB(X3, X0);
      var AX := PMOVMSKB(X1) as int;
      AX := POPCNTL(AX);
      R8 := ADDQ(AX, R8);

      X1 := PCMPEQB(X4, X0);
      AX := PMOVMSKB(X1);
      AX := POPCNTL(AX);
      R9 := ADDQ(AX, R9);

      X1 := PCMPEQB(X5, X0);
      AX := PMOVMSKB(X1);
      AX := POPCNTL(AX);
      R10 := ADDQ(AX, R10);

      SI := ADDQ(16, SI);
      CX := SUBQ(16, CX);
    }
  }

  /** tail, scalar: the bytes that are left. */
  method ScalarLoop(base: reg, statuses: seq<uint8>, si: reg, cx: reg, r8: reg, r9: reg, r10: reg)
    returns (R8: reg, R9: reg, R10: reg)
    requires Progress(base, statuses, si, cx, r8, r9, r10)
    ensures Counts(statuses, R8, R9, R10)
  {
    var SI: reg, CX: reg := si, cx;
    R8, R9, R10 := r8, r9, r10;
    while CX != 0
      invariant Progress(base, statuses, SI, CX, R8, R9, R10)
      decreases CX
    {
      PointersMove(base, statuses, SI, CX, 1);
      CountOneMore(statuses, |statuses| - CX);
      var DX := LoadOne(base, statuses, SI);
      AddsExactly(1, R8);
      AddsExactly(1, R9);
      AddsExactly(1, R10);
      if DX == 0 {
        R8 := ADDQ(1, R8);
      } else if DX == 1 {
        R9 := ADDQ(1, R9);
      } else if DX == 2 {
        R10 := ADDQ(1, R10);
      }
      SI := ADDQ(1, SI);
      CX := SUBQ(1, CX);
    }
    assert statuses[..|statuses|] == statuses;
  }

  /** The same three counts as the portable loop, for every slice; `x3`, `x4`, `x5` are left-over register contents. */
  method CountStatusesAmd64(base: reg, statuses: seq<uint8>, x3: xmm, x4: xmm, x5: xmm)
    returns (todo: int64, inProgress: int64, done: int64)
    requires InMemory(base, statuses)
    ensures Counts(statuses, todo, inProgress, done)
  {
    var X3, X4, X5 := ComparisonVectors(x3, x4, x5);
    assert Progress(base, statuses, base, |statuses|, 0, 0, 0);
    var SI, CX, R8, R9, R10 := SimdLoop(base, statuses, X3, X4, X5, base, |statuses|, 0, 0, 0);
    R8, R9, R10 := ScalarLoop(base, statuses, SI, CX, R8, R9, R10);
    return Wrap(R8), Wrap(R9), Wrap(R10);
  }
}
