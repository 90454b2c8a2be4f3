/** strconv.FormatInt and strconv.ParseInt in base 10 for int64. */
module Decimal {
  import opened Int64
  import opened Wrappers

  function Digit(d: int): (c: char)
    requires 0 <= d < 10
    ensures IsDigit(c)
  {
    (d + '0' as int) as char
  }

  predicate IsDigit(c: char) {
    '0' <= c <= '9'
  }

  function FormatNat(n: nat): (s: string)
    ensures s != [] && forall c :: c in s ==> IsDigit(c)
  {
    if n < 10 then [Digit(n)] else FormatNat(n / 10) + [Digit(n % 10)]
  }

  function FormatInt(x: int64): (s: string)
    ensures s != [] && forall c :: c in s ==> IsDigit(c) || c == '-'
  {
    if x < 0 then ['-'] + FormatNat(0 - x as int) else FormatNat(x)
  }

  function ParseDigits(s: string): Option<nat> {
    if s == [] then Some(0)
    else
      match ParseDigits(s[..|s| - 1])
      case None => None
      case Some(n) =>
        var c := s[|s| - 1];
        if IsDigit(c) then Some(10 * n + (c as int - '0' as int)) else None
  }

  /** An optional sign, then at least one digit; a value outside int64 is an error. */
  function ParseInt(s: string): Option<int64> {
    if s == [] then None
    else
      var digits := if s[0] == '+' || s[0] == '-' then s[1..] else s;
      if digits == [] then None
      else
        match ParseDigits(digits)
        case None => None
        case Some(n) =>
          var x := if s[0] == '-' then 0 - n as int else n as int;
          if InRange(x) then Some(x) else None
  }

  // ---------- What parses, and as which number ----------

  predicate AllDigits(s: string) {
    forall c :: c in s ==> IsDigit(c)
  }

  function Power10(n: nat): nat {
    if n == 0 then 1 else 10 * Power10(n - 1)
  }

  /** The number a row of digits stands for: each digit times the power of ten of its place. */
  function PlaceValue(s: string): int {
    if s == [] then 0 else (s[0] as int - '0' as int) * Power10(|s| - 1) + PlaceValue(s[1..])
  }

  lemma {:induction false} PlaceValueSnoc(s: string, c: char)
    ensures PlaceValue(s + [c]) == 10 * PlaceValue(s) + (c as int - '0' as int)
  {
    if s == [] {
      assert PlaceValue([c]) == (c as int - '0' as int) * Power10(0) + PlaceValue([c][1..]);
    } else {
      PlaceValueSnoc(s[1..], c);
      assert (s + [c])[1..] == s[1..] + [c];
      var d := s[0] as int - '0' as int;
      assert d * Power10(|s|) == 10 * (d * Power10(|s| - 1)) by {
        assert Power10(|s|) == 10 * Power10(|s| - 1);
      }
    }
  }

  lemma {:induction false} ParseDigitsMeaning(s: string)
    ensures ParseDigits(s).Some? <==> AllDigits(s)
    ensures ParseDigits(s).Some? ==> ParseDigits(s).value == PlaceValue(s)
  {
    if s == [] {
    } else {
      var front, c := s[..|s| - 1], s[|s| - 1];
      ParseDigitsMeaning(front);
      PlaceValueSnoc(front, c);
      assert s == front + [c];
    }
  }

  /** The text without its sign. */
  function Unsigned(s: string): string {
    if s != [] && (s[0] == '+' || s[0] == '-') then s[1..] else s
  }

  function SignedValue(s: string): int {
    if s != [] && s[0] == '-' then -PlaceValue(Unsigned(s)) else PlaceValue(Unsigned(s))
  }

  /** A text parses exactly when it is an optional sign and digits, at least one, whose value is an int64. */
  lemma ParseIntMeaning(s: string)
    ensures ParseInt(s).Some? <==> Unsigned(s) != [] && AllDigits(Unsigned(s)) && InRange(SignedValue(s))
    ensures ParseInt(s).Some? ==> ParseInt(s).value == SignedValue(s)
  {
    ParseDigitsMeaning(Unsigned(s));
  }

  // ---------- Parsing inverts printing ----------

  lemma {:induction false} ParseFormatNat(n: nat)
    ensures ParseDigits(FormatNat(n)) == Some(n)
  {
    if n < 10 {
      assert ParseDigits(FormatNat(n)[..0]) == Some(0);
    } else {
      ParseFormatNat(n / 10);
      assert FormatNat(n)[..|FormatNat(n)| - 1] == FormatNat(n / 10);
    }
  }

  lemma ParseSigned(digits: string, n: nat)
    requires digits != [] && ParseDigits(digits) == Some(n) && n <= MAX + 1
    ensures ParseInt(['-'] + digits) == Some(0 - n as int)
  {
    assert (['-'] + digits)[1..] == digits;
  }

  /** Parsing inverts printing on every int64, the smallest one included. */
  lemma ParseFormat(x: int64)
    ensures ParseInt(FormatInt(x)) == Some(x)
  {
    var n: nat := if x < 0 then 0 - x as int else x;
    ParseFormatNat(n);
    if x < 0 {
      ParseSigned(FormatNat(n), n);
    } else {
      assert FormatNat(n)[0] in FormatNat(n);
    }
  }

  // ---------- Which texts are printed ----------

  /** No sign but a minus before a positive number, and no leading zero. */
  predicate IsCanonical(s: string) {
    var digits := Unsigned(s);
    && (s != [] ==> s[0] != '+')
    && digits != []
    && (digits[0] == '0' ==> s == "0")
  }

  lemma {:induction false} NoLeadingZero(n: nat)
    ensures FormatNat(n)[0] == '0' <==> n == 0
  {
    if n < 10 {
    } else {
      NoLeadingZero(n / 10);
    }
  }

  lemma FormatSnoc(m: nat, d: int)
    requires 0 <= d < 10
    ensures FormatNat(10 * m + d) == (if m == 0 then [] else FormatNat(m)) + [Digit(d)]
  {
    var n := 10 * m + d;
    assert n / 10 == m && n % 10 == d;
  }

  lemma DigitOf(c: char)
    requires IsDigit(c)
    ensures 0 <= c as int - '0' as int < 10 && Digit(c as int - '0' as int) == c
  {
  }

  lemma {:induction false} FormatParseDigits(s: string)
    requires s != [] && ParseDigits(s).Some?
    ensures s[0] != '0' ==> ParseDigits(s).value > 0
    ensures s[0] != '0' ==> FormatNat(ParseDigits(s).value) == s
  {
    var front, c := s[..|s| - 1], s[|s| - 1];
    var m := ParseDigits(front).value;
    assert s == front + [c];
    DigitOf(c);
    FormatSnoc(m, c as int - '0' as int);
    if front == [] {
    } else {
      FormatParseDigits(front);
    }
  }

  /** Digits are printed back exactly when they have no leading zero. */
  lemma FormatParseNat(s: string)
    requires s != [] && ParseDigits(s).Some?
    ensures FormatNat(ParseDigits(s).value) == s <==> s[0] != '0' || s == "0"
  {
    FormatParseDigits(s);
    NoLeadingZero(ParseDigits(s).value);
    if s == "0" {
      assert s[..0] == [];
    }
  }

  /** Among the texts that parse, printing gives the text back exactly when it is canonical. */
  lemma FormatParse(s: string)
    requires ParseInt(s).Some?
    ensures FormatInt(ParseInt(s).value) == s <==> IsCanonical(s)
  {
    var x, digits := ParseInt(s).value, Unsigned(s);
    FormatParseDigits(digits);
    FormatParseNat(digits);
    var n: nat := ParseDigits(digits).value;
    NoLeadingZero(n);
    assert FormatNat(n)[0] in FormatNat(n);
    if s[0] == '-' {
      assert s == ['-'] + digits;
      assert x == 0 - n as int;
      if n > 0 {
        assert FormatInt(x) == ['-'] + FormatNat(n);
        assert FormatInt(x)[1..] == FormatNat(n) && s[1..] == digits;
      } else {
        assert FormatInt(x) == FormatNat(0) && digits[0] == '0';
      }
    } else if s[0] == '+' {
      assert FormatInt(x) == FormatNat(n);
    }
  }

  lemma FormatInjective(x: int64, y: int64)
    requires FormatInt(x) == FormatInt(y)
    ensures x == y
  {
    ParseFormat(x);
    ParseFormat(y);
  }
}
