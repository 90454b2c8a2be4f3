/**
 Signed session tokens: base64url("<user>:<expiry>") "." base64url(mac). The MAC is an arbitrary
 function of the payload.
 */
module Token {
  import opened Int64
  import opened Wrappers
  import opened Bytes
  import Decimal
  import Base64Url

  // ---------- time.Time ----------

  /** Go's Time: int64 seconds since year 1, and nanoseconds below a second. */
  datatype Time = Time(sec: int64, nsec: int) {
    predicate After(u: Time) {
      sec > u.sec || (sec == u.sec && nsec > u.nsec)
    }
  }

  /** Seconds from year 1 to 1970. */
  const UNIX_TO_INTERNAL := 62135596800

  /** t.Unix(): wraps for times that are too early. */
  function Unix(t: Time): int64 {
    Wrap(t.sec - UNIX_TO_INTERNAL)
  }

  /** time.Unix(s, 0): wraps for times that are too late. */
  function FromUnix(s: int64): Time {
    Time(Wrap(s + UNIX_TO_INTERNAL), 0)
  }

  /** The two wraps cancel: every Time comes back with its nanoseconds cut off. */
  lemma FromUnixOfUnix(t: Time)
    ensures FromUnix(Unix(t)) == Time(t.sec, 0)
  {
  }

  // ---------- strings.Split ----------

  function Split(s: string, sep: char): (parts: seq<string>)
    ensures |parts| >= 1
  {
    if s == [] then [[]]
    else
      var rest := Split(s[1..], sep);
      if s[0] == sep then [[]] + rest else [[s[0]] + rest[0]] + rest[1..]
  }

  lemma {:induction false} SplitOne(s: string, sep: char)
    requires sep !in s
    ensures Split(s, sep) == [s]
  {
    if s == [] {
    } else {
      SplitOne(s[1..], sep);
      assert [s[0]] + s[1..] == s;
    }
  }

  lemma {:induction false} SplitTwo(a: string, b: string, sep: char)
    requires sep !in a && sep !in b
    ensures Split(a + [sep] + b, sep) == [a, b]
  {
    var s := a + [sep] + b;
    if a == [] {
      assert s[1..] == b;
      SplitOne(b, sep);
    } else {
      assert s[1..] == a[1..] + [sep] + b;
      SplitTwo(a[1..], b, sep);
      assert [a[0]] + a[1..] == a;
    }
  }

  /** Two parts are what is left and right of the one separator. */
  lemma {:induction false} SplitParts(s: string, sep: char)
    ensures |Split(s, sep)| == 1 ==> Split(s, sep) == [s] && sep !in s
    ensures |Split(s, sep)| == 2 ==>
              var parts := Split(s, sep);
              s == parts[0] + [sep] + parts[1] && sep !in parts[0] && sep !in parts[1]
  {
    if s == [] {
    } else {
      SplitParts(s[1..], sep);
      assert s == [s[0]] + s[1..];
    }
  }

  // ---------- sign and verify ----------

  type Mac = string -> seq<byte>

  datatype VerifyError =
    | BadFormat
    | BadPayloadEncoding
    | BadSignatureEncoding
    | InvalidSignature
    | BadPayload
    | BadUserId
    | BadExpiry
    | Expired

  lemma DecimalIsBytes(x: int64)
    ensures IsByteString(Decimal.FormatInt(x))
  {
    var s := Decimal.FormatInt(x);
    forall i | 0 <= i < |s|
      ensures s[i] as int < 256
    {
      assert s[i] in s;
    }
  }

  function Payload(userId: int64, expiry: int64): (p: string)
    ensures IsByteString(p)
  {
    DecimalIsBytes(userId);
    DecimalIsBytes(expiry);
    Decimal.FormatInt(userId) + [':'] + Decimal.FormatInt(expiry)
  }

  function Sign(mac: Mac, userId: int64, expiresAt: Time): string {
    var payload := Payload(userId, Unix(expiresAt));
    Base64Url.Encode(ToBytes(payload)) + ['.'] + Base64Url.Encode(mac(payload))
  }

  function VerifyPayload(payload: string, now: Time): Result<int64, VerifyError> {
    var fields := Split(payload, ':');
    if |fields| != 2 then Failure(BadPayload)
    else
      match Decimal.ParseInt(fields[0])
      case None => Failure(BadUserId)
      case Some(userId) =>
        match Decimal.ParseInt(fields[1])
        case None => Failure(BadExpiry)
        case Some(expiry) => if now.After(FromUnix(expiry)) then Failure(Expired) else Success(userId)
  }

  function Verify(mac: Mac, now: Time, token: string): Result<int64, VerifyError> {
    var parts := Split(token, '.');
    if |parts| != 2 then Failure(BadFormat)
    else
      match Base64Url.Decode(parts[0])
      case None => Failure(BadPayloadEncoding)
      case Some(payload) =>
        match Base64Url.Decode(parts[1])
        case None => Failure(BadSignatureEncoding)
        case Some(sig) =>
          if sig != mac(FromBytes(payload)) then Failure(InvalidSignature)
          else VerifyPayload(FromBytes(payload), now)
  }

  lemma VerifySplits(mac: Mac, now: Time, payload: seq<byte>, signature: string)
    requires '.' !in signature
    ensures Verify(mac, now, Base64Url.Encode(payload) + ['.'] + signature) ==
              match Base64Url.Decode(signature)
              case None => Failure(BadSignatureEncoding)
              case Some(sig) =>
                if sig != mac(FromBytes(payload)) then Failure(InvalidSignature)
                else VerifyPayload(FromBytes(payload), now)
  {
    Base64Url.EncodingHasNoDot(Base64Url.Pack(payload));
    SplitTwo(Base64Url.Encode(payload), signature, '.');
    Base64Url.DecodeEncode(payload);
  }

  lemma VerifyPayloadFields(userId: int64, expiry: int64, now: Time)
    ensures VerifyPayload(Payload(userId, expiry), now)
         == if now.After(FromUnix(expiry)) then Failure(Expired) else Success(userId)
  {
    assert ':' !in Decimal.FormatInt(userId) && ':' !in Decimal.FormatInt(expiry);
    SplitTwo(Decimal.FormatInt(userId), Decimal.FormatInt(expiry), ':');
    Decimal.ParseFormat(userId);
    Decimal.ParseFormat(expiry);
  }

  /**
   Round trip, for every user id and every representable expiry: the token names its user up to and
   including the instant its expiry's second begins, and is expired from then on.
   */
  lemma VerifySign(mac: Mac, userId: int64, expiresAt: Time, now: Time)
    ensures Verify(mac, now, Sign(mac, userId, expiresAt))
         == if now.sec > expiresAt.sec || (now.sec == expiresAt.sec && now.nsec > 0) then Failure(Expired)
            else Success(userId)
  {
    var payload := Payload(userId, Unix(expiresAt));
    var signature := Base64Url.Encode(mac(payload));
    Base64Url.EncodingHasNoDot(Base64Url.Pack(mac(payload)));
    FromToBytes(payload);
    VerifySplits(mac, now, ToBytes(payload), signature);
    Base64Url.DecodeEncode(mac(payload));
    VerifyPayloadFields(userId, Unix(expiresAt), now);
    FromUnixOfUnix(expiresAt);
  }

  /** Never accepted after its expiry; accepted for certain while a full second is left. */
  lemma AcceptanceWindow(mac: Mac, userId: int64, expiresAt: Time, now: Time)
    requires 0 <= expiresAt.nsec < 1_000_000_000 && 0 <= now.nsec < 1_000_000_000
    ensures now.sec > expiresAt.sec || (now.sec == expiresAt.sec && now.nsec > expiresAt.nsec) ==>
              Verify(mac, now, Sign(mac, userId, expiresAt)) == Failure(Expired)
    ensures now.sec + 1 < expiresAt.sec || (now.sec + 1 == expiresAt.sec && now.nsec <= expiresAt.nsec) ==>
              Verify(mac, now, Sign(mac, userId, expiresAt)) == Success(userId)
  {
    VerifySign(mac, userId, expiresAt, now);
  }

  /**
   Whatever is put in front of the signature of an issued token: the token's own payload is accepted as its
   user until its expiry, and any other payload that is accepted is a collision of the MAC.
   */
  lemma SignatureBindsPayload(mac: Mac, userId: int64, expiresAt: Time, now: Time, token: string)
    requires |Split(token, '.')| == 2
    requires Base64Url.Decode(Split(token, '.')[1]) == Some(mac(Payload(userId, Unix(expiresAt))))
    ensures var issued := Payload(userId, Unix(expiresAt));
            match Base64Url.Decode(Split(token, '.')[0])
            case None => Verify(mac, now, token) == Failure(BadPayloadEncoding)
            case Some(bytes) =>
              if FromBytes(bytes) == issued
              then Verify(mac, now, token)
                     == if now.After(Time(expiresAt.sec, 0)) then Failure(Expired) else Success(userId)
              else Verify(mac, now, token).Success? ==> mac(FromBytes(bytes)) == mac(issued)
  {
    VerifyPayloadFields(userId, Unix(expiresAt), now);
    FromUnixOfUnix(expiresAt);
  }

  /**
   The token is two encodings joined by a dot, the second of the first's MAC, and the payload is two numbers
   joined by a colon.
   */
  ghost predicate IsToken(mac: Mac, token: string, front: string, back: string, bytes: seq<byte>,
                          first: string, second: string, userId: int64, expiry: int64) {
    && token == front + ['.'] + back
    && Base64Url.Decode(front) == Some(bytes)
    && Base64Url.Decode(back) == Some(mac(FromBytes(bytes)))
    && FromBytes(bytes) == first + [':'] + second
    && Decimal.ParseInt(first) == Some(userId)
    && Decimal.ParseInt(second) == Some(expiry)
  }

  /** A token in whatever spelling is accepted as its user until its expiry, and expired from then on. */
  lemma TokensAreAccepted(mac: Mac, now: Time, token: string, front: string, back: string, bytes: seq<byte>,
                          first: string, second: string, userId: int64, expiry: int64)
    requires IsToken(mac, token, front, back, bytes, first, second, userId, expiry)
    ensures Verify(mac, now, token) == if now.After(FromUnix(expiry)) then Failure(Expired) else Success(userId)
  {
    DecodableHasNoDot(front);
    DecodableHasNoDot(back);
    SplitTwo(front, back, '.');
    NumbersHaveNoColon(first);
    NumbersHaveNoColon(second);
    SplitTwo(first, second, ':');
  }

  lemma DecodableHasNoDot(s: string)
    requires Base64Url.Decode(s).Some?
    ensures '.' !in s
  {
    Base64Url.DecodeDomain(s);
    assert !Base64Url.InAlphabet('.') && !Base64Url.IsLineBreak('.');
  }

  lemma NumbersHaveNoColon(s: string)
    requires Decimal.ParseInt(s).Some?
    ensures ':' !in s
  {
    Decimal.ParseIntMeaning(s);
    var digits := Decimal.Unsigned(s);
    assert s == digits || s == [s[0]] + digits;
  }

  /** Nothing else is accepted, and nothing else is reported as expired. */
  lemma AcceptedTokens(mac: Mac, now: Time, token: string, userId: int64)
    ensures Verify(mac, now, token) == Success(userId) <==>
              exists front, back, bytes, first, second, expiry ::
                IsToken(mac, token, front, back, bytes, first, second, userId, expiry) && !now.After(FromUnix(expiry))
  {
    if Verify(mac, now, token) == Success(userId) {
      SplitParts(token, '.');
      var parts := Split(token, '.');
      var bytes := Base64Url.Decode(parts[0]).value;
      SplitParts(FromBytes(bytes), ':');
      var fields := Split(FromBytes(bytes), ':');
      var expiry := Decimal.ParseInt(fields[1]).value;
      assert IsToken(mac, token, parts[0], parts[1], bytes, fields[0], fields[1], userId, expiry);
    }
    forall front, back, bytes, first, second, expiry |
      IsToken(mac, token, front, back, bytes, first, second, userId, expiry) && !now.After(FromUnix(expiry))
      ensures Verify(mac, now, token) == Success(userId)
    {
      TokensAreAccepted(mac, now, token, front, back, bytes, first, second, userId, expiry);
    }
  }

  /** A signature that does not match is the answer before the payload is looked at. */
  lemma ForgedTokens(mac: Mac, now: Time, front: string, back: string)
    requires Base64Url.Decode(front).Some? && Base64Url.Decode(back).Some?
    ensures Verify(mac, now, front + ['.'] + back) == Failure(InvalidSignature) <==>
              Base64Url.Decode(back).value != mac(FromBytes(Base64Url.Decode(front).value))
  {
    DecodableHasNoDot(front);
    DecodableHasNoDot(back);
    SplitTwo(front, back, '.');
  }
}
