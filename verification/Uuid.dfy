/** The textual tenant identifier of the JavaScript SDKs and its sixteen octets. */
module Uuid {
  import opened Prelude
  import opened Utf16
  import opened Frame

  const DASH: Unit := 45

  function HexDigit(v: nat): (u: Unit)
    requires v < 16
  {
    if v < 10 then 48 + v else 97 + (v - 10)
  }

  predicate IsHexDigit(u: Unit)
  {
    48 <= u <= 57 || 97 <= u <= 102 || 65 <= u <= 70
  }

  /** `parseInt` of one hexadecimal digit. */
  function HexValue(u: Unit): (v: nat)
    requires IsHexDigit(u)
    ensures v < 16
  {
    if u <= 57 then u - 48 else if u <= 70 then u - 55 else u - 87
  }

  function Lower(u: Unit): (l: Unit)
  {
    if 65 <= u <= 90 then u + 32 else u
  }

  function LowerCase(s: JsString): (t: JsString)
    ensures |t| == |s|
  {
    seq(|s|, i requires 0 <= i < |s| => Lower(s[i]))
  }

  predicate IsDashPosition(i: int)
  {
    i == 8 || i == 13 || i == 18 || i == 23
  }

  /** The regular expression of the source: 8-4-4-4-12 hexadecimal digits in either case. */
  predicate IsUuid(s: JsString)
  {
    |s| == 36 && forall i | 0 <= i < 36 :: if IsDashPosition(i) then s[i] == DASH else IsHexDigit(s[i])
  }

  /** Where digit `k` of the 32 stands in the text. */
  function DigitPosition(k: nat): (i: nat)
    requires k < 32
    ensures i < 36 && !IsDashPosition(i)
  {
    if k < 8 then k else if k < 12 then k + 1 else if k < 16 then k + 2 else if k < 20 then k + 3 else k + 4
  }

  /** `uuid.replace(/-/g, "")`. */
  function WithoutDashes(s: JsString): (t: JsString)
  {
    if s == [] then [] else WithoutDashes(s[..|s| - 1]) + if s[|s| - 1] == DASH then [] else [s[|s| - 1]]
  }

  /** Number of digit positions among the first `n` of the text. */
  function DigitsBefore(n: nat): (d: nat)
  {
    if n <= 8 then n else if n <= 13 then n - 1 else if n <= 18 then n - 2 else if n <= 23 then n - 3 else n - 4
  }

  lemma {:induction false} DigitsOf(s: JsString, n: nat)
    requires IsUuid(s) && n <= 36
    ensures |WithoutDashes(s[..n])| == DigitsBefore(n)
    ensures forall k | 0 <= k < DigitsBefore(n) :: k < 32 && WithoutDashes(s[..n])[k] == s[DigitPosition(k)]
  {
    if n > 0 {
      DigitsOf(s, n - 1);
      assert s[..n][..n - 1] == s[..n - 1];
      assert s[n - 1] == DASH <==> IsDashPosition(n - 1);
    }
  }

  /** The octets a well-formed text denotes. */
  function Octets(s: JsString): (t: Tenant)
    requires IsUuid(s)
  {
    seq(16, i requires 0 <= i < 16 => HexValue(s[DigitPosition(2 * i)]) * 16 + HexValue(s[DigitPosition(2 * i + 1)]))
  }

  /** `uuidToBytes`. */
  method UuidToBytes(uuid: JsString) returns (r: Result<Tenant, ProtocolError>)
    ensures r == if IsUuid(uuid) then Ok(Octets(uuid)) else Err(InvalidUuid)
  {
    if !IsUuid(uuid) {
      return Err(InvalidUuid);
    }
    var hex := WithoutDashes(uuid);
    DigitsOf(uuid, 36);
    assert uuid[..36] == uuid;
    var bytes: seq<Byte> := [];
    for i := 0 to 16
      invariant bytes == Octets(uuid)[..i]
    {
      assert hex[2 * i] == uuid[DigitPosition(2 * i)] && hex[2 * i + 1] == uuid[DigitPosition(2 * i + 1)];
      bytes := bytes + [HexValue(hex[2 * i]) * 16 + HexValue(hex[2 * i + 1])];
    }
    assert Octets(uuid)[..16] == Octets(uuid);
    r := Ok(bytes);
  }

  /** The 32 lower-case digits of sixteen octets. */
  function HexText(t: Tenant): (h: JsString)
    ensures |h| == 32
  {
    seq(32, k requires 0 <= k < 32 => HexDigit(if k % 2 == 0 then t[k / 2] / 16 else t[k / 2] % 16))
  }

  /** `bytesToUuid`. */
  function BytesToUuid(t: Tenant): (s: JsString)
    ensures |s| == 36
  {
    var h := HexText(t);
    h[0..8] + [DASH] + h[8..12] + [DASH] + h[12..16] + [DASH] + h[16..20] + [DASH] + h[20..32]
  }

  /** The hexadecimal digits, in order. */
  const DIGITS := "0123456789abcdef"

  /** Digits as the characters they are: sixteen in lower case to print, both cases to read. */
  lemma HexDigits(v: nat, u: Unit)
    requires v < 16
    ensures HexDigit(v) == DIGITS[v] as int
    ensures IsHexDigit(u) <==> '0' as int <= u <= '9' as int || 'a' as int <= u <= 'f' as int || 'A' as int <= u <= 'F' as int
    ensures IsHexDigit(u) ==> DIGITS[HexValue(u)] as int == Lower(u)
    ensures DASH == '-' as int
  {
  }

  /** Octet `i` of an identifier is what digits `2i` and `2i + 1` of the text denote, dashes left out. */
  lemma OctetsInOrder(s: JsString, i: nat)
    requires IsUuid(s) && i < 16
    ensures |WithoutDashes(s)| == 32
    ensures IsHexDigit(WithoutDashes(s)[2 * i]) && IsHexDigit(WithoutDashes(s)[2 * i + 1])
    ensures Octets(s)[i] == 16 * HexValue(WithoutDashes(s)[2 * i]) + HexValue(WithoutDashes(s)[2 * i + 1])
  {
    DigitsOf(s, 36);
    assert s[..36] == s;
    assert WithoutDashes(s)[2 * i] == s[DigitPosition(2 * i)];
    assert WithoutDashes(s)[2 * i + 1] == s[DigitPosition(2 * i + 1)];
  }

  lemma HexDigitInverse(v: nat)
    requires v < 16
    ensures IsHexDigit(HexDigit(v)) && HexValue(HexDigit(v)) == v
  {
  }

  lemma LowerIsCanonical(u: Unit)
    requires IsHexDigit(u)
    ensures Lower(u) == HexDigit(HexValue(u))
  {
  }

  lemma TextOfDigits(t: Tenant)
    ensures IsUuid(BytesToUuid(t))
    ensures forall k | 0 <= k < 32 :: BytesToUuid(t)[DigitPosition(k)] == HexText(t)[k]
  {
    var s, h := BytesToUuid(t), HexText(t);
    forall k | 0 <= k < 32 ensures IsHexDigit(h[k]) {
      HexDigitInverse(if k % 2 == 0 then t[k / 2] / 16 else t[k / 2] % 16);
    }
  }

  /** Octets to text and back is the identity. */
  lemma OctetsOfText(t: Tenant)
    ensures IsUuid(BytesToUuid(t)) && Octets(BytesToUuid(t)) == t
  {
    TextOfDigits(t);
    var s, h := BytesToUuid(t), HexText(t);
    forall i | 0 <= i < 16 ensures Octets(s)[i] == t[i] {
      assert s[DigitPosition(2 * i)] == h[2 * i] && s[DigitPosition(2 * i + 1)] == h[2 * i + 1];
      HexDigitInverse(t[i] / 16);
      HexDigitInverse(t[i] % 16);
    }
  }

  /** Text to octets and back is the text in lower case. */
  lemma TextOfOctets(s: JsString)
    requires IsUuid(s)
    ensures BytesToUuid(Octets(s)) == LowerCase(s)
  {
    forall i | 0 <= i < 36 ensures BytesToUuid(Octets(s))[i] == Lower(s[i]) {
      TextOfDigits(Octets(s));
      if !IsDashPosition(i) {
        var k := DigitsBefore(i);
        assert DigitPosition(k) == i;
        DigitOfOctets(s, k);
      }
    }
  }

  lemma DigitOfOctets(s: JsString, k: nat)
    requires IsUuid(s) && k < 32
    ensures HexText(Octets(s))[k] == Lower(s[DigitPosition(k)])
  {
    OctetDigits(s, k / 2);
    LowerIsCanonical(s[DigitPosition(k)]);
  }

  lemma OctetDigits(s: JsString, i: nat)
    requires IsUuid(s) && i < 16
    ensures Octets(s)[i] / 16 == HexValue(s[DigitPosition(2 * i)])
    ensures Octets(s)[i] % 16 == HexValue(s[DigitPosition(2 * i + 1)])
  {
  }
}
