/** Bytes as hexadecimal text, numbers as big-endian bytes. */
module Encoding {
  import opened Hashing

  // ---------- hexadecimal ----------

  const DIGITS: string := "0123456789abcdef"

  function HexDigits(b: Bytes): string {
    if b == [] then "" else [DIGITS[b[0] / 16], DIGITS[b[0] % 16]] + HexDigits(b[1..])
  }

  function ToHex(b: Bytes): string {
    "0x" + HexDigits(b)
  }

  function DigitValue(c: char): Option<nat> {
    if '0' <= c <= '9' then Some(c as int - '0' as int)
    else if 'a' <= c <= 'f' then Some(c as int - 'a' as int + 10)
    else if 'A' <= c <= 'F' then Some(c as int - 'A' as int + 10)
    else None
  }

  /** Pairs of digits up to the first pair that is not hexadecimal. */
  function ParseDigits(s: string): Bytes {
    if |s| < 2 then []
    else
      match (DigitValue(s[0]), DigitValue(s[1]))
      case (Some(hi), Some(lo)) => DigitPair(hi, lo) + ParseDigits(s[2..])
      case _ => []
  }

  function DigitPair(hi: nat, lo: nat): Bytes {
    if hi < 16 && lo < 16 then [16 * hi + lo] else []
  }

  /** None where the source throws: an odd number of digits. */
  function FromHex(hex: string): Option<Bytes> {
    var clean := if "0x" <= hex then hex[2..] else hex;
    if |clean| % 2 != 0 then None else Some(ParseDigits(clean))
  }

  lemma DigitRoundTrip(v: nat)
    requires v < 16
    ensures DigitValue(DIGITS[v]) == Some(v)
  {
  }

  lemma ParsePair(hi: nat, lo: nat, rest: string)
    requires hi < 16 && lo < 16
    ensures ParseDigits([DIGITS[hi], DIGITS[lo]] + rest) == [16 * hi + lo] + ParseDigits(rest)
  {
    DigitRoundTrip(hi);
    DigitRoundTrip(lo);
    hide DigitValue;
    assert ([DIGITS[hi], DIGITS[lo]] + rest)[2..] == rest;
  }

  lemma {:induction false} HexDigitsRoundTrip(b: Bytes)
    ensures |HexDigits(b)| == 2 * |b|
    ensures ParseDigits(HexDigits(b)) == b
  {
    hide ParseDigits, DigitValue;
    if b == [] {
      ParseNothing();
    } else {
      HexDigitsRoundTrip(b[1..]);
      ParsePair(b[0] / 16, b[0] % 16, HexDigits(b[1..]));
      assert b == [b[0]] + b[1..];
    }
  }

  lemma ParseNothing()
    ensures ParseDigits("") == []
  {
  }

  lemma {:induction false} DigitsAt(b: Bytes, k: nat)
    requires k < |b|
    ensures |HexDigits(b)| == 2 * |b|
    ensures HexDigits(b)[2 * k] == DIGITS[b[k] / 16] && HexDigits(b)[2 * k + 1] == DIGITS[b[k] % 16]
  {
    HexDigitsRoundTrip(b);
    var rest := HexDigits(b[1..]);
    assert HexDigits(b) == [DIGITS[b[0] / 16], DIGITS[b[0] % 16]] + rest;
    if k > 0 {
      DigitsAt(b[1..], k - 1);
      hide HexDigits;
      assert HexDigits(b)[2 * k] == rest[2 * k - 2] && HexDigits(b)[2 * k + 1] == rest[2 * k - 1];
      assert b[1..][k - 1] == b[k];
    }
  }

  /** Two digits for each byte, the high one first. */
  lemma HexDigitsAt(b: Bytes, k: nat)
    requires k < |b|
    ensures |ToHex(b)| == 2 + 2 * |b| && ToHex(b)[..2] == "0x"
    ensures ToHex(b)[2 + 2 * k] == "0123456789abcdef"[b[k] / 16]
    ensures ToHex(b)[3 + 2 * k] == "0123456789abcdef"[b[k] % 16]
  {
    DigitsAt(b, k);
    hide HexDigits;
    assert ToHex(b)[2 + 2 * k] == HexDigits(b)[2 * k] && ToHex(b)[3 + 2 * k] == HexDigits(b)[2 * k + 1];
  }

  /** Writing bytes as hex and reading them back gives the same bytes. */
  lemma HexRoundTrip(b: Bytes)
    ensures FromHex(ToHex(b)) == Some(b)
  {
    HexDigitsRoundTrip(b);
    assert ToHex(b)[2..] == HexDigits(b);
  }

  // ---------- big-endian integers ----------

  /** `width` bytes, the highest first. */
  function BigEndian(v: nat, width: nat): (b: Bytes)
    ensures |b| == width
    decreases width
  {
    if width == 0 then [] else BigEndian(v / 256, width - 1) + [v % 256]
  }

  function FromBigEndian(b: Bytes): nat {
    if b == [] then 0 else 256 * FromBigEndian(b[..|b| - 1]) + b[|b| - 1]
  }

  function Pow256(width: nat): (p: nat)
    ensures p > 0
  {
    if width == 0 then 1 else 256 * Pow256(width - 1)
  }

  lemma {:induction false} BigEndianRoundTrip(v: nat, width: nat)
    requires v < Pow256(width)
    ensures FromBigEndian(BigEndian(v, width)) == v
    decreases width
  {
    if width > 0 {
      BigEndianRoundTrip(v / 256, width - 1);
      var b := BigEndian(v, width);
      assert b[..|b| - 1] == BigEndian(v / 256, width - 1);
    }
  }

  /** Byte k counts the multiples of 256 to the number of bytes behind it. */
  lemma {:induction false} BigEndianAt(v: nat, width: nat, k: nat)
    requires k < width
    ensures BigEndian(v, width)[k] == v / Pow256(width - 1 - k) % 256
    decreases width
  {
    if k < width - 1 {
      BigEndianAt(v / 256, width - 1, k);
      DivideTwice(v, Pow256(width - 2 - k));
    } else {
      assert Pow256(0) == 1;
    }
  }

  lemma DivideTwice(v: nat, p: nat)
    requires p > 0
    ensures v / 256 / p == v / (256 * p)
  {
    var q, r := v / 256 / p, v / 256 % p;
    assert v / 256 == q * p + r;
    assert v == 256 * (q * p) + 256 * r + v % 256;
    QuotientIs(v, 256 * p, q, 256 * r + v % 256);
  }

  lemma QuotientIs(v: nat, d: nat, q: nat, r: nat)
    requires d > 0 && v == d * q + r && r < d
    ensures v / d == q
  {
    SameQuotient(d, v / d, v % d, q, r);
  }

  lemma SameQuotient(d: nat, a: nat, c: nat, q: nat, r: nat)
    requires d > 0 && d * a + c == d * q + r && c < d && r < d
    ensures a == q
  {
    if a < q {
      OneMoreTimes(d, a, q);
    } else if a > q {
      OneMoreTimes(d, q, a);
    }
  }

  lemma OneMoreTimes(d: nat, a: nat, b: nat)
    requires a < b
    ensures d * a + d <= d * b
  {
    assert d * b == d * (a + 1) + d * (b - a - 1);
  }
}
