/** Lower-case hexadecimal, as Python's `bytes.hex()` writes it: two digits per byte, high nibble first. */
module Hex {
  import opened Common

  function HexDigit(i: int): char
    requires 0 <= i < 16
  {
    if i < 10 then (48 + i) as char else (87 + i) as char
  }

  predicate IsLowerHex(c: char)
  {
    ('0' <= c <= '9') || ('a' <= c <= 'f')
  }

  function ToHex(b: Bytes): string
    decreases |b|
  {
    if |b| == 0 then "" else [HexDigit(b[0] / 16), HexDigit(b[0] % 16)] + ToHex(b[1..])
  }

  /** `bytes.hex()` yields two characters from `0-9a-f` per byte. */
  lemma {:induction false} HexShape(b: Bytes)
    ensures |ToHex(b)| == 2 * |b|
    ensures forall j :: 0 <= j < |ToHex(b)| ==> IsLowerHex(ToHex(b)[j])
    decreases |b|
  {
    if |b| > 0 {
      HexShape(b[1..]);
    }
  }

  lemma HexDigitInjective(i: int, k: int)
    requires 0 <= i < 16 && 0 <= k < 16 && HexDigit(i) == HexDigit(k)
    ensures i == k
  {
  }

  /** Distinct byte strings have distinct hex encodings. */
  lemma {:induction false} HexInjective(b1: Bytes, b2: Bytes)
    requires ToHex(b1) == ToHex(b2)
    ensures b1 == b2
    decreases |b1|
  {
    HexShape(b1);
    HexShape(b2);
    if |b1| > 0 {
      var h1, h2 := ToHex(b1), ToHex(b2);
      assert h1[0] == h2[0] && h1[1] == h2[1];
      HexDigitInjective(b1[0] / 16, b2[0] / 16);
      HexDigitInjective(b1[0] % 16, b2[0] % 16);
      assert b1[0] == b2[0];
      assert h1[2..] == ToHex(b1[1..]) && h2[2..] == ToHex(b2[1..]);
      HexInjective(b1[1..], b2[1..]);
      assert b1 == [b1[0]] + b1[1..] && b2 == [b2[0]] + b2[1..];
    }
  }
}
