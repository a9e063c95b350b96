/**
 * Base64 of RFC 4648: the standard alphabet with `=` padding (section 4), as Python's
 * base64.b64encode uses it, and the URL- and filename-safe alphabet (section 5),
 * as base64.urlsafe_b64encode uses it. Encoding works on 3-byte groups, each giving
 * four 6-bit digits; a final group of one or two bytes gives two or three digits and the
 * padding fills the output to a multiple of four characters. Decoding follows CPython's
 * non-strict binascii.a2b_base64, which is more lenient than section 3.3 of RFC 4648 asks.
 */
module Base64 {
  import opened Common

  datatype Alphabet = Standard | UrlSafe

  /** The character for the 6-bit value `i`. */
  function Digit(a: Alphabet, i: int): char
    requires 0 <= i < 64
  {
    if i < 26 then (65 + i) as char
    else if i < 52 then (97 + i - 26) as char
    else if i < 62 then (48 + i - 52) as char
    else if i == 62 then (if a == Standard then '+' else '-')
    else (if a == Standard then '/' else '_')
  }

  predicate IsDigit(a: Alphabet, c: char)
  {
    ('A' <= c <= 'Z') || ('a' <= c <= 'z') || ('0' <= c <= '9')
    || c == (if a == Standard then '+' else '-')
    || c == (if a == Standard then '/' else '_')
  }

  /** The 6-bit value of a digit; the inverse of Digit. */
  function Value(a: Alphabet, c: char): (v: int)
    requires IsDigit(a, c)
    ensures 0 <= v < 64 && Digit(a, v) == c
  {
    if 'A' <= c <= 'Z' then c as int - 65
    else if 'a' <= c <= 'z' then c as int - 97 + 26
    else if '0' <= c <= '9' then c as int - 48 + 52
    else if c == (if a == Standard then '+' else '-') then 62
    else 63
  }

  lemma DigitValue(a: Alphabet, i: int)
    requires 0 <= i < 64
    ensures IsDigit(a, Digit(a, i)) && Value(a, Digit(a, i)) == i
  {
  }

  predicate IsSextets(v: seq<int>)
  {
    forall j :: 0 <= j < |v| ==> 0 <= v[j] < 64
  }

  /** The 6-bit values of a group of one to three bytes: |g| + 1 of them, the last zero-filled. */
  function GroupSextets(g: Bytes): (v: seq<int>)
    requires 1 <= |g| <= 3
    ensures |v| == |g| + 1 && IsSextets(v)
  {
    if |g| == 1 then [g[0] / 4, (g[0] % 4) * 16]
    else if |g| == 2 then [g[0] / 4, (g[0] % 4) * 16 + g[1] / 16, (g[1] % 16) * 4]
    else [g[0] / 4, (g[0] % 4) * 16 + g[1] / 16, (g[1] % 16) * 4 + g[2] / 64, g[2] % 64]
  }

  /** The bytes carried by two to four 6-bit values; bits beyond the last whole byte are ignored. */
  function SextetsBytes(v: seq<int>): (g: Bytes)
    requires 2 <= |v| <= 4 && IsSextets(v)
    ensures |g| == |v| - 1
  {
    if |v| == 2 then [v[0] * 4 + v[1] / 16]
    else if |v| == 3 then [v[0] * 4 + v[1] / 16, (v[1] % 16) * 16 + v[2] / 4]
    else [v[0] * 4 + v[1] / 16, (v[1] % 16) * 16 + v[2] / 4, (v[2] % 4) * 64 + v[3]]
  }

  lemma GroupRoundTrip(g: Bytes)
    requires 1 <= |g| <= 3
    ensures SextetsBytes(GroupSextets(g)) == g
  {
    var v := GroupSextets(g);
    assert v[0] * 4 + v[1] / 16 == g[0] by {
      assert v[1] / 16 == g[0] % 4;
    }
    if |g| >= 2 {
      assert (v[1] % 16) * 16 + v[2] / 4 == g[1] by {
        assert v[1] % 16 == g[1] / 16;
        assert v[2] / 4 == g[1] % 16;
      }
    }
    if |g| == 3 {
      assert (v[2] % 4) * 64 + v[3] == g[2] by {
        assert v[2] % 4 == g[2] / 64;
      }
    }
  }

  function Digits(a: Alphabet, v: seq<int>): (s: string)
    requires IsSextets(v)
    ensures |s| == |v|
  {
    seq(|v|, j requires 0 <= j < |v| => Digit(a, v[j]))
  }

  predicate AllDigits(a: Alphabet, s: string)
  {
    forall j :: 0 <= j < |s| ==> IsDigit(a, s[j])
  }

  function Values(a: Alphabet, s: string): (v: seq<int>)
    requires AllDigits(a, s)
    ensures |v| == |s| && IsSextets(v)
  {
    seq(|s|, j requires 0 <= j < |s| => Value(a, s[j]))
  }

  lemma DigitsRoundTrip(a: Alphabet, v: seq<int>)
    requires IsSextets(v)
    ensures AllDigits(a, Digits(a, v)) && Values(a, Digits(a, v)) == v
  {
    forall j | 0 <= j < |v| ensures IsDigit(a, Digits(a, v)[j]) && Value(a, Digits(a, v)[j]) == v[j] {
      DigitValue(a, v[j]);
    }
  }

  /** The digits of `b` without padding. */
  function Unpadded(a: Alphabet, b: Bytes): string
    decreases |b|
  {
    if |b| == 0 then ""
    else if |b| <= 3 then Digits(a, GroupSextets(b))
    else Digits(a, GroupSextets(b[..3])) + Unpadded(a, b[3..])
  }

  /** The `=` characters that complete the final group of an `n`-byte input. */
  function Padding(n: nat): string
  {
    if n % 3 == 1 then "==" else if n % 3 == 2 then "=" else ""
  }

  /** Padded base64 of `b` (base64.b64encode for Standard). */
  function Encode(a: Alphabet, b: Bytes): string
  {
    Unpadded(a, b) + Padding(|b|)
  }

  /** Decodes digits without padding: groups of four, a final group of two or three. */
  function DecodeUnpadded(a: Alphabet, s: string): Option<Bytes>
    decreases |s|
  {
    if |s| == 0 then Some([])
    else if |s| == 1 then None
    else
      var n := Min(4, |s|);
      if !AllDigits(a, s[..n]) then None
      else match DecodeUnpadded(a, s[n..])
        case None => None
        case Some(rest) => Some(SextetsBytes(Values(a, s[..n])) + rest)
  }

  /** Removes every trailing `=`, as Python's `rstrip(b"=")`. */
  function RStripPad(s: string): string
    decreases |s|
  {
    if |s| > 0 && s[|s| - 1] == '=' then RStripPad(s[..|s| - 1]) else s
  }

  lemma {:induction false} UnpaddedDigits(a: Alphabet, b: Bytes)
    ensures AllDigits(a, Unpadded(a, b))
    ensures |Unpadded(a, b)| == (4 * |b| + 2) / 3
    decreases |b|
  {
    if |b| == 0 {
    } else if |b| <= 3 {
      DigitsRoundTrip(a, GroupSextets(b));
    } else {
      DigitsRoundTrip(a, GroupSextets(b[..3]));
      UnpaddedDigits(a, b[3..]);
    }
  }

  lemma {:induction false} UnpaddedRoundTrip(a: Alphabet, b: Bytes)
    ensures DecodeUnpadded(a, Unpadded(a, b)) == Some(b)
    decreases |b|
  {
    if |b| == 0 {
    } else if |b| <= 3 {
      var s := Unpadded(a, b);
      DigitsRoundTrip(a, GroupSextets(b));
      GroupRoundTrip(b);
      assert Min(4, |s|) == |s|;
      assert s[..|s|] == s;
      assert s[|s|..] == "";
      assert Values(a, s) == GroupSextets(b);
      assert DecodeUnpadded(a, "") == Some([]);
      assert SextetsBytes(Values(a, s)) + [] == b;
    } else {
      var s := Unpadded(a, b);
      var d := Digits(a, GroupSextets(b[..3]));
      DigitsRoundTrip(a, GroupSextets(b[..3]));
      GroupRoundTrip(b[..3]);
      UnpaddedRoundTrip(a, b[3..]);
      UnpaddedDigits(a, b[3..]);
      assert s[..4] == d;
      assert s[4..] == Unpadded(a, b[3..]);
      assert b == b[..3] + b[3..];
    }
  }

  /** Base64 output length: four characters for every commenced 3-byte group. */
  lemma EncodeLength(a: Alphabet, b: Bytes)
    ensures |Encode(a, b)| == 4 * ((|b| + 2) / 3)
    ensures |Encode(a, b)| % 4 == 0
  {
    UnpaddedDigits(a, b);
    PaddedLength(|b|);
  }

  /** ⌈4n/3⌉ digits and the padding make 4·⌈n/3⌉ characters. */
  lemma PaddedLength(n: nat)
    ensures (4 * n + 2) / 3 + |Padding(n)| == 4 * ((n + 2) / 3)
  {
    var q, r := n / 3, n % 3;
    assert n == 3 * q + r;
    if r == 0 {
      assert (4 * n + 2) / 3 == 4 * q && (n + 2) / 3 == q;
    } else if r == 1 {
      assert (4 * n + 2) / 3 == 4 * q + 2 && (n + 2) / 3 == q + 1;
    } else {
      assert (4 * n + 2) / 3 == 4 * q + 3 && (n + 2) / 3 == q + 1;
    }
  }

  /** Base64 output uses only the alphabet's digits and `=`, and `=` only at the end. */
  lemma EncodeAlphabet(a: Alphabet, b: Bytes)
    ensures forall j :: 0 <= j < |Encode(a, b)| ==>
      IsDigit(a, Encode(a, b)[j]) || (Encode(a, b)[j] == '=' && j >= |Unpadded(a, b)|)
  {
    UnpaddedDigits(a, b);
  }

  /** rstrip removes a run of `=` from a string that does not itself end in `=`. */
  lemma {:induction false} StripRun(u: string, pad: string)
    requires forall j :: 0 <= j < |pad| ==> pad[j] == '='
    requires |u| == 0 || u[|u| - 1] != '='
    ensures RStripPad(u + pad) == u
    decreases |pad|
  {
    if |pad| == 0 {
      assert u + pad == u;
    } else {
      var shorter := pad[..|pad| - 1];
      assert (u + pad)[..|u + pad| - 1] == u + shorter;
      StripRun(u, shorter);
    }
  }

  /** Stripping the trailing `=` of a padded encoding leaves exactly the unpadded digits. */
  lemma StripPadding(a: Alphabet, b: Bytes)
    ensures RStripPad(Encode(a, b)) == Unpadded(a, b)
  {
    var u := Unpadded(a, b);
    UnpaddedDigits(a, b);
    if |u| > 0 {
      assert IsDigit(a, u[|u| - 1]);
    }
    StripRun(u, Padding(|b|));
  }

  /*
   * The decoder of base64.b64decode(s) with its default `validate=False`. A `str` argument must be
   * ASCII (otherwise ValueError); the characters then go through CPython's binascii.a2b_base64 in
   * non-strict mode, one at a time, with the state below.
   */

  /**
   * The decoder state between characters: `quad` digits of the current group of four have been
   * read, and `left` holds the bits of the last one that are not yet part of a whole byte.
   */
  predicate ScanState(quad: nat, left: int)
  {
    && quad < 4 && 0 <= left
    && (quad == 0 ==> left == 0)
    && (quad == 1 ==> left < 64)
    && (quad == 2 ==> left < 16)
    && (quad == 3 ==> left < 4)
  }

  /**
   * a2b_base64 from the rest `s` of the input onwards, `out` being the bytes written so far and
   * `pads` the `=` seen since the last digit. A character outside the alphabet is skipped. An `=`
   * ends decoding, whatever follows, once it completes a group holding two or three digits;
   * any other `=` is skipped. Otherwise the input must end on a group boundary.
   */
  function Scan(s: string, quad: nat, left: int, pads: nat, out: Bytes): Option<Bytes>
    requires ScanState(quad, left)
    decreases |s|
  {
    if |s| == 0 then (if quad == 0 then Some(out) else None)
    else if s[0] == '=' then
      if quad >= 2 && quad + pads + 1 >= 4 then Some(out)
      else Scan(s[1..], quad, left, if quad >= 2 then pads + 1 else pads, out)
    else if !IsDigit(Standard, s[0]) then Scan(s[1..], quad, left, pads, out)
    else
      var v := Value(Standard, s[0]);
      if quad == 0 then Scan(s[1..], 1, v, 0, out)
      else if quad == 1 then Scan(s[1..], 2, v % 16, 0, out + [left * 4 + v / 16])
      else if quad == 2 then Scan(s[1..], 3, v % 4, 0, out + [left * 16 + v / 4])
      else Scan(s[1..], 0, 0, 0, out + [left * 64 + v])
  }

  predicate IsAsciiText(s: string)
  {
    forall j :: 0 <= j < |s| ==> s[j] as int < 128
  }

  /** base64.b64decode of a `str`, None where it raises. */
  function Decode(s: string): Option<Bytes>
  {
    if !IsAsciiText(s) then None else Scan(s, 0, 0, 0, [])
  }

  /** Four digits on a group boundary are read as the bytes they carry, ending on a group boundary. */
  lemma ScanQuad(d: string, rest: string, out: Bytes)
    requires |d| == 4 && AllDigits(Standard, d)
    ensures Scan(d + rest, 0, 0, 0, out) == Scan(rest, 0, 0, 0, out + SextetsBytes(Values(Standard, d)))
  {
    var x := d + rest;
    var w := Values(Standard, d);
    assert x[0] == d[0] && x[1..][0] == d[1] && x[2..][0] == d[2] && x[3..][0] == d[3];
    assert x[1..][1..] == x[2..] && x[2..][1..] == x[3..] && x[3..][1..] == x[4..];
    assert x[4..] == rest;
    var b0, b1, b2 := w[0] * 4 + w[1] / 16, (w[1] % 16) * 16 + w[2] / 4, (w[2] % 4) * 64 + w[3];
    assert Scan(x, 0, 0, 0, out) == Scan(x[1..], 1, w[0], 0, out);
    assert Scan(x[1..], 1, w[0], 0, out) == Scan(x[2..], 2, w[1] % 16, 0, out + [b0]);
    assert Scan(x[2..], 2, w[1] % 16, 0, out + [b0]) == Scan(x[3..], 3, w[2] % 4, 0, out + [b0] + [b1]);
    assert Scan(x[3..], 3, w[2] % 4, 0, out + [b0] + [b1]) == Scan(x[4..], 0, 0, 0, out + [b0] + [b1] + [b2]);
    assert out + [b0] + [b1] + [b2] == out + SextetsBytes(w);
  }

  /**
   * Two or three digits on a group boundary followed by the padding that completes the group are
   * read as the bytes they carry, and decoding stops there.
   */
  lemma ScanPadded(d: string, rest: string, out: Bytes)
    requires 2 <= |d| <= 3 && AllDigits(Standard, d)
    ensures Scan(d + Padding(|d| - 1) + rest, 0, 0, 0, out) == Some(out + SextetsBytes(Values(Standard, d)))
  {
    var x := d + Padding(|d| - 1) + rest;
    var w := Values(Standard, d);
    assert x[0] == d[0] && x[1..][0] == d[1];
    assert x[1..][1..] == x[2..] && x[2..][1..] == x[3..];
    var b0 := w[0] * 4 + w[1] / 16;
    assert Scan(x, 0, 0, 0, out) == Scan(x[1..], 1, w[0], 0, out);
    assert Scan(x[1..], 1, w[0], 0, out) == Scan(x[2..], 2, w[1] % 16, 0, out + [b0]);
    if |d| == 2 {
      assert x[2..][0] == '=' && x[3..][0] == '=';
      assert Scan(x[2..], 2, w[1] % 16, 0, out + [b0]) == Scan(x[3..], 2, w[1] % 16, 1, out + [b0]);
      assert [b0] == SextetsBytes(w);
    } else {
      var b1 := (w[1] % 16) * 16 + w[2] / 4;
      assert x[2..][0] == d[2] && x[3..][0] == '=';
      assert Scan(x[2..], 2, w[1] % 16, 0, out + [b0]) == Scan(x[3..], 3, w[2] % 4, 0, out + [b0] + [b1]);
      assert out + [b0] + [b1] == out + SextetsBytes(w);
    }
  }

  /** The four digits of a whole 3-byte group are read back as that group, ending on a group boundary. */
  lemma ScanGroup(g: Bytes, rest: string, out: Bytes)
    requires |g| == 3
    ensures Scan(Digits(Standard, GroupSextets(g)) + rest, 0, 0, 0, out) == Scan(rest, 0, 0, 0, out + g)
  {
    DigitsRoundTrip(Standard, GroupSextets(g));
    GroupRoundTrip(g);
    ScanQuad(Digits(Standard, GroupSextets(g)), rest, out);
  }

  /**
   * A final group of one or two bytes, written as two or three digits and its padding, is read
   * back as that group, and decoding stops there: whatever follows is ignored.
   */
  lemma ScanShortGroup(g: Bytes, rest: string, out: Bytes)
    requires 1 <= |g| <= 2
    ensures Scan(Digits(Standard, GroupSextets(g)) + Padding(|g|) + rest, 0, 0, 0, out) == Some(out + g)
  {
    DigitsRoundTrip(Standard, GroupSextets(g));
    GroupRoundTrip(g);
    ScanPadded(Digits(Standard, GroupSextets(g)), rest, out);
  }

  /** The encoding of one to three bytes is the digits of that group followed by its padding. */
  lemma EncodeLastGroup(a: Alphabet, b: Bytes, t: string)
    requires 1 <= |b| <= 3
    ensures Encode(a, b) + t == Digits(a, GroupSextets(b)) + Padding(|b|) + t
    ensures |b| == 3 ==> Encode(a, b) + t == Digits(a, GroupSextets(b)) + t
  {
  }

  /** An encoding of more than three bytes is the digits of the first group followed by the encoding of the rest. */
  lemma EncodeFirstGroup(a: Alphabet, b: Bytes, t: string)
    requires |b| > 3
    ensures Encode(a, b) + t == Digits(a, GroupSextets(b[..3])) + (Encode(a, b[3..]) + t)
  {
    assert Padding(|b|) == Padding(|b[3..]|);
  }

  /** An encoding without padding (of a multiple of 3 bytes) is read back, and decoding goes on into what follows. */
  lemma {:induction false} ScanWholeGroups(b: Bytes, t: string, out: Bytes)
    requires |b| % 3 == 0
    ensures Scan(Encode(Standard, b) + t, 0, 0, 0, out) == Scan(t, 0, 0, 0, out + b)
    decreases |b|
  {
    if |b| == 0 {
      assert Encode(Standard, b) + t == t && out + b == out;
    } else if |b| == 3 {
      EncodeLastGroup(Standard, b, t);
      ScanGroup(b, t, out);
    } else {
      EncodeFirstGroup(Standard, b, t);
      ScanGroup(b[..3], Encode(Standard, b[3..]) + t, out);
      ScanWholeGroups(b[3..], t, out + b[..3]);
      assert out + b[..3] + b[3..] == out + b;
    }
  }

  /** An encoding that ends in padding is read back, and whatever follows it is ignored. */
  lemma {:induction false} ScanThroughPadding(b: Bytes, t: string, out: Bytes)
    requires |b| % 3 != 0
    ensures Scan(Encode(Standard, b) + t, 0, 0, 0, out) == Some(out + b)
    decreases |b|
  {
    if |b| < 3 {
      EncodeLastGroup(Standard, b, t);
      ScanShortGroup(b, t, out);
    } else {
      EncodeFirstGroup(Standard, b, t);
      ScanGroup(b[..3], Encode(Standard, b[3..]) + t, out);
      ScanThroughPadding(b[3..], t, out + b[..3]);
      assert out + b[..3] + b[3..] == out + b;
    }
  }

  /** `=` on a group boundary is skipped: a run of them decodes to nothing more. */
  lemma {:induction false} ScanPadRun(t: string, out: Bytes)
    requires forall j :: 0 <= j < |t| ==> t[j] == '='
    ensures Scan(t, 0, 0, 0, out) == Some(out)
    decreases |t|
  {
    if |t| > 0 {
      ScanPadRun(t[1..], out);
    }
  }

  /** A character outside the alphabet and other than `=` is skipped wherever it stands. */
  lemma {:induction false} ScanSkipsForeign(x: string, c: char, y: string, quad: nat, left: int, pads: nat, out: Bytes)
    requires ScanState(quad, left)
    requires c != '=' && !IsDigit(Standard, c)
    ensures Scan(x + [c] + y, quad, left, pads, out) == Scan(x + y, quad, left, pads, out)
    decreases |x|
  {
    if |x| == 0 {
      assert x + [c] + y == [c] + y && ([c] + y)[1..] == y && x + y == y;
    } else {
      assert (x + [c] + y)[0] == (x + y)[0] == x[0];
      assert (x + [c] + y)[1..] == x[1..] + [c] + y;
      assert (x + y)[1..] == x[1..] + y;
      if x[0] == '=' {
        if !(quad >= 2 && quad + pads + 1 >= 4) {
          ScanSkipsForeign(x[1..], c, y, quad, left, if quad >= 2 then pads + 1 else pads, out);
        }
      } else if !IsDigit(Standard, x[0]) {
        ScanSkipsForeign(x[1..], c, y, quad, left, pads, out);
      } else {
        var v := Value(Standard, x[0]);
        if quad == 0 {
          ScanSkipsForeign(x[1..], c, y, 1, v, 0, out);
        } else if quad == 1 {
          ScanSkipsForeign(x[1..], c, y, 2, v % 16, 0, out + [left * 4 + v / 16]);
        } else if quad == 2 {
          ScanSkipsForeign(x[1..], c, y, 3, v % 4, 0, out + [left * 16 + v / 4]);
        } else {
          ScanSkipsForeign(x[1..], c, y, 0, 0, 0, out + [left * 64 + v]);
        }
      }
    }
  }

  /** Base64 output is ASCII. */
  lemma EncodeIsAscii(a: Alphabet, b: Bytes)
    ensures IsAsciiText(Encode(a, b))
  {
    EncodeAlphabet(a, b);
  }

  /** b64decode(b64encode(x)) == x. */
  lemma DecodeEncode(b: Bytes)
    ensures Decode(Encode(Standard, b)) == Some(b)
  {
    EncodeIsAscii(Standard, b);
    assert Encode(Standard, b) + "" == Encode(Standard, b) && [] + b == b;
    if |b| % 3 == 0 {
      ScanWholeGroups(b, "", []);
    } else {
      ScanThroughPadding(b, "", []);
    }
  }

  /** Surplus `=` after an encoding are skipped: b64decode(b64encode(x) + "=" * k) == x. */
  lemma DecodeSkipsSurplusPadding(b: Bytes, pad: string)
    requires forall j :: 0 <= j < |pad| ==> pad[j] == '='
    ensures Decode(Encode(Standard, b) + pad) == Some(b)
  {
    EncodeIsAscii(Standard, b);
    assert IsAsciiText(Encode(Standard, b) + pad);
    if |b| % 3 == 0 {
      ScanWholeGroups(b, pad, []);
      ScanPadRun(pad, b);
    } else {
      ScanThroughPadding(b, pad, []);
    }
    assert [] + b == b;
  }

  /** Decoding stops at the padding of an encoding: any ASCII text after it is ignored. */
  lemma DecodeStopsAtPadding(b: Bytes, t: string)
    requires |b| % 3 != 0 && IsAsciiText(t)
    ensures Decode(Encode(Standard, b) + t) == Some(b)
  {
    EncodeIsAscii(Standard, b);
    assert IsAsciiText(Encode(Standard, b) + t);
    ScanThroughPadding(b, t, []);
    assert [] + b == b;
  }

  /** An ASCII character outside the alphabet and other than `=` is discarded wherever it stands. */
  lemma DecodeSkipsForeign(x: string, c: char, y: string)
    requires c as int < 128 && c != '=' && !IsDigit(Standard, c)
    ensures Decode(x + [c] + y) == Decode(x + y)
  {
    ScanSkipsForeign(x, c, y, 0, 0, 0, []);
    if IsAsciiText(x + y) {
      forall j | 0 <= j < |x + [c] + y| ensures (x + [c] + y)[j] as int < 128 {
        if j > |x| {
          assert (x + [c] + y)[j] == (x + y)[j - 1];
        } else if j < |x| {
          assert (x + [c] + y)[j] == (x + y)[j];
        }
      }
    } else {
      var j :| 0 <= j < |x + y| && (x + y)[j] as int >= 128;
      if j < |x| {
        assert (x + [c] + y)[j] == (x + y)[j];
      } else {
        assert (x + [c] + y)[j + 1] == (x + y)[j];
      }
    }
  }

  /** A `str` holding a non-ASCII character is refused before decoding. */
  lemma DecodeRejectsNonAscii(s: string, j: nat)
    requires j < |s| && s[j] as int >= 128
    ensures Decode(s) == None
  {
  }
}
