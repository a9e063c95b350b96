/**
 * The part of Python's json.dumps the token service uses: objects of string and integer members,
 * with the default separators `", "` and `": "` and ensure_ascii escaping. Output is printable
 * ASCII, so `.encode()` turns it into one byte per character.
 */
module Json {
  import opened Text
  import Hex

  datatype Value = Str(s: string) | Int(n: int)

  predicate IsPrintable(c: char)
  {
    ' ' <= c <= '~'
  }

  predicate AllPrintable(s: string)
  {
    forall j :: 0 <= j < |s| ==> IsPrintable(s[j])
  }

  function DecimalDigit(d: int): char
    requires 0 <= d < 10
  {
    (48 + d) as char
  }

  function DecimalNat(n: nat): string
    decreases n
  {
    if n < 10 then [DecimalDigit(n)] else DecimalNat(n / 10) + [DecimalDigit(n % 10)]
  }

  /** `str(n)` for an integer. */
  function Decimal(n: int): string
  {
    if n < 0 then "-" + DecimalNat(-n) else DecimalNat(n)
  }

  /** `\uXXXX` with four lower-case hex digits. */
  function UnicodeEscape(n: int): string
    requires 0 <= n < 0x10000
  {
    "\\u" + [Hex.HexDigit(n / 4096), Hex.HexDigit(n / 256 % 16), Hex.HexDigit(n / 16 % 16), Hex.HexDigit(n % 16)]
  }

  /**
   * One character as ensure_ascii writes it: `\\` and `"` and the five short escapes, any other
   * character outside space..tilde as `\uXXXX`, above U+FFFF as a surrogate pair.
   */
  function EscapeChar(c: char): string
  {
    var n := c as int;
    if c == '"' then "\\\""
    else if c == '\\' then "\\\\"
    else if n == 8 then "\\b"
    else if n == 12 then "\\f"
    else if c == '\n' then "\\n"
    else if c == '\r' then "\\r"
    else if c == '\t' then "\\t"
    else if IsPrintable(c) then [c]
    else if n < 0x10000 then UnicodeEscape(n)
    else UnicodeEscape(0xD800 + (n - 0x10000) / 1024) + UnicodeEscape(0xDC00 + (n - 0x10000) % 1024)
  }

  function Escape(s: string): string
    decreases |s|
  {
    if |s| == 0 then "" else EscapeChar(s[0]) + Escape(s[1..])
  }

  /** json.dumps of a string. */
  function Quote(s: string): string
  {
    "\"" + Escape(s) + "\""
  }

  function Serialize(v: Value): string
  {
    match v
    case Str(s) => Quote(s)
    case Int(n) => Decimal(n)
  }

  /** The members of an object in insertion order, joined by `", "`. */
  function Members(fields: seq<(string, Value)>): string
    decreases |fields|
  {
    if |fields| == 0 then ""
    else
      var member := Quote(fields[0].0) + ": " + Serialize(fields[0].1);
      if |fields| == 1 then member else member + ", " + Members(fields[1..])
  }

  /** json.dumps of a dict: `{` members `}`. */
  function SerializeObject(fields: seq<(string, Value)>): string
  {
    "{" + Members(fields) + "}"
  }

  lemma {:induction false} DecimalNatPrintable(n: nat)
    ensures AllPrintable(DecimalNat(n))
    decreases n
  {
    if n >= 10 {
      DecimalNatPrintable(n / 10);
    }
  }

  lemma EscapeCharPrintable(c: char)
    ensures AllPrintable(EscapeChar(c))
  {
  }

  lemma {:induction false} EscapePrintable(s: string)
    ensures AllPrintable(Escape(s))
    decreases |s|
  {
    if |s| > 0 {
      EscapeCharPrintable(s[0]);
      EscapePrintable(s[1..]);
    }
  }

  lemma SerializePrintable(v: Value)
    ensures AllPrintable(Serialize(v))
  {
    match v
    case Str(s) => EscapePrintable(s);
    case Int(n) => DecimalNatPrintable(if n < 0 then -n else n);
  }

  lemma PrintableConcat(a: string, b: string)
    requires AllPrintable(a) && AllPrintable(b)
    ensures AllPrintable(a + b)
  {
  }

  /** ensure_ascii output: every character of a serialized object lies between space and tilde. */
  lemma {:induction false} SerializeObjectPrintable(fields: seq<(string, Value)>)
    ensures AllPrintable(Members(fields))
    ensures AllPrintable(SerializeObject(fields))
    decreases |fields|
  {
    if |fields| > 0 {
      var key := Quote(fields[0].0);
      EscapePrintable(fields[0].0);
      PrintableConcat("\"", Escape(fields[0].0));
      PrintableConcat("\"" + Escape(fields[0].0), "\"");
      SerializePrintable(fields[0].1);
      PrintableConcat(key, ": ");
      PrintableConcat(key + ": ", Serialize(fields[0].1));
      var member := key + ": " + Serialize(fields[0].1);
      if |fields| > 1 {
        SerializeObjectPrintable(fields[1..]);
        PrintableConcat(member, ", ");
        PrintableConcat(member + ", ", Members(fields[1..]));
      }
    }
    PrintableConcat("{", Members(fields));
    PrintableConcat("{" + Members(fields), "}");
  }

  /** A string of printable characters other than `"` and `\` is written unchanged between quotes. */
  lemma {:induction false} EscapePlain(s: string)
    requires AllPrintable(s) && '"' !in s && '\\' !in s
    ensures Escape(s) == s
    decreases |s|
  {
    if |s| > 0 {
      EscapePlain(s[1..]);
      assert [s[0]] + s[1..] == s;
    }
  }

  lemma PrintableIsAscii(s: string)
    requires AllPrintable(s)
    ensures IsAscii(s)
  {
  }
}
