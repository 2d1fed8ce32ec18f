/**
 The compact JSON text that is hashed for each audit row: an array of strings
 written with ASCII-only escapes, and a reader for the grammar of section 7 of
 RFC 8259 that inverts it.

 A Dafny `char` is a Unicode scalar value, so lone surrogates cannot occur.
 */
module Json {
  import opened Wrappers

  // ----- Writing ---------------------------------------------------------

  function HexDigit(n: nat): char
    requires n < 16
  {
    if n < 10 then ('0' as int + n) as char else ('a' as int + (n - 10)) as char
  }

  function Hex4(n: nat): (r: string)
    requires n < 0x10000
    ensures |r| == 4
  {
    [HexDigit(n / 4096), HexDigit(n / 256 % 16), HexDigit(n / 16 % 16), HexDigit(n % 16)]
  }

  /** The UTF-16 pair of a character outside the basic plane. */
  function HighUnit(c: char): nat
    requires c as int >= 0x10000
  {
    0xD800 + (c as int - 0x10000) / 1024
  }

  function LowUnit(c: char): nat
    requires c as int >= 0x10000
  {
    0xDC00 + (c as int - 0x10000) % 1024
  }

  /** One character as Python's ASCII-only JSON encoder writes it. */
  function EscapeChar(c: char): string
  {
    if c == '"' then "\\\""
    else if c == '\\' then "\\\\"
    else if c == '\n' then "\\n"
    else if c == '\r' then "\\r"
    else if c == '\t' then "\\t"
    else if c == '\U{000C}' then "\\f"
    else if c == '\U{0008}' then "\\b"
    else if ' ' <= c <= '~' then [c]
    else if c as int < 0x10000 then "\\u" + Hex4(c as int)
    else "\\u" + Hex4(HighUnit(c)) + "\\u" + Hex4(LowUnit(c))
  }

  /** Characters with a two-character escape. */
  const SHORT_ESCAPES := {'"', '\\', '\n', '\r', '\t', '\U{000C}', '\U{0008}'}

  predicate LowerHex(s: string)
  {
    forall i :: 0 <= i < |s| ==> '0' <= s[i] <= '9' || 'a' <= s[i] <= 'f'
  }

  /** `\u` and four lower-case hex digits. */
  predicate UnicodeEscape(s: string)
  {
    |s| == 6 && s[..2] == "\\u" && LowerHex(s[2..])
  }

  /**
   Which form is used: a printable ASCII character stands for itself, seven
   characters have a short escape, and all others are one or two `\u` escapes.
   */
  lemma EscapeShape(c: char)
    ensures EscapeChar(c) == [c] <==> ' ' <= c <= '~' && c !in SHORT_ESCAPES
    ensures c in SHORT_ESCAPES <==> |EscapeChar(c)| == 2 && EscapeChar(c)[0] == '\\'
    ensures !(' ' <= c <= '~') && c !in SHORT_ESCAPES && c as int < 0x10000 ==> UnicodeEscape(EscapeChar(c))
    ensures 0x10000 <= c as int ==>
      |EscapeChar(c)| == 12 && UnicodeEscape(EscapeChar(c)[..6]) && UnicodeEscape(EscapeChar(c)[6..])
  {
    if 0x10000 <= c as int {
      UnitsRecombine(c);
      Hex4Lower(HighUnit(c));
      Hex4Lower(LowUnit(c));
      assert EscapeChar(c)[..6] == "\\u" + Hex4(HighUnit(c));
      assert EscapeChar(c)[6..] == "\\u" + Hex4(LowUnit(c));
    } else {
      Hex4Lower(c as int);
    }
  }

  lemma Hex4Lower(n: nat)
    requires n < 0x10000
    ensures UnicodeEscape("\\u" + Hex4(n))
  {
    Hex4Digits(n);
    HexDigitInverts(n / 4096);
    HexDigitInverts(n / 256 % 16);
    HexDigitInverts(n / 16 % 16);
    HexDigitInverts(n % 16);
  }

  function EscapeBody(s: string): string
  {
    if s == [] then [] else EscapeChar(s[0]) + EscapeBody(s[1..])
  }

  function Quote(s: string): string
  {
    "\"" + EscapeBody(s) + "\""
  }

  /** Elements after the opening bracket, up to and including the closing one. */
  function EncodeTail(fields: seq<string>): string
    requires fields != []
  {
    if |fields| == 1 then Quote(fields[0]) + "]"
    else Quote(fields[0]) + "," + EncodeTail(fields[1..])
  }

  /** `json.dumps(fields, separators=(",", ":"))`. */
  function EncodeArray(fields: seq<string>): string
  {
    if fields == [] then "[]" else "[" + EncodeTail(fields)
  }

  // ----- Reading ---------------------------------------------------------

  function HexValue(c: char): Option<nat>
  {
    if '0' <= c <= '9' then Some(c as int - '0' as int)
    else if 'a' <= c <= 'f' then Some(c as int - 'a' as int + 10)
    else if 'A' <= c <= 'F' then Some(c as int - 'A' as int + 10)
    else None
  }

  /** Value of the four hex digits that start `s`. */
  function ReadHex4(s: string): (r: Option<nat>)
    ensures r.Some? ==> r.value < 0x10000 && 4 <= |s|
  {
    if |s| < 4 then None
    else
      match (HexValue(s[0]), HexValue(s[1]), HexValue(s[2]), HexValue(s[3]))
      case (Some(a), Some(b), Some(c), Some(d)) =>
        if a < 16 && b < 16 && c < 16 && d < 16 then Some(4096 * a + 256 * b + 16 * c + d) else None
      case _ => None
  }

  function ReadUnicodeEscape(s: string): (r: Option<(char, string)>)
    ensures r.Some? ==> |r.value.1| < |s|
  {
    match ReadHex4(s)
    case None => None
    case Some(u) =>
      if u < 0xD800 || 0xE000 <= u then Some((u as char, s[4..]))
      else if u < 0xDC00 && 6 <= |s| && s[4] == '\\' && s[5] == 'u' then
        match ReadHex4(s[6..])
        case Some(w) =>
          if 0xDC00 <= w < 0xE000 then
            Some(((0x10000 + 1024 * (u - 0xD800) + (w - 0xDC00)) as char, s[10..]))
          else None
        case None => None
      else None
  }

  /** Reads one character of a string body, escaped or not. */
  function ReadChar(s: string): (r: Option<(char, string)>)
    ensures r.Some? ==> |r.value.1| < |s|
  {
    if s == [] || s[0] == '"' || s[0] < ' ' then None
    else if s[0] != '\\' then Some((s[0], s[1..]))
    else if |s| < 2 then None
    else if s[1] == 'u' then ReadUnicodeEscape(s[2..])
    else if s[1] == '"' || s[1] == '\\' || s[1] == '/' then Some((s[1], s[2..]))
    else if s[1] == 'n' then Some(('\n', s[2..]))
    else if s[1] == 'r' then Some(('\r', s[2..]))
    else if s[1] == 't' then Some(('\t', s[2..]))
    else if s[1] == 'f' then Some(('\U{000C}', s[2..]))
    else if s[1] == 'b' then Some(('\U{0008}', s[2..]))
    else None
  }

  /** Reads a string body through its closing quote; also returns what follows. */
  function ReadBody(s: string): (r: Option<(string, string)>)
    ensures r.Some? ==> |r.value.1| < |s|
    decreases |s|
  {
    if s == [] then None
    else if s[0] == '"' then Some(([], s[1..]))
    else
      match ReadChar(s)
      case None => None
      case Some((c, rest)) =>
        match ReadBody(rest)
        case None => None
        case Some((body, after)) => Some(([c] + body, after))
  }

  function DecodeTail(s: string): Option<seq<string>>
    decreases |s|
  {
    if s == [] || s[0] != '"' then None
    else
      match ReadBody(s[1..])
      case None => None
      case Some((body, after)) =>
        if after == "]" then Some([body])
        else if after != [] && after[0] == ',' then
          match DecodeTail(after[1..])
          case None => None
          case Some(rest) => Some([body] + rest)
        else None
  }

  /** Parses a compact JSON array of strings. */
  function DecodeArray(s: string): Option<seq<string>>
  {
    if s == "[]" then Some([])
    else if s != [] && s[0] == '[' then DecodeTail(s[1..])
    else None
  }

  // ----- The reader inverts the writer -----------------------------------

  lemma HexDigitInverts(n: nat)
    requires n < 16
    ensures HexValue(HexDigit(n)) == Some(n)
    ensures '0' <= HexDigit(n) <= '9' || 'a' <= HexDigit(n) <= 'f'
  {
  }

  lemma Hex4Digits(n: nat)
    requires n < 0x10000
    ensures n / 4096 < 16
    ensures n == 4096 * (n / 4096) + 256 * (n / 256 % 16) + 16 * (n / 16 % 16) + n % 16
  {
    assert n / 16 == 16 * (n / 256) + n / 16 % 16;
    assert n / 256 == 16 * (n / 4096) + n / 256 % 16;
  }

  lemma Hex4Inverts(n: nat, rest: string)
    requires n < 0x10000
    ensures ReadHex4(Hex4(n) + rest) == Some(n)
  {
    Hex4Digits(n);
    var a, b, c, d := n / 4096, n / 256 % 16, n / 16 % 16, n % 16;
    HexDigitInverts(a);
    HexDigitInverts(b);
    HexDigitInverts(c);
    HexDigitInverts(d);
    ReadHex4Digits(a, b, c, d, rest);
  }

  lemma ReadHex4Digits(a: nat, b: nat, c: nat, d: nat, rest: string)
    requires a < 16 && b < 16 && c < 16 && d < 16
    ensures ReadHex4([HexDigit(a), HexDigit(b), HexDigit(c), HexDigit(d)] + rest)
         == Some(4096 * a + 256 * b + 16 * c + d)
  {
  }

  lemma UnicodeEscapeInverts(c: char, rest: string)
    requires c as int < 0x10000
    ensures ReadChar("\\u" + Hex4(c as int) + rest) == Some((c, rest))
  {
    var s := "\\u" + Hex4(c as int) + rest;
    var t := Hex4(c as int) + rest;
    assert s[2..] == t;
    Hex4Inverts(c as int, rest);
    assert t[4..] == rest;
  }

  lemma PairOfUnitsReads(hi: string, lo: string, u: nat, w: nat, rest: string)
    requires |hi| == 4 && 0xD800 <= u < 0xDC00 && 0xDC00 <= w < 0xE000
    requires |lo| == 4
    requires ReadHex4(hi + ("\\u" + (lo + rest))) == Some(u)
    requires ReadHex4(lo + rest) == Some(w)
    ensures ReadUnicodeEscape(hi + ("\\u" + (lo + rest)))
         == Some(((0x10000 + 1024 * (u - 0xD800) + (w - 0xDC00)) as char, rest))
  {
    var t := hi + ("\\u" + (lo + rest));
    assert t[4] == '\\' && t[5] == 'u';
    assert t[6..] == lo + rest;
    assert t[10..] == rest;
  }

  lemma UnitsRecombine(c: char)
    requires c as int >= 0x10000
    ensures 0xD800 <= HighUnit(c) < 0xDC00 && 0xDC00 <= LowUnit(c) < 0xE000
    ensures 0x10000 + 1024 * (HighUnit(c) - 0xD800) + (LowUnit(c) - 0xDC00) == c as int
  {
  }

  lemma ReadCharOfUnicodeEscape(t: string)
    ensures ReadChar("\\u" + t) == ReadUnicodeEscape(t)
  {
  }

  lemma SurrogatePairInverts(c: char, rest: string)
    requires c as int >= 0x10000
    ensures ReadChar(EscapeChar(c) + rest) == Some((c, rest))
  {
    var u, w := HighUnit(c), LowUnit(c);
    UnitsRecombine(c);
    var hi, lo := Hex4(u), Hex4(w);
    Hex4Inverts(u, "\\u" + (lo + rest));
    Hex4Inverts(w, rest);
    PairOfUnitsReads(hi, lo, u, w, rest);
    var t := hi + ("\\u" + (lo + rest));
    ReadCharOfUnicodeEscape(t);
    assert EscapeChar(c) + rest == "\\u" + t;
  }

  /** Single-letter escapes and characters that stand for themselves. */
  predicate Short(c: char)
  {
    ' ' <= c <= '~' || c in "\n\r\t\U{000C}\U{0008}"
  }

  lemma ShortEscapeInverts(c: char, rest: string)
    requires Short(c)
    ensures ReadChar(EscapeChar(c) + rest) == Some((c, rest))
  {
  }

  lemma EscapeCharInverts(c: char, rest: string)
    ensures EscapeChar(c) != [] && EscapeChar(c)[0] != '"'
    ensures ReadChar(EscapeChar(c) + rest) == Some((c, rest))
  {
    if Short(c) {
      ShortEscapeInverts(c, rest);
    } else if c as int < 0x10000 {
      UnicodeEscapeInverts(c, rest);
    } else {
      SurrogatePairInverts(c, rest);
    }
  }

  lemma ReadBodyStep(text: string, c: char, rest: string)
    requires text != [] && text[0] != '"' && ReadChar(text) == Some((c, rest)) && ReadBody(rest).Some?
    ensures ReadBody(text) == Some(([c] + ReadBody(rest).value.0, ReadBody(rest).value.1))
  {
  }

  lemma {:induction false} EscapeBodyInverts(s: string, rest: string)
    ensures ReadBody(EscapeBody(s) + "\"" + rest) == Some((s, rest))
  {
    var text := EscapeBody(s) + "\"" + rest;
    if s == [] {
      assert text[1..] == rest;
    } else {
      var first, tail := EscapeChar(s[0]), EscapeBody(s[1..]) + "\"" + rest;
      EscapeBodyInverts(s[1..], rest);
      EscapeCharInverts(s[0], tail);
      assert (first + tail)[0] == first[0];
      ReadBodyStep(first + tail, s[0], tail);
      assert text == first + tail;
      assert s == [s[0]] + s[1..];
    }
  }

  lemma AfterQuote(body: string, rest: string)
    ensures var text := "\"" + body + "\"" + rest; text[0] == '"' && text[1..] == body + "\"" + rest
  {
  }

  lemma DecodeTailLast(field: string)
    ensures DecodeTail(Quote(field) + "]") == Some([field])
  {
    AfterQuote(EscapeBody(field), "]");
    EscapeBodyInverts(field, "]");
  }

  lemma DecodeTailReads(text: string, body: string, rest: string)
    requires text != [] && text[0] == '"' && ReadBody(text[1..]) == Some((body, "," + rest)) && DecodeTail(rest).Some?
    ensures DecodeTail(text) == Some([body] + DecodeTail(rest).value)
  {
    assert ("," + rest)[1..] == rest;
  }

  lemma DecodeTailStep(field: string, rest: string)
    requires DecodeTail(rest).Some?
    ensures DecodeTail(Quote(field) + ("," + rest)) == Some([field] + DecodeTail(rest).value)
  {
    AfterQuote(EscapeBody(field), "," + rest);
    EscapeBodyInverts(field, "," + rest);
    DecodeTailReads(Quote(field) + ("," + rest), field, rest);
  }

  lemma {:induction false} EncodeTailInverts(fields: seq<string>)
    requires fields != []
    ensures DecodeTail(EncodeTail(fields)) == Some(fields)
  {
    if |fields| == 1 {
      DecodeTailLast(fields[0]);
      assert fields == [fields[0]];
    } else {
      EncodeTailInverts(fields[1..]);
      DecodeTailStep(fields[0], EncodeTail(fields[1..]));
      assert EncodeTail(fields) == Quote(fields[0]) + ("," + EncodeTail(fields[1..]));
      assert fields == [fields[0]] + fields[1..];
    }
  }

  /** Every array of strings is read back exactly from its JSON text. */
  lemma DecodeEncode(fields: seq<string>)
    ensures DecodeArray(EncodeArray(fields)) == Some(fields)
  {
    if fields != [] {
      var text := EncodeArray(fields);
      assert text[0] == '[' && text[1..] == EncodeTail(fields);
      assert |text| > 2;
      EncodeTailInverts(fields);
    }
  }

  /** Hence two arrays with the same text are the same array. */
  lemma EncodeInjective(a: seq<string>, b: seq<string>)
    requires EncodeArray(a) == EncodeArray(b)
    ensures a == b
  {
    DecodeEncode(a);
    DecodeEncode(b);
  }

  /** Printable ASCII, which UTF-8 encodes as itself. */
  predicate Ascii(s: string)
  {
    forall i :: 0 <= i < |s| ==> ' ' <= s[i] <= '~'
  }

  lemma EscapeCharIsAscii(c: char)
    ensures Ascii(EscapeChar(c))
  {
  }

  lemma AsciiConcat(s: string, t: string)
    requires Ascii(s) && Ascii(t)
    ensures Ascii(s + t)
  {
  }

  lemma {:induction false} BodyIsAscii(s: string)
    ensures Ascii(EscapeBody(s))
  {
    if s != [] {
      EscapeCharIsAscii(s[0]);
      BodyIsAscii(s[1..]);
      AsciiConcat(EscapeChar(s[0]), EscapeBody(s[1..]));
    }
  }

  lemma {:induction false} TailIsAscii(fields: seq<string>)
    requires fields != []
    ensures Ascii(EncodeTail(fields))
  {
    BodyIsAscii(fields[0]);
    if |fields| > 1 {
      TailIsAscii(fields[1..]);
    }
  }

  /** The text is pure ASCII, so encoding it as UTF-8 changes nothing. */
  lemma EncodeIsAscii(fields: seq<string>)
    ensures Ascii(EncodeArray(fields))
  {
    if fields != [] {
      TailIsAscii(fields);
    }
  }
}
