/**
 * The JSON document model (RFC 8259) and JSON string literals: the escaping that
 * System.Text.Json's default encoder applies when it writes a string, and the
 * string-literal reader of RFC 8259 section 7 that JsonSerializer.Deserialize<String> applies.
 */
module Json {
  import opened Wrappers
  import opened Strings

  /** A JSON document. A number is kept as its exact value. */
  datatype Json =
    | JNull
    | JBool(b: bool)
    | JNum(n: real)
    | JStr(s: string)
    | JArr(elems: seq<Json>)
    | JObj(members: seq<(string, Json)>)

  const Backspace: char := 8 as char
  const FormFeed: char := 12 as char

  /** Characters the default (HTML-safe) encoder writes as \u escapes although they are printable ASCII. */
  predicate IsHtmlSensitive(c: char) {
    c == '"' || c == '&' || c == '\'' || c == '+' || c == '<' || c == '>' || c == '`'
  }

  /** Four upper-case hex digits of a UTF-16 code unit, most significant first. */
  function Hex4(u: nat): (h: string)
    requires u < 0x10000
    ensures |h| == 4
  {
    var q1 := u / 16;
    var q2 := q1 / 16;
    var q3 := q2 / 16;
    [HexDigit(q3), HexDigit(q2 % 16), HexDigit(q1 % 16), HexDigit(u % 16)]
  }

  /** The code unit written by four hex digits, or -1 when one of them is not a hex digit. */
  function ParseHex4(h: string): (u: int)
    requires |h| == 4
    ensures -1 <= u < 0x10000
  {
    var d0, d1, d2, d3 := HexValue(h[0]), HexValue(h[1]), HexValue(h[2]), HexValue(h[3]);
    if d0 < 0 || d1 < 0 || d2 < 0 || d3 < 0 then -1
    else ((d0 * 16 + d1) * 16 + d2) * 16 + d3
  }

  lemma ParseHex4OfHex4(u: nat)
    requires u < 0x10000
    ensures ParseHex4(Hex4(u)) == u
  {
    var q1 := u / 16;
    var q2 := q1 / 16;
    var q3 := q2 / 16;
    HexValueOfDigit(q3);
    HexValueOfDigit(q2 % 16);
    HexValueOfDigit(q1 % 16);
    HexValueOfDigit(u % 16);
    assert q3 * 16 + q2 % 16 == q2;
    assert q2 * 16 + q1 % 16 == q1;
    assert q1 * 16 + u % 16 == u;
  }

  function UnitEscape(u: nat): (e: string)
    requires u < 0x10000
    ensures |e| == 6
  {
    "\\u" + Hex4(u)
  }

  predicate IsHighSurrogate(u: int) { 0xD800 <= u < 0xDC00 }
  predicate IsLowSurrogate(u: int) { 0xDC00 <= u < 0xE000 }

  /** The character a UTF-16 surrogate pair stands for. */
  function CombineSurrogates(hi: int, lo: int): char
    requires IsHighSurrogate(hi) && IsLowSurrogate(lo)
  {
    (0x10000 + (hi - 0xD800) * 0x400 + (lo - 0xDC00)) as char
  }

  /** How the default encoder writes one character inside a string literal. */
  function EscapeChar(c: char): (e: string)
    ensures |e| > 0
  {
    if c == '\\' then "\\\\"
    else if c == Backspace then "\\b"
    else if c == '\t' then "\\t"
    else if c == '\n' then "\\n"
    else if c == FormFeed then "\\f"
    else if c == '\r' then "\\r"
    else if c < ' ' || IsHtmlSensitive(c) || c as int == 0x7F then UnitEscape(c as int)
    else if c as int < 0x7F then [c]
    else if c as int < 0x10000 then UnitEscape(c as int)
    else
      UnitEscape(0xD800 + (c as int - 0x10000) / 0x400) + UnitEscape(0xDC00 + (c as int - 0x10000) % 0x400)
  }

  function EscapeString(s: string): string {
    if s == [] then [] else EscapeChar(s[0]) + EscapeString(s[1..])
  }

  /** The JSON text JsonSerializer.Serialize writes for a string. */
  function Quote(s: string): (json: string)
    ensures |json| >= 2 && json[0] == '"' && json[|json| - 1] == '"'
  {
    "\"" + EscapeString(s) + "\""
  }

  function Prepend(c: char, rest: Option<string>): Option<string> {
    match rest
    case None => None
    case Some(r) => Some([c] + r)
  }

  /** The character a one-letter escape stands for, or None when the letter is not one. */
  function ShortEscape(c: char): Option<char> {
    if c == '"' then Some('"')
    else if c == '\\' then Some('\\')
    else if c == '/' then Some('/')
    else if c == 'b' then Some(Backspace)
    else if c == 'f' then Some(FormFeed)
    else if c == 'n' then Some('\n')
    else if c == 'r' then Some('\r')
    else if c == 't' then Some('\t')
    else None
  }

  /**
   * Reads the rest of a string literal after its opening quote (RFC 8259 section 7).
   * The literal must end exactly at the last character of t: the reader refuses
   * unescaped control characters, unknown escapes, unpaired surrogates and
   * anything after the closing quote.
   */
  function ParseStringBody(t: string): Option<string>
    decreases |t|
  {
    if t == [] then None
    else if t[0] == '"' then (if |t| == 1 then Some([]) else None)
    else if t[0] == '\\' then
      if |t| < 2 then None
      else if t[1] == 'u' then
        if |t| < 6 then None
        else
          var u := ParseHex4(t[2..6]);
          if u < 0 || IsLowSurrogate(u) then None
          else if IsHighSurrogate(u) then
            if |t| < 12 || t[6] != '\\' || t[7] != 'u' then None
            else
              var l := ParseHex4(t[8..12]);
              if IsLowSurrogate(l) then Prepend(CombineSurrogates(u, l), ParseStringBody(t[12..]))
              else None
          else Prepend(u as char, ParseStringBody(t[6..]))
      else
        match ShortEscape(t[1])
        case None => None
        case Some(c) => Prepend(c, ParseStringBody(t[2..]))
    else if t[0] < ' ' then None
    else Prepend(t[0], ParseStringBody(t[1..]))
  }

  /** JsonSerializer.Deserialize<String> of a JSON text that is one string literal. */
  function Unquote(json: string): (r: Option<string>)
    ensures r.Some? ==> |json| >= 2 && json[0] == '"' && json[|json| - 1] == '"'
  {
    if json == [] || json[0] != '"' then None
    else
      BodyEndsWithQuote(json[1..]);
      ParseStringBody(json[1..])
  }

  /** A string-literal body the reader accepts ends with the closing quote. */
  lemma {:induction false} BodyEndsWithQuote(t: string)
    ensures ParseStringBody(t).Some? ==> t != [] && t[|t| - 1] == '"'
    decreases |t|
  {
    if t != [] && t[0] != '"' {
      if t[0] == '\\' && |t| >= 2 && t[1] == 'u' && |t| >= 6 {
        if |t| >= 12 {
          BodyEndsWithQuote(t[12..]);
        }
        BodyEndsWithQuote(t[6..]);
      } else if t[0] == '\\' && |t| >= 2 {
        BodyEndsWithQuote(t[2..]);
      } else {
        BodyEndsWithQuote(t[1..]);
      }
    }
  }

  lemma EscapeOneUnit(u: nat, rest: string)
    requires u < 0x10000 && !IsHighSurrogate(u) && !IsLowSurrogate(u)
    ensures ParseStringBody(UnitEscape(u) + rest) == Prepend(u as char, ParseStringBody(rest))
  {
    var t := UnitEscape(u) + rest;
    assert t[2..6] == Hex4(u);
    ParseHex4OfHex4(u);
    assert t[6..] == rest;
  }

  /** Two \u escapes that form a surrogate pair are read back as the character they combine to. */
  lemma ReadSurrogatePair(hi: nat, lo: nat, rest: string)
    requires IsHighSurrogate(hi) && IsLowSurrogate(lo)
    ensures ParseStringBody(UnitEscape(hi) + UnitEscape(lo) + rest)
            == Prepend(CombineSurrogates(hi, lo), ParseStringBody(rest))
  {
    var t := UnitEscape(hi) + UnitEscape(lo) + rest;
    assert t[..2] == "\\u" && t[6..8] == "\\u";
    assert t[2..6] == Hex4(hi);
    assert t[8..12] == Hex4(lo);
    ParseHex4OfHex4(hi);
    ParseHex4OfHex4(lo);
    assert t[12..] == rest;
  }

  /** The pair the encoder writes for a character outside the Basic Multilingual Plane combines back to it. */
  lemma SurrogatesOf(c: char)
    requires c as int >= 0x10000
    ensures IsHighSurrogate(0xD800 + (c as int - 0x10000) / 0x400)
    ensures IsLowSurrogate(0xDC00 + (c as int - 0x10000) % 0x400)
    ensures CombineSurrogates(0xD800 + (c as int - 0x10000) / 0x400, 0xDC00 + (c as int - 0x10000) % 0x400) == c
  {
    var v := c as int - 0x10000;
    assert v / 0x400 * 0x400 + v % 0x400 == v;
  }

  /** A character outside the Basic Multilingual Plane is written as its surrogate pair. */
  lemma EscapeAstral(c: char, hi: nat, lo: nat)
    requires c as int >= 0x10000
    requires hi == 0xD800 + (c as int - 0x10000) / 0x400 && lo == 0xDC00 + (c as int - 0x10000) % 0x400
    ensures hi < 0x10000 && lo < 0x10000 && EscapeChar(c) == UnitEscape(hi) + UnitEscape(lo)
  {
  }

  lemma EscapeSurrogatePair(c: char, rest: string)
    requires c as int >= 0x10000
    ensures ParseStringBody(EscapeChar(c) + rest) == Prepend(c, ParseStringBody(rest))
  {
    var v := c as int - 0x10000;
    var hi, lo := 0xD800 + v / 0x400, 0xDC00 + v % 0x400;
    SurrogatesOf(c);
    EscapeAstral(c, hi, lo);
    ReadSurrogatePair(hi, lo, rest);
  }

  /** Reading back one escaped character yields that character. */
  lemma EscapeCharReads(c: char, rest: string)
    ensures ParseStringBody(EscapeChar(c) + rest) == Prepend(c, ParseStringBody(rest))
  {
    var t := EscapeChar(c) + rest;
    if c == '\\' || c == Backspace || c == '\t' || c == '\n' || c == FormFeed || c == '\r' {
      assert t[2..] == rest;
    } else if c < ' ' || IsHtmlSensitive(c) || c as int == 0x7F {
      EscapeOneUnit(c as int, rest);
    } else if c as int < 0x7F {
      assert t[1..] == rest;
    } else if c as int < 0x10000 {
      EscapeOneUnit(c as int, rest);
    } else {
      EscapeSurrogatePair(c, rest);
    }
  }

  lemma {:induction false} EscapeStringReads(s: string)
    ensures ParseStringBody(EscapeString(s) + "\"") == Some(s)
  {
    if s != [] {
      assert EscapeString(s) + "\"" == EscapeChar(s[0]) + (EscapeString(s[1..]) + "\"");
      EscapeCharReads(s[0], EscapeString(s[1..]) + "\"");
      EscapeStringReads(s[1..]);
      assert [s[0]] + s[1..] == s;
    }
  }

  /** Unquoting the serialised form of any string gives back that string. */
  lemma UnquoteQuote(s: string)
    ensures Unquote(Quote(s)) == Some(s)
  {
    assert Quote(s)[1..] == EscapeString(s) + "\"";
    EscapeStringReads(s);
  }
}
