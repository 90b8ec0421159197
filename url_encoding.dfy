/**
 * WebUtility.UrlEncode: the application/x-www-form-urlencoded byte serialiser applied
 * to the UTF-8 bytes of a string, together with the UTF-8 and form decoders that undo it.
 */
module UrlEncoding {
  import opened Wrappers
  import opened Strings

  newtype byte = x: int | 0 <= x < 256

  predicate IsContinuation(b: byte) { 0x80 <= b < 0xC0 }

  /** The UTF-8 encoding of one Unicode scalar value: 6 payload bits per continuation byte. */
  function CharToUtf8(c: char): (bs: seq<byte>)
    ensures 1 <= |bs| <= 4
  {
    var cp := c as int;
    var q1 := cp / 0x40;
    var q2 := q1 / 0x40;
    var q3 := q2 / 0x40;
    if cp < 0x80 then [cp as byte]
    else if cp < 0x800 then [(0xC0 + q1) as byte, (0x80 + cp % 0x40) as byte]
    else if cp < 0x10000 then
      [(0xE0 + q2) as byte, (0x80 + q1 % 0x40) as byte, (0x80 + cp % 0x40) as byte]
    else
      [(0xF0 + q3) as byte, (0x80 + q2 % 0x40) as byte, (0x80 + q1 % 0x40) as byte, (0x80 + cp % 0x40) as byte]
  }

  /** Encoding.UTF8.GetBytes. */
  function Utf8(s: string): seq<byte> {
    if s == [] then [] else CharToUtf8(s[0]) + Utf8(s[1..])
  }

  predicate IsScalar(cp: int) { 0 <= cp < 0xD800 || 0xE000 <= cp < 0x110000 }

  /** Decodes the scalar value at the front of bs and says how many bytes it took. */
  function DecodeChar(bs: seq<byte>): (r: Option<(char, nat)>)
    ensures r.Some? ==> 1 <= r.value.1 <= |bs|
  {
    if bs == [] then None
    else
      var b0 := bs[0] as int;
      if b0 < 0x80 then Some((b0 as char, 1))
      else if 0xC2 <= b0 < 0xE0 && |bs| >= 2 && IsContinuation(bs[1]) then
        Some((((b0 - 0xC0) * 0x40 + (bs[1] as int - 0x80)) as char, 2))
      else if 0xE0 <= b0 < 0xF0 && |bs| >= 3 && IsContinuation(bs[1]) && IsContinuation(bs[2]) then
        var cp := (b0 - 0xE0) * 0x1000 + (bs[1] as int - 0x80) * 0x40 + (bs[2] as int - 0x80);
        if 0x800 <= cp && IsScalar(cp) then Some((cp as char, 3)) else None
      else if 0xF0 <= b0 < 0xF5 && |bs| >= 4 && IsContinuation(bs[1]) && IsContinuation(bs[2]) && IsContinuation(bs[3]) then
        var cp := (b0 - 0xF0) * 0x40000 + (bs[1] as int - 0x80) * 0x1000 + (bs[2] as int - 0x80) * 0x40 + (bs[3] as int - 0x80);
        if 0x10000 <= cp < 0x110000 then Some((cp as char, 4)) else None
      else None
  }

  /** A strict UTF-8 decoder: None for any ill-formed byte sequence. */
  function Utf8Decode(bs: seq<byte>): Option<string>
    decreases |bs|
  {
    if bs == [] then Some([])
    else
      match DecodeChar(bs)
      case None => None
      case Some((c, n)) =>
        match Utf8Decode(bs[n..])
        case None => None
        case Some(s) => Some([c] + s)
  }

  lemma DecodeTwoBytes(c: char, rest: seq<byte>)
    requires 0x80 <= c as int < 0x800
    ensures DecodeChar(CharToUtf8(c) + rest) == Some((c, 2))
  {
    var cp := c as int;
    var bs := CharToUtf8(c) + rest;
    assert bs[0] as int == 0xC0 + cp / 0x40 && bs[1] as int == 0x80 + cp % 0x40;
  }

  lemma DecodeThreeBytes(c: char, rest: seq<byte>)
    requires 0x800 <= c as int < 0x10000
    ensures DecodeChar(CharToUtf8(c) + rest) == Some((c, 3))
  {
    var cp := c as int;
    var q1 := cp / 0x40;
    var q2 := q1 / 0x40;
    var bs := CharToUtf8(c) + rest;
    assert bs[0] as int == 0xE0 + q2 && bs[1] as int == 0x80 + q1 % 0x40 && bs[2] as int == 0x80 + cp % 0x40;
    assert q2 * 0x1000 + (q1 % 0x40) * 0x40 + cp % 0x40 == cp;
  }

  lemma DecodeFourBytes(c: char, rest: seq<byte>)
    requires 0x10000 <= c as int
    ensures DecodeChar(CharToUtf8(c) + rest) == Some((c, 4))
  {
    var cp := c as int;
    var q1 := cp / 0x40;
    var q2 := q1 / 0x40;
    var q3 := q2 / 0x40;
    var bs := CharToUtf8(c) + rest;
    assert bs[0] as int == 0xF0 + q3 && bs[1] as int == 0x80 + q2 % 0x40;
    assert bs[2] as int == 0x80 + q1 % 0x40 && bs[3] as int == 0x80 + cp % 0x40;
    assert q3 * 0x40000 + (q2 % 0x40) * 0x1000 + (q1 % 0x40) * 0x40 + cp % 0x40 == cp;
  }

  lemma DecodeCharOfEncoding(c: char, rest: seq<byte>)
    ensures DecodeChar(CharToUtf8(c) + rest) == Some((c, |CharToUtf8(c)|))
  {
    if c as int < 0x80 {
    } else if c as int < 0x800 {
      DecodeTwoBytes(c, rest);
    } else if c as int < 0x10000 {
      DecodeThreeBytes(c, rest);
    } else {
      DecodeFourBytes(c, rest);
    }
  }

  /** UTF-8 decoding undoes UTF-8 encoding. */
  lemma {:induction false} Utf8RoundTrip(s: string)
    ensures Utf8Decode(Utf8(s)) == Some(s)
  {
    if s != [] {
      var e := CharToUtf8(s[0]);
      DecodeCharOfEncoding(s[0], Utf8(s[1..]));
      assert (e + Utf8(s[1..]))[|e|..] == Utf8(s[1..]);
      Utf8RoundTrip(s[1..]);
      assert [s[0]] + s[1..] == s;
    }
  }

  /** The bytes WebUtility.UrlEncode leaves as they are: letters, digits and -_.!*() */
  predicate IsUrlSafe(b: byte) {
    ('a' as int <= b as int <= 'z' as int) || ('A' as int <= b as int <= 'Z' as int)
    || ('0' as int <= b as int <= '9' as int)
    || b as int == '-' as int || b as int == '_' as int || b as int == '.' as int
    || b as int == '!' as int || b as int == '*' as int || b as int == '(' as int || b as int == ')' as int
  }

  /** One byte of the form encoding: itself, '+' for a space, %XX otherwise. */
  function EncodeByte(b: byte): (e: string)
    ensures |e| == 1 || |e| == 3
  {
    if IsUrlSafe(b) then [b as int as char]
    else if b == 0x20 then "+"
    else ['%', HexDigit(b as int / 16), HexDigit(b as int % 16)]
  }

  function UrlEncodeBytes(bs: seq<byte>): string {
    if bs == [] then [] else EncodeByte(bs[0]) + UrlEncodeBytes(bs[1..])
  }

  /** WebUtility.UrlEncode. */
  function UrlEncode(s: string): (e: string)
    ensures UrlDecode(e) == Some(Utf8(s))
  {
    UrlDecodeEncodeBytes(Utf8(s));
    UrlEncodeBytes(Utf8(s))
  }

  /** The form decoder: '+' is a space, %XX a byte, any other ASCII character itself. */
  function UrlDecode(t: string): Option<seq<byte>>
    decreases |t|
  {
    if t == [] then Some([])
    else if t[0] == '+' then
      match UrlDecode(t[1..]) case None => None case Some(r) => Some([0x20 as byte] + r)
    else if t[0] == '%' then
      if |t| < 3 || HexValue(t[1]) < 0 || HexValue(t[2]) < 0 then None
      else
        match UrlDecode(t[3..])
        case None => None
        case Some(r) => Some([(HexValue(t[1]) * 16 + HexValue(t[2])) as byte] + r)
    else if t[0] as int < 0x80 then
      match UrlDecode(t[1..]) case None => None case Some(r) => Some([t[0] as int as byte] + r)
    else None
  }

  lemma DecodeEncodedByte(b: byte, rest: string)
    ensures UrlDecode(EncodeByte(b) + rest) == match UrlDecode(rest) case None => None case Some(r) => Some([b] + r)
  {
    var t := EncodeByte(b) + rest;
    if IsUrlSafe(b) {
      assert t[1..] == rest;
    } else if b == 0x20 {
      assert t[1..] == rest;
    } else {
      HexValueOfDigit(b as int / 16);
      HexValueOfDigit(b as int % 16);
      assert t[3..] == rest;
    }
  }

  /** Form-decoding the encoding of a byte string gives back those bytes. */
  lemma {:induction false} UrlDecodeEncodeBytes(bs: seq<byte>)
    ensures UrlDecode(UrlEncodeBytes(bs)) == Some(bs)
  {
    if bs != [] {
      DecodeEncodedByte(bs[0], UrlEncodeBytes(bs[1..]));
      UrlDecodeEncodeBytes(bs[1..]);
      assert [bs[0]] + bs[1..] == bs;
    }
  }

  /** Decoding an encoded component recovers the original string exactly. */
  lemma UrlRoundTrip(s: string)
    ensures UrlDecode(UrlEncode(s)) == Some(Utf8(s))
    ensures Utf8Decode(UrlDecode(UrlEncode(s)).value) == Some(s)
  {
    UrlDecodeEncodeBytes(Utf8(s));
    Utf8RoundTrip(s);
  }

  /** The characters an encoding can contain: safe characters, '+', '%' and hex digits. */
  predicate IsEncodedChar(c: char) {
    ('a' <= c <= 'z') || ('A' <= c <= 'Z') || ('0' <= c <= '9')
    || c == '-' || c == '_' || c == '.' || c == '!' || c == '*' || c == '(' || c == ')'
    || c == '+' || c == '%'
  }

  lemma {:induction false} EncodedChars(bs: seq<byte>)
    ensures forall i :: 0 <= i < |UrlEncodeBytes(bs)| ==> IsEncodedChar(UrlEncodeBytes(bs)[i])
  {
    if bs != [] {
      EncodedChars(bs[1..]);
      var e := EncodeByte(bs[0]);
      assert forall i :: 0 <= i < |e| ==> IsEncodedChar(e[i]);
      assert UrlEncodeBytes(bs) == e + UrlEncodeBytes(bs[1..]);
    }
  }

  /** An encoded component never holds the separators '&', '=' or '?'. */
  lemma NoSeparators(s: string)
    ensures '&' !in UrlEncode(s) && '=' !in UrlEncode(s) && '?' !in UrlEncode(s)
  {
    EncodedChars(Utf8(s));
  }
}
