/** `urllib.parse.quote` with its default `safe='/'`: the text is encoded as
    UTF-8 and every byte outside the unreserved set of section 2.3 of RFC 3986
    (letters, digits, `-`, `.`, `_`, `~`) and other than `/` becomes a
    percent-encoded triplet `%XX` with upper-case hexadecimal digits
    (section 2.1 of RFC 3986).  Used for the map links of main.py, line 88. */
module PercentEncoding {
  import opened Wrappers

  type Byte = b: int | 0 <= b < 0x100

  // ---------------------------------------------------------------- UTF-8

  /** The UTF-8 encoding of one Unicode scalar value. */
  function Utf8Char(c: char): (bytes: seq<Byte>)
    ensures 1 <= |bytes| <= 4
  {
    var n := c as int;
    if n < 0x80 then [n]
    else if n < 0x800 then [0xC0 + n / 0x40, 0x80 + n % 0x40]
    else if n < 0x1_0000 then [0xE0 + n / 0x1000, 0x80 + n / 0x40 % 0x40, 0x80 + n % 0x40]
    else [0xF0 + n / 0x4_0000, 0x80 + n / 0x1000 % 0x40, 0x80 + n / 0x40 % 0x40, 0x80 + n % 0x40]
  }

  function Utf8Encode(s: string): seq<Byte>
  {
    if s == [] then [] else Utf8Char(s[0]) + Utf8Encode(s[1..])
  }

  predicate IsContinuation(b: Byte) {
    0x80 <= b < 0xC0
  }

  predicate IsScalar(n: int) {
    0 <= n < 0xD800 || 0xE000 <= n < 0x11_0000
  }

  /** Decodes the character at the front of `bs`, with the number of bytes it
      took; `None` for a malformed, overlong or surrogate sequence. */
  function DecodeChar(bs: seq<Byte>): (r: Option<(char, nat)>)
    requires |bs| > 0
    ensures r.Some? ==> 1 <= r.value.1 <= |bs|
  {
    var b0: int := bs[0];
    if b0 < 0x80 then Some((b0 as char, 1))
    else if 0xC0 <= b0 < 0xE0 then
      if |bs| >= 2 && IsContinuation(bs[1]) then
        var n := (b0 - 0xC0) * 0x40 + (bs[1] as int - 0x80);
        if 0x80 <= n then Some((n as char, 2)) else None
      else None
    else if 0xE0 <= b0 < 0xF0 then
      if |bs| >= 3 && IsContinuation(bs[1]) && IsContinuation(bs[2]) then
        var n := (b0 - 0xE0) * 0x1000 + (bs[1] as int - 0x80) * 0x40 + (bs[2] as int - 0x80);
        if 0x800 <= n && IsScalar(n) then Some((n as char, 3)) else None
      else None
    else if 0xF0 <= b0 < 0xF8 then
      if |bs| >= 4 && IsContinuation(bs[1]) && IsContinuation(bs[2]) && IsContinuation(bs[3]) then
        var n := (b0 - 0xF0) * 0x4_0000 + (bs[1] as int - 0x80) * 0x1000 + (bs[2] as int - 0x80) * 0x40 + (bs[3] as int - 0x80);
        if 0x1_0000 <= n < 0x11_0000 then Some((n as char, 4)) else None
      else None
    else None
  }

  /** Strict UTF-8 decoding. */
  function Utf8Decode(bs: seq<Byte>): Option<string>
    decreases |bs|
  {
    if bs == [] then Some([])
    else
      match DecodeChar(bs)
      case None => None
      case Some((c, k)) =>
        match Utf8Decode(bs[k..])
        case None => None
        case Some(rest) => Some([c] + rest)
  }

  lemma Split3(n: int)
    requires 0x800 <= n < 0x1_0000
    ensures n / 0x1000 * 0x1000 + n / 0x40 % 0x40 * 0x40 + n % 0x40 == n
  {
    assert n / 0x40 / 0x40 == n / 0x1000;
  }

  lemma Split4(n: int)
    requires 0x1_0000 <= n < 0x11_0000
    ensures n / 0x4_0000 * 0x4_0000 + n / 0x1000 % 0x40 * 0x1000 + n / 0x40 % 0x40 * 0x40 + n % 0x40 == n
  {
    assert n / 0x40 / 0x40 == n / 0x1000;
    assert n / 0x1000 / 0x40 == n / 0x4_0000;
  }

  lemma DecodeEncodedChar(c: char, rest: seq<Byte>)
    ensures DecodeChar(Utf8Char(c) + rest) == Some((c, |Utf8Char(c)|))
  {
    var n := c as int;
    var bs := Utf8Char(c) + rest;
    if n < 0x80 {
    } else if n < 0x800 {
      assert bs[0] == 0xC0 + n / 0x40 && bs[1] == 0x80 + n % 0x40;
    } else if n < 0x1_0000 {
      assert bs[0] == 0xE0 + n / 0x1000 && bs[1] == 0x80 + n / 0x40 % 0x40 && bs[2] == 0x80 + n % 0x40;
      Split3(n);
    } else {
      assert bs[0] == 0xF0 + n / 0x4_0000 && bs[1] == 0x80 + n / 0x1000 % 0x40;
      assert bs[2] == 0x80 + n / 0x40 % 0x40 && bs[3] == 0x80 + n % 0x40;
      Split4(n);
    }
  }

  /** Decoding the UTF-8 encoding of a string gives the string back. */
  lemma {:induction false} Utf8RoundTrip(s: string)
    ensures Utf8Decode(Utf8Encode(s)) == Some(s)
  {
    if s != [] {
      var head := Utf8Char(s[0]);
      var bs := Utf8Encode(s);
      DecodeEncodedChar(s[0], Utf8Encode(s[1..]));
      assert bs[|head|..] == Utf8Encode(s[1..]);
      Utf8RoundTrip(s[1..]);
      assert s == [s[0]] + s[1..];
    }
  }

  // ---------------------------------------------------- percent-encoding

  /** Section 2.3 of RFC 3986 (the bytes of ALPHA, DIGIT and `-._~`). */
  predicate IsUnreserved(b: Byte) {
    ('A' as int <= b <= 'Z' as int) || ('a' as int <= b <= 'z' as int)
    || ('0' as int <= b <= '9' as int)
    || b == '-' as int || b == '.' as int || b == '_' as int || b == '~' as int
  }

  /** The bytes `quote` leaves as they are: unreserved ones and `/`. */
  predicate IsSafe(b: Byte) {
    IsUnreserved(b) || b == '/' as int
  }

  predicate IsSafeChar(c: char) {
    c as int < 0x80 && IsSafe(c as int)
  }

  function HexDigit(d: int): (c: char)
    requires 0 <= d < 16
    ensures IsUpperHex(c) && HexValue(c) == Some(d)
  {
    if d < 10 then (('0' as int) + d) as char else (('A' as int) + d - 10) as char
  }

  predicate IsUpperHex(c: char) {
    '0' <= c <= '9' || 'A' <= c <= 'F'
  }

  /** A hexadecimal digit of either case. */
  function HexValue(c: char): (r: Option<int>)
    ensures r.Some? ==> 0 <= r.value < 16
  {
    if '0' <= c <= '9' then Some(c as int - '0' as int)
    else if 'A' <= c <= 'F' then Some(c as int - 'A' as int + 10)
    else if 'a' <= c <= 'f' then Some(c as int - 'a' as int + 10)
    else None
  }

  function QuoteByte(b: Byte): string
  {
    if IsSafe(b) then [b as char] else ['%', HexDigit(b / 16), HexDigit(b % 16)]
  }

  function QuoteBytes(bs: seq<Byte>): string
  {
    if bs == [] then [] else QuoteByte(bs[0]) + QuoteBytes(bs[1..])
  }

  /** `urllib.parse.quote(s)`. */
  function Quote(s: string): string
  {
    QuoteBytes(Utf8Encode(s))
  }

  /** Undoes percent-encoding: ASCII characters stand for themselves and a
      `%` must start a triplet.  Strict, unlike `urllib.parse.unquote`, which
      leaves a stray `%` in place and replaces undecodable bytes. */
  function PercentDecode(s: string): Option<seq<Byte>>
    decreases |s|
  {
    if s == [] then Some([])
    else if s[0] == '%' then
      if |s| >= 3 && HexValue(s[1]).Some? && HexValue(s[2]).Some? then
        match PercentDecode(s[3..])
        case None => None
        case Some(rest) => Some([HexValue(s[1]).value * 16 + HexValue(s[2]).value] + rest)
      else None
    else if s[0] as int < 0x80 then
      match PercentDecode(s[1..])
      case None => None
      case Some(rest) => Some([s[0] as int] + rest)
    else None
  }

  function Unquote(s: string): Option<string>
  {
    match PercentDecode(s)
    case None => None
    case Some(bs) => Utf8Decode(bs)
  }

  lemma {:induction false} PercentRoundTrip(bs: seq<Byte>)
    ensures PercentDecode(QuoteBytes(bs)) == Some(bs)
  {
    if bs != [] {
      var b := bs[0];
      var q := QuoteBytes(bs);
      PercentRoundTrip(bs[1..]);
      assert bs == [b] + bs[1..];
      if IsSafe(b) {
        assert q[0] == b as char && q[1..] == QuoteBytes(bs[1..]);
      } else {
        assert q[0] == '%' && q[1] == HexDigit(b / 16) && q[2] == HexDigit(b % 16);
        assert q[3..] == QuoteBytes(bs[1..]);
      }
    }
  }

  /** Unquoting a quoted string gives back the original string. */
  lemma QuoteRoundTrip(s: string)
    ensures Unquote(Quote(s)) == Some(s)
  {
    PercentRoundTrip(Utf8Encode(s));
    Utf8RoundTrip(s);
  }

  /** The shape of quoted text: safe characters and `%XX` triplets only. */
  predicate WellQuoted(t: string)
    decreases |t|
  {
    t == []
    || (IsSafeChar(t[0]) && WellQuoted(t[1..]))
    || (|t| >= 3 && t[0] == '%' && IsUpperHex(t[1]) && IsUpperHex(t[2]) && WellQuoted(t[3..]))
  }

  lemma {:induction false} QuoteBytesWellQuoted(bs: seq<Byte>)
    ensures WellQuoted(QuoteBytes(bs))
  {
    if bs != [] {
      var q := QuoteBytes(bs);
      QuoteBytesWellQuoted(bs[1..]);
      if IsSafe(bs[0]) {
        assert q[1..] == QuoteBytes(bs[1..]);
      } else {
        assert q[3..] == QuoteBytes(bs[1..]);
      }
    }
  }

  /** Quoted text consists of unreserved characters, `/` and `%XX` triplets. */
  lemma QuoteWellQuoted(s: string)
    ensures WellQuoted(Quote(s))
  {
    QuoteBytesWellQuoted(Utf8Encode(s));
  }

  lemma {:induction false} WellQuotedCharacters(t: string)
    requires WellQuoted(t)
    ensures forall i :: 0 <= i < |t| ==> IsSafeChar(t[i]) || t[i] == '%' || IsUpperHex(t[i])
    decreases |t|
  {
    if t != [] {
      if IsSafeChar(t[0]) && WellQuoted(t[1..]) {
        WellQuotedCharacters(t[1..]);
        assert forall i :: 1 <= i < |t| ==> t[i] == t[1..][i - 1];
      } else {
        WellQuotedCharacters(t[3..]);
        assert forall i :: 3 <= i < |t| ==> t[i] == t[3..][i - 3];
      }
    }
  }

  /** A quoted name never holds `&`, so it cannot run into the next query
      parameter of a URL. */
  lemma QuoteHasNoAmpersand(s: string)
    ensures '&' !in Quote(s)
  {
    QuoteWellQuoted(s);
    WellQuotedCharacters(Quote(s));
  }

  /** A name made only of safe ASCII characters is left unchanged. */
  lemma {:induction false} QuoteSafeIdentity(s: string)
    requires forall i :: 0 <= i < |s| ==> IsSafeChar(s[i])
    ensures Quote(s) == s
  {
    if s != [] {
      QuoteSafeIdentity(s[1..]);
      assert Utf8Encode(s) == [s[0] as int] + Utf8Encode(s[1..]);
      assert QuoteByte(s[0] as int) == [s[0]];
      assert Quote(s) == [s[0]] + QuoteBytes(Utf8Encode(s[1..]));
      assert s == [s[0]] + s[1..];
    }
  }
}
