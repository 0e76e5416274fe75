/** The two string built-ins `fnv1a` (src/hash.ts:18) applies to the first
    code unit above 0x7F: `encodeURIComponent` (section 19.2.6.5 of
    ECMA-262) and the legacy `unescape` (section B.2.1.2 of ECMA-262).
    A JavaScript string is a sequence of UTF-16 code units; a Dafny
    `string` is a sequence of code points, read as its code units. */
module Uri {
  /** A byte of a UTF-8 encoding. */
  type Byte = b: int | 0 <= b < 0x100

  /** A UTF-16 code unit: one element of a JavaScript string. */
  type CodeUnit = u: int | 0 <= u < 0x1_0000

  /** The UTF-16 code units of one code point: itself in the Basic
      Multilingual Plane, a surrogate pair above it. */
  function CodeUnits(c: char): (r: seq<CodeUnit>)
    ensures |r| == (if c as int < 0x1_0000 then 1 else 2)
    ensures r[0] == (if c as int < 0x1_0000 then c as int else 0xD800 + (c as int - 0x1_0000) / 0x400)
  {
    var n := c as int;
    if n < 0x1_0000 then [n]
    else [0xD800 + (n - 0x1_0000) / 0x400, 0xDC00 + (n - 0x1_0000) % 0x400]
  }

  /** A Dafny string as the JavaScript string of its code units. */
  function Utf16(s: string): seq<CodeUnit>
    decreases |s|
  {
    if s == [] then [] else CodeUnits(s[0]) + Utf16(s[1..])
  }

  /** The characters `encodeURIComponent` copies unchanged: letters,
      digits and `-_.!~*'()`. */
  predicate Unreserved(c: char) {
    ('A' <= c <= 'Z') || ('a' <= c <= 'z') || ('0' <= c <= '9') ||
    c == '-' || c == '_' || c == '.' || c == '!' || c == '~' || c == '*' ||
    c == '\'' || c == '(' || c == ')'
  }

  /** The UTF-8 encoding of one code point (section 19.2.6.1.1 of
      ECMA-262): one byte below 0x80, then two, three or four. */
  function Utf8(c: char): (r: seq<Byte>)
    ensures 1 <= |r| <= 4
    ensures |r| == 1 <==> c as int < 0x80
    ensures |r| == 1 ==> r[0] == c as int
  {
    var n := c as int;
    if n < 0x80 then [n]
    else if n < 0x800 then [0xC0 + n / 0x40, 0x80 + n % 0x40]
    else if n < 0x1_0000 then [0xE0 + n / 0x1000, 0x80 + (n / 0x40) % 0x40, 0x80 + n % 0x40]
    else [0xF0 + n / 0x4_0000, 0x80 + (n / 0x1000) % 0x40, 0x80 + (n / 0x40) % 0x40, 0x80 + n % 0x40]
  }

  /** The UTF-8 bytes of a whole string, in order. */
  function Utf8Bytes(s: string): seq<Byte>
    decreases |s|
  {
    if s == [] then [] else Utf8(s[0]) + Utf8Bytes(s[1..])
  }

  /** The upper-case hexadecimal digit `encodeURIComponent` writes. */
  function HexDigit(d: int): (c: char)
    requires 0 <= d < 16
  {
    if d < 10 then '0' + d as char else 'A' + (d - 10) as char
  }

  /** The hexadecimal digits `unescape` accepts, in either case. */
  predicate IsHex(c: char) {
    ('0' <= c <= '9') || ('A' <= c <= 'F') || ('a' <= c <= 'f')
  }

  function HexValue(c: char): (v: int)
    requires IsHex(c)
    ensures 0 <= v < 16
  {
    if '0' <= c <= '9' then c as int - '0' as int
    else if 'A' <= c <= 'F' then c as int - 'A' as int + 10
    else c as int - 'a' as int + 10
  }

  /** `%XY` for one byte. */
  function Escape(b: Byte): string {
    ['%', HexDigit(b / 16), HexDigit(b % 16)]
  }

  function EscapeAll(bs: seq<Byte>): string
    decreases |bs|
  {
    if bs == [] then [] else Escape(bs[0]) + EscapeAll(bs[1..])
  }

  /** `encodeURIComponent(s)`: unreserved characters stay, every other code
      point becomes the `%XY` escapes of its UTF-8 bytes. The URIError for
      a lone surrogate cannot arise: a Dafny `char` is never one. */
  function EncodeURIComponent(s: string): string
    decreases |s|
  {
    if s == [] then []
    else (if Unreserved(s[0]) then [s[0]] else EscapeAll(Utf8(s[0]))) + EncodeURIComponent(s[1..])
  }

  /** `unescape(s)`: `%uWXYZ` and `%XY` become the code unit they name,
      the `%u` form tried first; every other character stands for its own
      code units. */
  function Unescape(s: string): seq<CodeUnit>
    decreases |s|
  {
    if s == [] then []
    else if |s| >= 6 && s[0] == '%' && s[1] == 'u' && IsHex(s[2]) && IsHex(s[3]) && IsHex(s[4]) && IsHex(s[5]) then
      [HexValue(s[2]) * 0x1000 + HexValue(s[3]) * 0x100 + HexValue(s[4]) * 0x10 + HexValue(s[5])] + Unescape(s[6..])
    else if |s| >= 3 && s[0] == '%' && IsHex(s[1]) && IsHex(s[2]) then
      [HexValue(s[1]) * 16 + HexValue(s[2])] + Unescape(s[3..])
    else CodeUnits(s[0]) + Unescape(s[1..])
  }

  // ---------------------------------------------------------------------------
  // `unescape(encodeURIComponent(s))` is the UTF-8 encoding of `s`, one
  // code unit per byte.

  lemma HexRoundTrip(d: int)
    requires 0 <= d < 16
    ensures IsHex(HexDigit(d)) && HexValue(HexDigit(d)) == d && HexDigit(d) != 'u'
  {
  }

  lemma DropPrefix(p: string, rest: string)
    ensures (p + rest)[|p|..] == rest
  {
  }

  /** One escape is read back as the byte it encodes. */
  lemma UnescapeEscape(b: Byte, rest: string)
    ensures Unescape(Escape(b) + rest) == [b] + Unescape(rest)
  {
    var s := Escape(b) + rest;
    HexRoundTrip(b / 16);
    HexRoundTrip(b % 16);
    assert s[0] == '%' && s[1] == HexDigit(b / 16) && s[2] == HexDigit(b % 16);
    DropPrefix(Escape(b), rest);
  }

  lemma {:induction false} UnescapeEscapeAll(bs: seq<Byte>, rest: string)
    ensures Unescape(EscapeAll(bs) + rest) == bs + Unescape(rest)
    decreases |bs|
  {
    if bs == [] {
      assert EscapeAll(bs) + rest == rest;
    } else {
      var tail := EscapeAll(bs[1..]) + rest;
      EscapeAllCons(bs, rest);
      UnescapeEscape(bs[0], tail);
      UnescapeEscapeAll(bs[1..], rest);
      ConsAppend(bs, Unescape(rest));
    }
  }

  lemma EscapeAllCons(bs: seq<Byte>, rest: string)
    requires bs != []
    ensures EscapeAll(bs) + rest == Escape(bs[0]) + (EscapeAll(bs[1..]) + rest)
  {
  }

  lemma ConsAppend(bs: seq<Byte>, us: seq<CodeUnit>)
    requires bs != []
    ensures [bs[0]] + (bs[1..] + us) == bs + us
  {
  }

  /** An unreserved character is read back as itself, a single byte. */
  lemma UnescapeUnreserved(c: char, rest: string)
    requires Unreserved(c)
    ensures Unescape([c] + rest) == Utf8(c) + Unescape(rest)
  {
    DropPrefix([c], rest);
  }

  lemma {:induction false} EncodeRoundTrip(s: string)
    ensures Unescape(EncodeURIComponent(s)) == Utf8Bytes(s)
    decreases |s|
  {
    if s != [] {
      var rest := EncodeURIComponent(s[1..]);
      EncodeRoundTrip(s[1..]);
      if Unreserved(s[0]) {
        UnescapeUnreserved(s[0], rest);
      } else {
        UnescapeEscapeAll(Utf8(s[0]), rest);
      }
    }
  }

  /** On ASCII text the UTF-8 bytes are the UTF-16 code units. */
  lemma {:induction false} AsciiUtf8(s: string)
    requires forall k :: 0 <= k < |s| ==> s[k] as int < 0x80
    ensures Utf8Bytes(s) == Utf16(s)
    ensures |Utf16(s)| == |s| && forall k :: 0 <= k < |s| ==> Utf16(s)[k] == s[k] as int
    decreases |s|
  {
    if s != [] {
      AsciiUtf8(s[1..]);
      assert Utf16(s) == [s[0] as int] + Utf16(s[1..]);
      forall k | 1 <= k < |s|
        ensures Utf16(s)[k] == s[k] as int
      {
        assert Utf16(s)[k] == Utf16(s[1..])[k - 1];
      }
    }
  }

  /** A non-ASCII character is escaped byte by byte: "é" becomes "%C3%A9",
      which `unescape` reads as the two code units 0xC3 0xA9. */
  lemma TwoByteExample()
    ensures EncodeURIComponent("é") == "%C3%A9"
    ensures Unescape("%C3%A9") == [0xC3, 0xA9]
  {
    var bytes := Utf8('é');
    assert bytes == [0xC3, 0xA9];
    assert Escape(0xA9) == "%A9";
    assert EscapeAll(bytes) == "%C3%A9";
    assert Utf8Bytes("é") == bytes;
    EncodeRoundTrip("é");
  }

  /** The `%u` form wins over the two-digit form. */
  lemma PercentUExample()
    ensures Unescape("%u00E9") == [0xE9]
  {
  }
}
