/** UTF-8 and percent-encoding (section 2.1 of RFC 3986, section 19.2.6 of ECMA-262). */
module Percent {
  import opened Basics

  /******* UTF-8 *******/

  type Byte = b: int | 0 <= b < 0x100

  function Utf8(c: char): (bytes: seq<Byte>)
    ensures 1 <= |bytes| <= 4
  {
    var v := c as int;
    if v < 0x80 then [v]
    else if v < 0x800 then [0xC0 + v / 0x40, 0x80 + v % 0x40]
    else if v < 0x1_0000 then [0xE0 + v / 0x1000, 0x80 + v / 0x40 % 0x40, 0x80 + v % 0x40]
    else [0xF0 + v / 0x4_0000, 0x80 + v / 0x1000 % 0x40, 0x80 + v / 0x40 % 0x40, 0x80 + v % 0x40]
  }

  /** How many bytes the first byte of a character announces; 0 when it cannot be a first byte. */
  function Announced(b: Byte): nat {
    if b < 0x80 then 1
    else if b < 0xC0 then 0
    else if b < 0xE0 then 2
    else if b < 0xF0 then 3
    else if b < 0xF8 then 4
    else 0
  }

  predicate IsTail(b: Byte) {
    0x80 <= b < 0xC0
  }

  function TailBits(b: Byte): int {
    b - 0x80
  }

  function HeadBits(b: Byte, mark: int): int {
    b - mark
  }

  function Scalar(v: int, least: nat): Option<char> {
    if least <= v < 0xD800 || (least <= v && 0xE000 <= v < 0x11_0000) then Some(v as char) else None
  }

  /** The character a complete group of bytes stands for; overlong forms and surrogates are refused. */
  function Utf8Char(bytes: seq<Byte>): Option<char>
    requires bytes != [] && |bytes| == Announced(bytes[0])
  {
    if |bytes| == 1 then Scalar(bytes[0], 0)
    else if |bytes| == 2 then
      if IsTail(bytes[1]) then Scalar(HeadBits(bytes[0], 0xC0) * 0x40 + TailBits(bytes[1]), 0x80) else None
    else if |bytes| == 3 then
      if IsTail(bytes[1]) && IsTail(bytes[2]) then
        Scalar(HeadBits(bytes[0], 0xE0) * 0x1000 + TailBits(bytes[1]) * 0x40 + TailBits(bytes[2]), 0x800)
      else None
    else
      if IsTail(bytes[1]) && IsTail(bytes[2]) && IsTail(bytes[3]) then
        Scalar(HeadBits(bytes[0], 0xF0) * 0x4_0000 + TailBits(bytes[1]) * 0x1000 + TailBits(bytes[2]) * 0x40
               + TailBits(bytes[3]), 0x1_0000)
      else None
  }

  lemma {:induction false} Utf8RoundTrip(c: char)
    ensures Announced(Utf8(c)[0]) == |Utf8(c)| && Utf8Char(Utf8(c)) == Some(c)
  {
    var v := c as int;
    assert v == v / 0x40 * 0x40 + v % 0x40;
    assert v / 0x40 == v / 0x1000 * 0x40 + v / 0x40 % 0x40;
    assert v / 0x1000 == v / 0x4_0000 * 0x40 + v / 0x1000 % 0x40;
  }

  /******* Escapes *******/

  const HEX := "0123456789ABCDEF"

  function HexValue(c: char): Option<nat> {
    if '0' <= c <= '9' then Some(c as int - '0' as int)
    else if 'A' <= c <= 'F' then Some(c as int - 'A' as int + 10)
    else if 'a' <= c <= 'f' then Some(c as int - 'a' as int + 10)
    else None
  }

  function EscapeByte(b: Byte): (escape: string)
    ensures |escape| == 3
  {
    ['%', HEX[b / 16], HEX[b % 16]]
  }

  /** The escapes of some bytes, in front of the rest of the text. */
  function EscapeBytes(bytes: seq<Byte>, rest: string): string {
    if bytes == [] then rest else EscapeByte(bytes[0]) + EscapeBytes(bytes[1..], rest)
  }

  function Encode(s: string, plain: char -> bool): string {
    if s == "" then ""
    else if plain(s[0]) then [s[0]] + Encode(s[1..], plain)
    else EscapeBytes(Utf8(s[0]), Encode(s[1..], plain))
  }

  /** The byte an escape at the front of the text stands for. */
  function Octet(s: string): Option<Byte> {
    if |s| >= 3 && s[0] == '%' && HexValue(s[1]).Some? && HexValue(s[2]).Some? then
      Some(16 * HexValue(s[1]).value + HexValue(s[2]).value)
    else None
  }

  /** The bytes of n escapes in a row. */
  function Octets(s: string, n: nat): (r: Option<seq<Byte>>)
    ensures r.Some? ==> |r.value| == n && |s| >= 3 * n && (n > 0 ==> Octet(s) == Some(r.value[0]))
  {
    if n == 0 then Some([])
    else if Octet(s).None? then None
    else
      var rest := Octets(s[3..], n - 1);
      if rest.None? then None else Some([Octet(s).value] + rest.value)
  }

  function Decode(s: string): Option<string>
    decreases |s|
  {
    if s == "" then Some("")
    else if s[0] != '%' then Prepend(s[0], Decode(s[1..]))
    else if Octet(s).None? then None
    else
      var n := Announced(Octet(s).value);
      if n == 0 then None
      else
        var group := Octets(s, n);
        if group.None? || Utf8Char(group.value).None? then None
        else Prepend(Utf8Char(group.value).value, Decode(s[3 * n..]))
  }

  function Prepend(c: char, rest: Option<string>): Option<string> {
    if rest.None? then None else Some([c] + rest.value)
  }

  lemma OctetOfEscape(b: Byte, rest: string)
    ensures Octet(EscapeByte(b) + rest) == Some(b)
  {
    HexDigits(b / 16);
    HexDigits(b % 16);
  }

  lemma HexDigits(n: nat)
    requires n < 16
    ensures HexValue(HEX[n]) == Some(n)
  {
    if n < 8 { } else { }
  }

  lemma {:induction false} OctetsOfEscapes(bytes: seq<Byte>, rest: string)
    ensures var s := EscapeBytes(bytes, rest);
            Octets(s, |bytes|) == Some(bytes) && |s| == 3 * |bytes| + |rest| && s[3 * |bytes|..] == rest
  {
    if bytes != [] {
      var more := EscapeBytes(bytes[1..], rest);
      OctetOfEscape(bytes[0], more);
      OctetsOfEscapes(bytes[1..], rest);
      hide EscapeByte, Octet;
      assert (EscapeByte(bytes[0]) + more)[3..] == more;
      assert bytes == [bytes[0]] + bytes[1..];
    }
  }

  /** One escaped character in front of anything. */
  lemma DecodeEscaped(c: char, rest: string)
    ensures Decode(EscapeBytes(Utf8(c), rest)) == Prepend(c, Decode(rest))
  {
    var bytes := Utf8(c);
    var s := EscapeBytes(bytes, rest);
    Utf8RoundTrip(c);
    OctetsOfEscapes(bytes, rest);
    hide Utf8, Utf8Char, Announced, EscapeBytes, Octets;
    assert Octet(s) == Some(bytes[0]);
    assert s != "" && s[0] == '%';
  }

  /** Decoding undoes encoding, as long as the percent sign itself is escaped. */
  lemma {:induction false} DecodeEncode(s: string, plain: char -> bool)
    requires !plain('%')
    ensures Decode(Encode(s, plain)) == Some(s)
  {
    if s != "" {
      var rest := Encode(s[1..], plain);
      DecodeEncode(s[1..], plain);
      if plain(s[0]) {
        assert ([s[0]] + rest)[1..] == rest;
      } else {
        DecodeEscaped(s[0], rest);
      }
      assert s == [s[0]] + s[1..];
    }
  }

  /******* What encoding leaves legible *******/

  lemma {:induction false} EncodePlain(s: string, plain: char -> bool)
    requires forall i :: 0 <= i < |s| ==> plain(s[i])
    ensures Encode(s, plain) == s
  {
    if s != "" {
      EncodePlain(s[1..], plain);
    }
  }

  lemma {:induction false} EscapeBytesJoined(bytes: seq<Byte>, a: string, b: string)
    ensures EscapeBytes(bytes, a + b) == EscapeBytes(bytes, a) + b
  {
    if bytes != [] {
      EscapeBytesJoined(bytes[1..], a, b);
    }
  }

  lemma {:induction false} EncodeJoined(a: string, b: string, plain: char -> bool)
    ensures Encode(a + b, plain) == Encode(a, plain) + Encode(b, plain)
  {
    if a == "" {
      assert a + b == b;
    } else {
      assert (a + b)[0] == a[0] && (a + b)[1..] == a[1..] + b;
      EncodeJoined(a[1..], b, plain);
      EscapeBytesJoined(Utf8(a[0]), Encode(a[1..], plain), Encode(b, plain));
    }
  }

  lemma EncodeSlash(plain: char -> bool)
    requires !plain('/')
    ensures Encode(['/'], plain) == "%2F"
  {
    assert Utf8('/') == [0x2F];
    assert EscapeBytes([0x2F], "") == "%2F";
    assert ['/'][1..] == "";
  }

  lemma EncodeAcrossSlash(a: string, b: string, plain: char -> bool)
    requires !plain('/')
    ensures Encode(a + ['/'] + b, plain) == Encode(a, plain) + "%2F" + Encode(b, plain)
  {
    hide Encode;
    EncodeSlash(plain);
    EncodeJoined(a + ['/'], b, plain);
    EncodeJoined(a, ['/'], plain);
  }

  lemma {:induction false} EscapesClean(bytes: seq<Byte>, rest: string, plain: char -> bool)
    requires forall i :: 0 <= i < |rest| ==> rest[i] == '%' || plain(rest[i])
    requires forall c :: '0' <= c <= '9' || 'A' <= c <= 'F' ==> plain(c)
    ensures forall i :: 0 <= i < |EscapeBytes(bytes, rest)| ==>
              EscapeBytes(bytes, rest)[i] == '%' || plain(EscapeBytes(bytes, rest)[i])
  {
    if bytes != [] {
      EscapesClean(bytes[1..], rest, plain);
      HexIsPlain();
    }
  }

  lemma HexIsPlain()
    ensures forall v :: 0 <= v < 16 ==> '0' <= HEX[v] <= '9' || 'A' <= HEX[v] <= 'F'
  {
  }

  lemma {:induction false} EncodeClean(s: string, plain: char -> bool)
    requires forall c :: '0' <= c <= '9' || 'A' <= c <= 'F' ==> plain(c)
    ensures forall i :: 0 <= i < |Encode(s, plain)| ==>
              Encode(s, plain)[i] == '%' || plain(Encode(s, plain)[i])
  {
    if s != "" {
      EncodeClean(s[1..], plain);
      if !plain(s[0]) {
        EscapesClean(Utf8(s[0]), Encode(s[1..], plain), plain);
      }
    }
  }

  /** The bytes of a character as the standard lays them out. */
  lemma Utf8Layout(c: char)
    ensures var v, b := c as int, Utf8(c);
            && (v < 0x80 ==> |b| == 1 && b[0] == v)
            && (0x80 <= v < 0x800 ==>
                  |b| == 2 && 0xC0 <= b[0] < 0xE0 && 0x80 <= b[1] < 0xC0
                  && v == (b[0] as int - 0xC0) * 0x40 + (b[1] as int - 0x80))
            && (0x800 <= v < 0x1_0000 ==>
                  |b| == 3 && 0xE0 <= b[0] < 0xF0 && 0x80 <= b[1] < 0xC0 && 0x80 <= b[2] < 0xC0
                  && v == (b[0] as int - 0xE0) * 0x1000 + (b[1] as int - 0x80) * 0x40 + (b[2] as int - 0x80))
            && (0x1_0000 <= v ==>
                  |b| == 4 && 0xF0 <= b[0] < 0xF8 && 0x80 <= b[1] < 0xC0 && 0x80 <= b[2] < 0xC0 && 0x80 <= b[3] < 0xC0
                  && v == (b[0] as int - 0xF0) * 0x4_0000 + (b[1] as int - 0x80) * 0x1000
                          + (b[2] as int - 0x80) * 0x40 + (b[3] as int - 0x80))
  {
    var v := c as int;
    assert v == v / 0x40 * 0x40 + v % 0x40;
    assert v / 0x40 == v / 0x1000 * 0x40 + v / 0x40 % 0x40;
    assert v / 0x1000 == v / 0x4_0000 * 0x40 + v / 0x1000 % 0x40;
  }
}
