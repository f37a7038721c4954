/** The download link of the engine: the text is encoded to UTF-8 bytes
    (`str.encode()`), the bytes to Base64 (`base64.b64encode`, the alphabet and
    padding of section 4 of RFC 4648), and the result is wrapped in a fixed
    `<a href="data:...">` template. */
module Base64Link {
  import opened Common

  type byte = x: int | 0 <= x < 256

  // ---------------------------------------------------------------------
  // UTF-8 (`str.encode()` with its default codec)
  // ---------------------------------------------------------------------

  /** A continuation byte `10xxxxxx` carrying the six bits `v`. */
  function Cont(v: int): byte
    requires 0 <= v < 64
  {
    0x80 + v
  }

  /** The UTF-8 encoding of one Unicode scalar value. A Dafny `char` is never a
      surrogate, so the codec's error path cannot be reached. */
  function Utf8Char(c: char): (r: seq<byte>)
    ensures 1 <= |r| <= 4
    ensures (c as int < 0x80) <==> |r| == 1
  {
    var cp := c as int;
    if cp < 0x80 then [cp]
    else if cp < 0x800 then [0xC0 + cp / 64, Cont(cp % 64)]
    else if cp < 0x10000 then [0xE0 + cp / 64 / 64, Cont(cp / 64 % 64), Cont(cp % 64)]
    else [0xF0 + cp / 64 / 64 / 64, Cont(cp / 64 / 64 % 64), Cont(cp / 64 % 64), Cont(cp % 64)]
  }

  /** `text.encode()`: the characters' encodings, concatenated. */
  function Utf8(s: string): (r: seq<byte>)
    ensures |s| <= |r| <= 4 * |s|
  {
    if s == [] then [] else Utf8Char(s[0]) + Utf8(s[1..])
  }

  predicate IsCont(b: byte) {
    0x80 <= b < 0xC0
  }

  /** Strict UTF-8 decoding: no overlong forms, no surrogates, nothing above U+10FFFF. */
  function DecodeUtf8(b: seq<byte>): Option<string>
    decreases |b|
  {
    if b == [] then Some("")
    else
      var b0 := b[0] as int;
      if b0 < 0x80 then
        Prepend(b0 as char, DecodeUtf8(b[1..]))
      else if 0xC0 <= b0 < 0xE0 && |b| >= 2 && IsCont(b[1]) then
        var cp := (b0 - 0xC0) * 64 + (b[1] as int - 0x80);
        if cp < 0x80 then None else Prepend(cp as char, DecodeUtf8(b[2..]))
      else if 0xE0 <= b0 < 0xF0 && |b| >= 3 && IsCont(b[1]) && IsCont(b[2]) then
        var cp := (b0 - 0xE0) * 4096 + (b[1] as int - 0x80) * 64 + (b[2] as int - 0x80);
        if cp < 0x800 || 0xD800 <= cp < 0xE000 then None else Prepend(cp as char, DecodeUtf8(b[3..]))
      else if 0xF0 <= b0 < 0xF5 && |b| >= 4 && IsCont(b[1]) && IsCont(b[2]) && IsCont(b[3]) then
        var cp := (b0 - 0xF0) * 262144 + (b[1] as int - 0x80) * 4096 + (b[2] as int - 0x80) * 64 + (b[3] as int - 0x80);
        if cp < 0x10000 || cp >= 0x110000 then None else Prepend(cp as char, DecodeUtf8(b[4..]))
      else None
  }

  function Prepend(c: char, rest: Option<string>): Option<string> {
    if rest.Some? then Some([c] + rest.value) else None
  }

  lemma DecodeUtf8Two(c: char, rest: seq<byte>)
    requires 0x80 <= c as int < 0x800
    ensures DecodeUtf8(Utf8Char(c) + rest) == Prepend(c, DecodeUtf8(rest))
  {
    var cp := c as int;
    var b := Utf8Char(c) + rest;
    assert b[0] == 0xC0 + cp / 64 && b[1] == 0x80 + cp % 64;
    assert b[2..] == rest;
  }

  lemma DecodeUtf8Three(c: char, rest: seq<byte>)
    requires 0x800 <= c as int < 0x10000
    ensures DecodeUtf8(Utf8Char(c) + rest) == Prepend(c, DecodeUtf8(rest))
  {
    var cp := c as int;
    var q := cp / 64;
    var b := Utf8Char(c) + rest;
    assert b[0] == 0xE0 + q / 64 && b[1] == 0x80 + q % 64 && b[2] == 0x80 + cp % 64;
    assert (q / 64) * 4096 + (q % 64) * 64 + cp % 64 == cp;
    assert b[3..] == rest;
  }

  lemma DecodeUtf8Four(c: char, rest: seq<byte>)
    requires 0x10000 <= c as int
    ensures DecodeUtf8(Utf8Char(c) + rest) == Prepend(c, DecodeUtf8(rest))
  {
    var cp := c as int;
    var q := cp / 64;
    var q2 := q / 64;
    var b := Utf8Char(c) + rest;
    assert b[0] == 0xF0 + q2 / 64 && b[1] == 0x80 + q2 % 64 && b[2] == 0x80 + q % 64 && b[3] == 0x80 + cp % 64;
    assert (q2 / 64) * 262144 + (q2 % 64) * 4096 + (q % 64) * 64 + cp % 64 == cp;
    assert b[4..] == rest;
  }

  /** Decoding the encoding of one character and a tail gives back the character. */
  lemma DecodeUtf8Char(c: char, rest: seq<byte>)
    ensures DecodeUtf8(Utf8Char(c) + rest) == Prepend(c, DecodeUtf8(rest))
  {
    var cp := c as int;
    if cp < 0x80 {
      assert (Utf8Char(c) + rest)[1..] == rest;
    } else if cp < 0x800 {
      DecodeUtf8Two(c, rest);
    } else if cp < 0x10000 {
      DecodeUtf8Three(c, rest);
    } else {
      DecodeUtf8Four(c, rest);
    }
  }

  /** UTF-8 round trip: the bytes `str.encode()` produces decode to the text. */
  lemma {:induction false} Utf8RoundTrip(s: string)
    ensures DecodeUtf8(Utf8(s)) == Some(s)
  {
    if s != [] {
      Utf8RoundTrip(s[1..]);
      DecodeUtf8Char(s[0], Utf8(s[1..]));
      assert [s[0]] + s[1..] == s;
    }
  }

  // ---------------------------------------------------------------------
  // Base64 (section 4 of RFC 4648)
  // ---------------------------------------------------------------------

  /** The character of a six-bit value, Table 1 of section 4 of RFC 4648:
      A-Z, a-z, 0-9, '+', '/'. */
  function SextetChar(v: int): char
    requires 0 <= v < 64
  {
    if v < 26 then ('A' as int + v) as char
    else if v < 52 then ('a' as int + (v - 26)) as char
    else if v < 62 then ('0' as int + (v - 52)) as char
    else if v == 62 then '+'
    else '/'
  }

  /** The six-bit value of an alphabet character; `None` for anything else
      (including the pad character '='). */
  function SextetOf(c: char): (r: Option<int>)
    ensures r.Some? ==> 0 <= r.value < 64 && SextetChar(r.value) == c
  {
    if 'A' <= c <= 'Z' then Some(c as int - 'A' as int)
    else if 'a' <= c <= 'z' then Some(c as int - 'a' as int + 26)
    else if '0' <= c <= '9' then Some(c as int - '0' as int + 52)
    else if c == '+' then Some(62)
    else if c == '/' then Some(63)
    else None
  }

  lemma SextetRoundTrip(v: int)
    requires 0 <= v < 64
    ensures SextetOf(SextetChar(v)) == Some(v)
  {
  }

  const Pad: char := '='

  /** `base64.b64encode`: every three bytes become four characters; a final group
      of one or two bytes is zero-filled and padded with '='. */
  function Encode(b: seq<byte>): (r: string)
    ensures |r| == (|b| + 2) / 3 * 4
    decreases |b|
  {
    if |b| == 0 then ""
    else if |b| == 1 then
      [SextetChar(b[0] / 4), SextetChar(b[0] % 4 * 16), Pad, Pad]
    else if |b| == 2 then
      [SextetChar(b[0] / 4), SextetChar(b[0] % 4 * 16 + b[1] / 16), SextetChar(b[1] % 16 * 4), Pad]
    else
      Quad(b[0], b[1], b[2]) + Encode(b[3..])
  }

  /** Strict Base64 decoding: the length is a multiple of four, padding only in
      the last group, and the bits a pad leaves over are zero. */
  function Decode(s: string): (r: Option<seq<byte>>)
    decreases |s|
  {
    if s == [] then Some([])
    else if |s| < 4 then None
    else
      var q := DecodeQuad(s[0], s[1], s[2], s[3], |s| == 4);
      if q.None? then None
      else
        var rest := Decode(s[4..]);
        if rest.None? then None else Some(q.value + rest.value)
  }

  /** One group of four characters; `last` allows padding. */
  function DecodeQuad(c0: char, c1: char, c2: char, c3: char, last: bool): Option<seq<byte>> {
    var v0, v1, v2, v3 := SextetOf(c0), SextetOf(c1), SextetOf(c2), SextetOf(c3);
    if v0.None? || v1.None? then None
    else if v2.Some? && v3.Some? then
      Some([v0.value * 4 + v1.value / 16, v1.value % 16 * 16 + v2.value / 4, v2.value % 4 * 64 + v3.value])
    else if last && v2.Some? && c3 == Pad && v2.value % 4 == 0 then
      Some([v0.value * 4 + v1.value / 16, v1.value % 16 * 16 + v2.value / 4])
    else if last && c2 == Pad && c3 == Pad && v1.value % 16 == 0 then
      Some([v0.value * 4 + v1.value / 16])
    else None
  }

  /** The byte arithmetic of one group: the sextets of three bytes reassemble them. */
  lemma GroupArithmetic(b0: int, b1: int, b2: int)
    requires 0 <= b0 < 256 && 0 <= b1 < 256 && 0 <= b2 < 256
    ensures (b0 / 4) * 4 + (b0 % 4 * 16 + b1 / 16) / 16 == b0
    ensures (b0 % 4 * 16 + b1 / 16) % 16 * 16 + (b1 % 16 * 4 + b2 / 64) / 4 == b1
    ensures (b1 % 16 * 4 + b2 / 64) % 4 * 64 + b2 % 64 == b2
  {
  }

  /** Four alphabet characters decode to the bytes their sextets spell. */
  lemma DecodeQuadFull(v0: int, v1: int, v2: int, v3: int, last: bool)
    requires 0 <= v0 < 64 && 0 <= v1 < 64 && 0 <= v2 < 64 && 0 <= v3 < 64
    ensures DecodeQuad(SextetChar(v0), SextetChar(v1), SextetChar(v2), SextetChar(v3), last)
         == Some([v0 * 4 + v1 / 16, v1 % 16 * 16 + v2 / 4, v2 % 4 * 64 + v3])
  {
    SextetRoundTrip(v0);
    SextetRoundTrip(v1);
    SextetRoundTrip(v2);
    SextetRoundTrip(v3);
  }

  /** Three characters and a pad decode to two bytes, provided the spare bits are zero. */
  lemma DecodeQuadOnePad(v0: int, v1: int, v2: int)
    requires 0 <= v0 < 64 && 0 <= v1 < 64 && 0 <= v2 < 64 && v2 % 4 == 0
    ensures DecodeQuad(SextetChar(v0), SextetChar(v1), SextetChar(v2), Pad, true)
         == Some([v0 * 4 + v1 / 16, v1 % 16 * 16 + v2 / 4])
  {
    SextetRoundTrip(v0);
    SextetRoundTrip(v1);
    SextetRoundTrip(v2);
  }

  /** Two characters and two pads decode to one byte, provided the spare bits are zero. */
  lemma DecodeQuadTwoPads(v0: int, v1: int)
    requires 0 <= v0 < 64 && 0 <= v1 < 64 && v1 % 16 == 0
    ensures DecodeQuad(SextetChar(v0), SextetChar(v1), Pad, Pad, true) == Some([v0 * 4 + v1 / 16])
  {
    SextetRoundTrip(v0);
    SextetRoundTrip(v1);
  }

  /** The padded group `b64encode` writes for one final byte decodes to it. */
  lemma OneByteGroup(b0: int)
    requires 0 <= b0 < 256
    ensures DecodeQuad(SextetChar(b0 / 4), SextetChar(b0 % 4 * 16), Pad, Pad, true) == Some([b0])
  {
    GroupArithmetic(b0, 0, 0);
    DecodeQuadTwoPads(b0 / 4, b0 % 4 * 16);
  }

  /** The padded group `b64encode` writes for two final bytes decodes to them. */
  lemma TwoByteGroup(b0: int, b1: int)
    requires 0 <= b0 < 256 && 0 <= b1 < 256
    ensures DecodeQuad(SextetChar(b0 / 4), SextetChar(b0 % 4 * 16 + b1 / 16), SextetChar(b1 % 16 * 4), Pad, true)
         == Some([b0, b1])
  {
    GroupArithmetic(b0, b1, 0);
    DecodeQuadOnePad(b0 / 4, b0 % 4 * 16 + b1 / 16, b1 % 16 * 4);
  }

  lemma DecodeEncodeOne(b0: byte)
    ensures Decode(Encode([b0])) == Some([b0])
  {
    OneByteGroup(b0);
    DecodeLastGroup(SextetChar(b0 / 4), SextetChar(b0 % 4 * 16), Pad, Pad, [b0]);
  }

  lemma EncodeTwo(b0: byte, b1: byte)
    ensures Encode([b0, b1]) == [SextetChar(b0 / 4), SextetChar(b0 % 4 * 16 + b1 / 16), SextetChar(b1 % 16 * 4), Pad]
  {
  }

  lemma DecodeEncodeTwo(b0: byte, b1: byte)
    ensures Decode(Encode([b0, b1])) == Some([b0, b1])
  {
    EncodeTwo(b0, b1);
    TwoByteGroup(b0, b1);
    DecodeLastGroup(SextetChar(b0 / 4), SextetChar(b0 % 4 * 16 + b1 / 16), SextetChar(b1 % 16 * 4), Pad, [b0, b1]);
  }

  /** A last group of four characters decodes on its own. */
  lemma DecodeLastGroup(c0: char, c1: char, c2: char, c3: char, d: seq<byte>)
    requires DecodeQuad(c0, c1, c2, c3, true) == Some(d)
    ensures Decode([c0, c1, c2, c3]) == Some(d)
  {
    var s := [c0, c1, c2, c3];
    assert s[4..] == [];
    assert d + [] == d;
  }

  /** The four characters `b64encode` writes for the bytes `b0 b1 b2`. */
  function Quad(b0: byte, b1: byte, b2: byte): (r: string)
    ensures |r| == 4
  {
    [SextetChar(b0 / 4), SextetChar(b0 % 4 * 16 + b1 / 16), SextetChar(b1 % 16 * 4 + b2 / 64), SextetChar(b2 % 64)]
  }

  /** The four sextets of a group of three bytes: below 64, the characters of
      `Quad`, and reassembling to the bytes. */
  lemma GroupSextets(b0: byte, b1: byte, b2: byte) returns (v0: int, v1: int, v2: int, v3: int)
    ensures 0 <= v0 < 64 && 0 <= v1 < 64 && 0 <= v2 < 64 && 0 <= v3 < 64
    ensures Quad(b0, b1, b2) == [SextetChar(v0), SextetChar(v1), SextetChar(v2), SextetChar(v3)]
    ensures v0 * 4 + v1 / 16 == b0 && v1 % 16 * 16 + v2 / 4 == b1 && v2 % 4 * 64 + v3 == b2
  {
    v0, v1, v2, v3 := b0 / 4, b0 % 4 * 16 + b1 / 16, b1 % 16 * 4 + b2 / 64, b2 % 64;
    GroupArithmetic(b0, b1, b2);
  }

  lemma DecodeQuadOfQuad(b0: byte, b1: byte, b2: byte, last: bool)
    ensures var q := Quad(b0, b1, b2); DecodeQuad(q[0], q[1], q[2], q[3], last) == Some([b0, b1, b2])
  {
    var v0, v1, v2, v3 := GroupSextets(b0, b1, b2);
    DecodeQuadFull(v0, v1, v2, v3, last);
  }

  /** Decoding a group of four characters followed by more text. */
  lemma DecodeCons(q: string, rest: string, d: seq<byte>, r: seq<byte>)
    requires |q| == 4 && DecodeQuad(q[0], q[1], q[2], q[3], rest == []) == Some(d)
    requires Decode(rest) == Some(r)
    ensures Decode(q + rest) == Some(d + r)
  {
    var s := q + rest;
    assert s[0] == q[0] && s[1] == q[1] && s[2] == q[2] && s[3] == q[3];
    assert s[4..] == rest;
  }

  /** Base64 round trip: decoding an encoding gives back the bytes. */
  lemma {:induction false} DecodeEncode(b: seq<byte>)
    ensures Decode(Encode(b)) == Some(b)
    decreases |b|
  {
    if |b| == 1 {
      DecodeEncodeOne(b[0]);
      assert [b[0]] == b;
    } else if |b| == 2 {
      DecodeEncodeTwo(b[0], b[1]);
      assert [b[0], b[1]] == b;
    } else if |b| >= 3 {
      var b0, b1, b2, tail := b[0], b[1], b[2], b[3..];
      EncodeSplit(b);
      BytesSplit(b);
      DecodeEncode(tail);
      DecodeQuadCons(b0, b1, b2, Encode(tail), tail);
    }
  }

  /** Three bytes and more encode as their first group followed by the rest. */
  lemma EncodeSplit(b: seq<byte>)
    requires |b| >= 3
    ensures Encode(b) == Quad(b[0], b[1], b[2]) + Encode(b[3..])
  {
  }

  lemma BytesSplit(b: seq<byte>)
    requires |b| >= 3
    ensures b == [b[0], b[1], b[2]] + b[3..]
  {
    assert b[..3] == [b[0], b[1], b[2]];
    assert b == b[..3] + b[3..];
  }

  /** A full group in front of decodable text decodes to its three bytes in front. */
  lemma DecodeQuadCons(b0: byte, b1: byte, b2: byte, e: string, r: seq<byte>)
    requires Decode(e) == Some(r)
    ensures Decode(Quad(b0, b1, b2) + e) == Some([b0, b1, b2] + r)
  {
    var q := Quad(b0, b1, b2);
    DecodeQuadOfQuad(b0, b1, b2, e == []);
    DecodeCons(q, e, [b0, b1, b2], r);
  }

  /** A decoded non-empty text is its first group's bytes followed by the rest's. */
  lemma DecodeSplit(s: string)
    requires s != [] && Decode(s).Some?
    ensures |s| >= 4 && DecodeQuad(s[0], s[1], s[2], s[3], |s| == 4).Some? && Decode(s[4..]).Some?
    ensures Decode(s).value == DecodeQuad(s[0], s[1], s[2], s[3], |s| == 4).value + Decode(s[4..]).value
  {
  }

  lemma FirstGroupAndTail(s: string)
    requires |s| >= 4
    ensures [s[0], s[1], s[2], s[3]] + s[4..] == s
  {
  }

  /** The decoder is strict: whatever it accepts is the encoding of what it returns. */
  lemma {:induction false} EncodeDecode(s: string)
    requires Decode(s).Some?
    ensures Encode(Decode(s).value) == s
    decreases |s|
  {
    if s != [] {
      DecodeSplit(s);
      var c0, c1, c2, c3, tail := s[0], s[1], s[2], s[3], s[4..];
      var rest := Decode(tail).value;
      EncodeDecode(tail);
      if |s| > 4 {
        InnerGroupIsFull(c0, c1, c2, c3);
      }
      EncodeQuad(c0, c1, c2, c3, |s| == 4, rest);
      FirstGroupAndTail(s);
    }
  }

  /** Padding is only accepted in the last group: any other group decodes to three bytes. */
  lemma InnerGroupIsFull(c0: char, c1: char, c2: char, c3: char)
    requires DecodeQuad(c0, c1, c2, c3, false).Some?
    ensures |DecodeQuad(c0, c1, c2, c3, false).value| == 3
  {
  }

  /** The byte arithmetic of one group read the other way: the bytes that four
      sextets assemble split back into those sextets. */
  lemma SextetArithmetic(v0: int, v1: int, v2: int, v3: int)
    requires 0 <= v0 < 64 && 0 <= v1 < 64 && 0 <= v2 < 64 && 0 <= v3 < 64
    ensures var x0, x1, x2 := v0 * 4 + v1 / 16, v1 % 16 * 16 + v2 / 4, v2 % 4 * 64 + v3;
      && 0 <= x0 < 256 && 0 <= x1 < 256 && 0 <= x2 < 256
      && x0 / 4 == v0 && x0 % 4 * 16 + x1 / 16 == v1 && x1 % 16 * 4 + x2 / 64 == v2 && x2 % 64 == v3
  {
  }

  /** Three bytes and more encode as their group followed by the rest. */
  lemma EncodeFullGroup(x0: byte, x1: byte, x2: byte, rest: seq<byte>)
    ensures Encode([x0, x1, x2] + rest) == Quad(x0, x1, x2) + Encode(rest)
  {
    assert ([x0, x1, x2] + rest)[3..] == rest;
  }

  /** A group with one pad encodes back to its characters. */
  lemma EncodeTwoByteGroup(v0: int, v1: int, v2: int)
    requires 0 <= v0 < 64 && 0 <= v1 < 64 && 0 <= v2 < 64 && v2 % 4 == 0
    ensures Encode([v0 * 4 + v1 / 16, v1 % 16 * 16 + v2 / 4]) == [SextetChar(v0), SextetChar(v1), SextetChar(v2), Pad]
  {
    var x0, x1 := v0 * 4 + v1 / 16, v1 % 16 * 16 + v2 / 4;
    assert x0 / 4 == v0 && x0 % 4 * 16 + x1 / 16 == v1 && x1 % 16 * 4 == v2;
  }

  /** A group with two pads encodes back to its characters. */
  lemma EncodeOneByteGroup(v0: int, v1: int)
    requires 0 <= v0 < 64 && 0 <= v1 < 64 && v1 % 16 == 0
    ensures Encode([v0 * 4 + v1 / 16]) == [SextetChar(v0), SextetChar(v1), Pad, Pad]
  {
    var x0 := v0 * 4 + v1 / 16;
    assert x0 / 4 == v0 && x0 % 4 * 16 == v1;
  }

  /** The group of three bytes whose sextets are known. */
  lemma QuadOfSextets(x0: byte, x1: byte, x2: byte, w0: int, w1: int, w2: int, w3: int)
    requires x0 / 4 == w0 && x0 % 4 * 16 + x1 / 16 == w1 && x1 % 16 * 4 + x2 / 64 == w2 && x2 % 64 == w3
    ensures Quad(x0, x1, x2) == [SextetChar(w0), SextetChar(w1), SextetChar(w2), SextetChar(w3)]
  {
  }

  /** A group of four data characters encodes back from its three bytes. */
  lemma EncodeQuadFull(c0: char, c1: char, c2: char, c3: char, last: bool, rest: seq<byte>)
    requires SextetOf(c0).Some? && SextetOf(c1).Some? && SextetOf(c2).Some? && SextetOf(c3).Some?
    ensures Encode(DecodeQuad(c0, c1, c2, c3, last).value + rest) == [c0, c1, c2, c3] + Encode(rest)
  {
    var w0, w1, w2, w3 := SextetOf(c0).value, SextetOf(c1).value, SextetOf(c2).value, SextetOf(c3).value;
    SextetArithmetic(w0, w1, w2, w3);
    var x0, x1, x2 := w0 * 4 + w1 / 16, w1 % 16 * 16 + w2 / 4, w2 % 4 * 64 + w3;
    assert DecodeQuad(c0, c1, c2, c3, last).value == [x0, x1, x2];
    EncodeFullGroup(x0, x1, x2, rest);
    QuadOfSextets(x0, x1, x2, w0, w1, w2, w3);
  }

  /** A last group with one pad encodes back from its two bytes. */
  lemma EncodeQuadOnePad(c0: char, c1: char, c2: char)
    requires SextetOf(c0).Some? && SextetOf(c1).Some? && SextetOf(c2).Some? && SextetOf(c2).value % 4 == 0
    ensures Encode(DecodeQuad(c0, c1, c2, Pad, true).value) == [c0, c1, c2, Pad]
  {
    var w0, w1, w2 := SextetOf(c0).value, SextetOf(c1).value, SextetOf(c2).value;
    assert SextetOf(Pad).None?;
    assert DecodeQuad(c0, c1, c2, Pad, true).value == [w0 * 4 + w1 / 16, w1 % 16 * 16 + w2 / 4];
    EncodeTwoByteGroup(w0, w1, w2);
  }

  /** A last group with two pads encodes back from its one byte. */
  lemma EncodeQuadTwoPads(c0: char, c1: char)
    requires SextetOf(c0).Some? && SextetOf(c1).Some? && SextetOf(c1).value % 16 == 0
    ensures Encode(DecodeQuad(c0, c1, Pad, Pad, true).value) == [c0, c1, Pad, Pad]
  {
    var w0, w1 := SextetOf(c0).value, SextetOf(c1).value;
    assert SextetOf(Pad).None?;
    assert DecodeQuad(c0, c1, Pad, Pad, true).value == [w0 * 4 + w1 / 16];
    EncodeOneByteGroup(w0, w1);
  }

  /** One decoded group encodes back to its four characters. */
  lemma EncodeQuad(c0: char, c1: char, c2: char, c3: char, last: bool, rest: seq<byte>)
    requires DecodeQuad(c0, c1, c2, c3, last).Some?
    requires !last ==> |DecodeQuad(c0, c1, c2, c3, last).value| == 3
    requires last ==> rest == []
    ensures Encode(DecodeQuad(c0, c1, c2, c3, last).value + rest) == [c0, c1, c2, c3] + Encode(rest)
  {
    if SextetOf(c2).Some? && SextetOf(c3).Some? {
      EncodeQuadFull(c0, c1, c2, c3, last, rest);
    } else {
      var q := DecodeQuad(c0, c1, c2, c3, last).value;
      assert q + rest == q;
      if SextetOf(c2).Some? {
        EncodeQuadOnePad(c0, c1, c2);
      } else {
        EncodeQuadTwoPads(c0, c1);
      }
    }
  }

  // ---------------------------------------------------------------------
  // download_link
  // ---------------------------------------------------------------------

  const LinkPrefix: string := "<a href=\"data:file/txt;base64,"

  /** `download_link` for a string object. */
  function DownloadLink(text: string, filename: string, linkText: string): string {
    LinkPrefix + Encode(Utf8(text)) + "\" download=\"" + filename + "\">" + linkText + "</a>"
  }

  /** The characters of `s` up to (not including) the first '"'. */
  function UpToQuote(s: string): (r: string)
    ensures |r| <= |s| && r == s[..|r|]
    ensures |r| < |s| ==> s[|r|] == '"'
    ensures forall k :: 0 <= k < |r| ==> r[k] != '"'
  {
    if s == [] || s[0] == '"' then [] else [s[0]] + UpToQuote(s[1..])
  }

  /** What a browser reads as the data of the link: the attribute text after the
      `data:file/txt;base64,` prefix, up to the closing quote. */
  function LinkPayload(link: string): Option<string> {
    if |link| >= |LinkPrefix| && link[..|LinkPrefix|] == LinkPrefix
    then Some(UpToQuote(link[|LinkPrefix|..]))
    else None
  }

  /** The Base64 alphabet and the pad never contain '"'. */
  lemma {:induction false} EncodeHasNoQuote(b: seq<byte>)
    ensures forall k :: 0 <= k < |Encode(b)| ==> Encode(b)[k] != '"'
    decreases |b|
  {
    if |b| >= 3 {
      EncodeHasNoQuote(b[3..]);
    }
  }

  lemma {:induction false} UpToQuoteStopsAtQuote(a: string, t: string)
    requires forall k :: 0 <= k < |a| ==> a[k] != '"'
    requires |t| > 0 && t[0] == '"'
    ensures UpToQuote(a + t) == a
    decreases |a|
  {
    if a == [] {
      assert a + t == t;
    } else {
      assert (a + t)[1..] == a[1..] + t;
      UpToQuoteStopsAtQuote(a[1..], t);
      assert a == [a[0]] + a[1..];
    }
  }

  /** The payload of a link made of the prefix, a quote-free text and a tail that
      opens with the closing quote is that text. */
  lemma PayloadOf(e: string, tail: string)
    requires forall k :: 0 <= k < |e| ==> e[k] != '"'
    requires |tail| > 0 && tail[0] == '"'
    ensures LinkPayload(LinkPrefix + e + tail) == Some(e)
  {
    var link := LinkPrefix + e + tail;
    assert link[..|LinkPrefix|] == LinkPrefix;
    assert link[|LinkPrefix|..] == e + tail;
    UpToQuoteStopsAtQuote(e, tail);
  }

  /** The link carries the text: its payload is the Base64 of the text's UTF-8
      bytes, and decoding it (Base64, then UTF-8) gives the text back. */
  lemma LinkRoundTrip(text: string, filename: string, linkText: string)
    ensures LinkPayload(DownloadLink(text, filename, linkText)) == Some(Encode(Utf8(text)))
    ensures Decode(LinkPayload(DownloadLink(text, filename, linkText)).value) == Some(Utf8(text))
    ensures DecodeUtf8(Decode(LinkPayload(DownloadLink(text, filename, linkText)).value).value) == Some(text)
  {
    var e := Encode(Utf8(text));
    var tail := "\" download=\"" + filename + "\">" + linkText + "</a>";
    assert DownloadLink(text, filename, linkText) == LinkPrefix + e + tail;
    EncodeHasNoQuote(Utf8(text));
    PayloadOf(e, tail);
    DecodeEncode(Utf8(text));
    Utf8RoundTrip(text);
  }

  lemma EncodeExample()
    ensures Encode([77, 97, 110]) == "TWFu"
  {
  }

  lemma EncodePaddedExample()
    ensures Encode([77, 97]) == "TWE="
  {
  }
}
