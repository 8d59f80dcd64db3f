/** UTF-8 as Rust's `str::as_bytes` produces it and `String::from_utf8`
    accepts it: the well-formed byte sequences of table 3-7 of the Unicode
    Standard, chapter 3.9 (equivalently RFC 3629, section 4). */
module Utf8 {
  import opened Wrappers
  import opened Text

  predicate IsContinuation(b: byte) {
    0x80 <= b <= 0xBF
  }

  /** The bytes of one Unicode scalar value. */
  function EncodeChar(c: char): (r: seq<byte>)
    ensures 1 <= |r| <= 4
  {
    var n := c as int;
    if n < 0x80 then [n]
    else if n < 0x800 then [0xC0 + n / 0x40, 0x80 + n % 0x40]
    else if n < 0x1_0000 then [0xE0 + n / 0x1000, 0x80 + (n / 0x40) % 0x40, 0x80 + n % 0x40]
    else [0xF0 + n / 0x4_0000, 0x80 + (n / 0x1000) % 0x40, 0x80 + (n / 0x40) % 0x40, 0x80 + n % 0x40]
  }

  /** `str::as_bytes`: the concatenated encodings of the characters. */
  function Encode(s: string): (r: seq<byte>)
  {
    if s == [] then [] else EncodeChar(s[0]) + Encode(s[1..])
  }

  /** The first character of `b` and the number of bytes it occupies, when
      `b` starts with a well-formed sequence; no overlong forms, no
      surrogates, nothing above U+10FFFF. */
  function DecodeFirst(b: seq<byte>): (r: Option<(char, nat)>)
    requires |b| > 0
    ensures r.Some? ==> 1 <= r.value.1 <= |b| && r.value.1 <= 4
  {
    var b0: int := b[0];
    if b0 < 0x80 then Some((b0 as char, 1))
    else if 0xC2 <= b0 <= 0xDF then
      if |b| >= 2 && IsContinuation(b[1]) then
        var b1: int := b[1];
        Some((((b0 - 0xC0) * 0x40 + (b1 - 0x80)) as char, 2))
      else None
    else if 0xE0 <= b0 <= 0xEF then
      var lo := if b0 == 0xE0 then 0xA0 else 0x80;
      var hi := if b0 == 0xED then 0x9F else 0xBF;
      if |b| >= 3 && lo <= b[1] <= hi && IsContinuation(b[2]) then
        var b1: int, b2: int := b[1], b[2];
        Some((((b0 - 0xE0) * 0x1000 + (b1 - 0x80) * 0x40 + (b2 - 0x80)) as char, 3))
      else None
    else if 0xF0 <= b0 <= 0xF4 then
      var lo := if b0 == 0xF0 then 0x90 else 0x80;
      var hi := if b0 == 0xF4 then 0x8F else 0xBF;
      if |b| >= 4 && lo <= b[1] <= hi && IsContinuation(b[2]) && IsContinuation(b[3]) then
        var b1: int, b2: int, b3: int := b[1], b[2], b[3];
        Some((((b0 - 0xF0) * 0x4_0000 + (b1 - 0x80) * 0x1000 + (b2 - 0x80) * 0x40 + (b3 - 0x80)) as char, 4))
      else None
    else None
  }

  /** `String::from_utf8`: the text when every byte belongs to a
      well-formed sequence, `None` otherwise. */
  function Decode(b: seq<byte>): (r: Option<string>)
    decreases |b|
  {
    if b == [] then Some([])
    else match DecodeFirst(b)
      case None => None
      case Some((c, len)) =>
        match Decode(b[len..])
        case None => None
        case Some(rest) => Some([c] + rest)
  }

  lemma DecodeFirstTwo(n: int, rest: seq<byte>)
    requires 0x80 <= n < 0x800
    ensures var q, r := n / 0x40, n % 0x40;
      0xC2 <= 0xC0 + q <= 0xDF && 0 <= r < 0x40
      && DecodeFirst([0xC0 + q, 0x80 + r] + rest) == Some((n as char, 2))
  {
    var q, r := n / 0x40, n % 0x40;
    assert q * 0x40 + r == n;
    var b := [0xC0 + q, 0x80 + r] + rest;
    assert b[0] == 0xC0 + q && b[1] == 0x80 + r;
  }

  lemma DecodeFirstThree(n: int, rest: seq<byte>)
    requires 0x800 <= n < 0x1_0000 && !(0xD800 <= n <= 0xDFFF)
    ensures var q2, q1, q0 := n / 0x1000, (n / 0x40) % 0x40, n % 0x40;
      0xE0 <= 0xE0 + q2 <= 0xEF && 0 <= q1 < 0x40 && 0 <= q0 < 0x40
      && DecodeFirst([0xE0 + q2, 0x80 + q1, 0x80 + q0] + rest) == Some((n as char, 3))
  {
    var q2, q1, q0 := n / 0x1000, (n / 0x40) % 0x40, n % 0x40;
    var m := n / 0x40;
    assert m * 0x40 + q0 == n;
    assert q2 == m / 0x40;
    assert q2 * 0x40 + q1 == m;
    assert q2 * 0x1000 + q1 * 0x40 + q0 == n;
    var b := [0xE0 + q2, 0x80 + q1, 0x80 + q0] + rest;
    assert b[0] == 0xE0 + q2 && b[1] == 0x80 + q1 && b[2] == 0x80 + q0;
  }

  lemma DecodeFirstFour(n: int, rest: seq<byte>)
    requires 0x1_0000 <= n <= 0x10_FFFF
    ensures var q3, q2, q1, q0 := n / 0x4_0000, (n / 0x1000) % 0x40, (n / 0x40) % 0x40, n % 0x40;
      0xF0 <= 0xF0 + q3 <= 0xF4 && 0 <= q2 < 0x40 && 0 <= q1 < 0x40 && 0 <= q0 < 0x40
      && DecodeFirst([0xF0 + q3, 0x80 + q2, 0x80 + q1, 0x80 + q0] + rest) == Some((n as char, 4))
  {
    var q3, q2, q1, q0 := n / 0x4_0000, (n / 0x1000) % 0x40, (n / 0x40) % 0x40, n % 0x40;
    var m1 := n / 0x40;
    var m2 := n / 0x1000;
    assert m1 * 0x40 + q0 == n;
    assert m2 == m1 / 0x40 && m2 * 0x40 + q1 == m1;
    assert q3 == m2 / 0x40 && q3 * 0x40 + q2 == m2;
    assert q3 * 0x4_0000 + q2 * 0x1000 + q1 * 0x40 + q0 == n;
    var b := [0xF0 + q3, 0x80 + q2, 0x80 + q1, 0x80 + q0] + rest;
    assert b[0] == 0xF0 + q3 && b[1] == 0x80 + q2 && b[2] == 0x80 + q1 && b[3] == 0x80 + q0;
  }

  /** Decoding the encoding of a character gives the character back and
      consumes exactly its bytes. */
  lemma DecodeFirstEncodeChar(c: char, rest: seq<byte>)
    ensures DecodeFirst(EncodeChar(c) + rest) == Some((c, |EncodeChar(c)|))
  {
    var n := c as int;
    if n < 0x80 {
      assert (EncodeChar(c) + rest)[0] == n;
    } else if n < 0x800 {
      DecodeFirstTwo(n, rest);
    } else if n < 0x1_0000 {
      DecodeFirstThree(n, rest);
    } else {
      DecodeFirstFour(n, rest);
    }
  }

  /** Every string is valid UTF-8 once encoded, and decodes to itself. */
  lemma {:induction false} DecodeEncode(s: string)
    ensures Decode(Encode(s)) == Some(s)
  {
    if s != [] {
      var e, rest := EncodeChar(s[0]), Encode(s[1..]);
      var b := e + rest;
      assert Encode(s) == b;
      DecodeFirstEncodeChar(s[0], rest);
      assert b[|e|..] == rest;
      DecodeEncode(s[1..]);
      assert [s[0]] + s[1..] == s;
    }
  }

  lemma EncodeCharTwo(b0: int, b1: int)
    requires 0xC2 <= b0 <= 0xDF && 0x80 <= b1 <= 0xBF
    ensures var n := (b0 - 0xC0) * 0x40 + (b1 - 0x80);
      0x80 <= n < 0x800 && 0xC0 + n / 0x40 == b0 && 0x80 + n % 0x40 == b1
  {
  }

  lemma EncodeCharThree(b0: int, b1: int, b2: int)
    requires 0xE0 <= b0 <= 0xEF && 0x80 <= b1 <= 0xBF && 0x80 <= b2 <= 0xBF
    requires b0 == 0xE0 ==> b1 >= 0xA0
    ensures var n := (b0 - 0xE0) * 0x1000 + (b1 - 0x80) * 0x40 + (b2 - 0x80);
      0x800 <= n < 0x1_0000 && 0xE0 + n / 0x1000 == b0
      && 0x80 + (n / 0x40) % 0x40 == b1 && 0x80 + n % 0x40 == b2
  {
    var n := (b0 - 0xE0) * 0x1000 + (b1 - 0x80) * 0x40 + (b2 - 0x80);
    var m := (b0 - 0xE0) * 0x40 + (b1 - 0x80);
    assert n == m * 0x40 + (b2 - 0x80);
    assert n / 0x40 == m;
    assert n / 0x1000 == m / 0x40;
  }

  lemma EncodeCharFour(b0: int, b1: int, b2: int, b3: int)
    requires 0xF0 <= b0 <= 0xF4 && 0x80 <= b1 <= 0xBF && 0x80 <= b2 <= 0xBF && 0x80 <= b3 <= 0xBF
    requires b0 == 0xF0 ==> b1 >= 0x90
    requires b0 == 0xF4 ==> b1 <= 0x8F
    ensures var n := (b0 - 0xF0) * 0x4_0000 + (b1 - 0x80) * 0x1000 + (b2 - 0x80) * 0x40 + (b3 - 0x80);
      0x1_0000 <= n <= 0x10_FFFF && 0xF0 + n / 0x4_0000 == b0 && 0x80 + (n / 0x1000) % 0x40 == b1
      && 0x80 + (n / 0x40) % 0x40 == b2 && 0x80 + n % 0x40 == b3
  {
    var n := (b0 - 0xF0) * 0x4_0000 + (b1 - 0x80) * 0x1000 + (b2 - 0x80) * 0x40 + (b3 - 0x80);
    var m2 := (b0 - 0xF0) * 0x40 + (b1 - 0x80);
    var m1 := m2 * 0x40 + (b2 - 0x80);
    assert n == m1 * 0x40 + (b3 - 0x80);
    assert n / 0x40 == m1;
    assert m1 / 0x40 == m2;
    assert n / 0x1000 == m2;
    assert n / 0x4_0000 == m2 / 0x40;
  }

  /** A well-formed first sequence is the encoding of the character it
      decodes to. */
  lemma EncodeCharDecodeFirst(b: seq<byte>)
    requires |b| > 0 && DecodeFirst(b).Some?
    ensures EncodeChar(DecodeFirst(b).value.0) == b[..DecodeFirst(b).value.1]
  {
    var b0: int := b[0];
    if b0 < 0x80 {
      assert b[..1] == [b[0]];
    } else if b0 <= 0xDF {
      DecodedTwo(b);
    } else if b0 <= 0xEF {
      DecodedThree(b);
    } else {
      DecodedFour(b);
    }
  }

  lemma DecodedTwo(b: seq<byte>)
    requires |b| >= 2 && 0xC2 <= b[0] <= 0xDF && IsContinuation(b[1])
    ensures var n := (b[0] as int - 0xC0) * 0x40 + (b[1] as int - 0x80);
      DecodeFirst(b) == Some((n as char, 2)) && EncodeChar(n as char) == b[..2]
  {
    EncodeCharTwo(b[0], b[1]);
    assert b[..2] == [b[0], b[1]];
  }

  lemma DecodedThree(b: seq<byte>)
    requires |b| >= 3 && 0xE0 <= b[0] <= 0xEF && IsContinuation(b[1]) && IsContinuation(b[2])
    requires b[0] == 0xE0 ==> b[1] >= 0xA0
    requires b[0] == 0xED ==> b[1] <= 0x9F
    ensures var n := (b[0] as int - 0xE0) * 0x1000 + (b[1] as int - 0x80) * 0x40 + (b[2] as int - 0x80);
      DecodeFirst(b) == Some((n as char, 3)) && EncodeChar(n as char) == b[..3]
  {
    EncodeCharThree(b[0], b[1], b[2]);
    assert b[..3] == [b[0], b[1], b[2]];
  }

  lemma DecodedFour(b: seq<byte>)
    requires |b| >= 4 && 0xF0 <= b[0] <= 0xF4 && IsContinuation(b[1]) && IsContinuation(b[2]) && IsContinuation(b[3])
    requires b[0] == 0xF0 ==> b[1] >= 0x90
    requires b[0] == 0xF4 ==> b[1] <= 0x8F
    ensures var n := (b[0] as int - 0xF0) * 0x4_0000 + (b[1] as int - 0x80) * 0x1000 + (b[2] as int - 0x80) * 0x40 + (b[3] as int - 0x80);
      DecodeFirst(b) == Some((n as char, 4)) && EncodeChar(n as char) == b[..4]
  {
    EncodeCharFour(b[0], b[1], b[2], b[3]);
    assert b[..4] == [b[0], b[1], b[2], b[3]];
  }

  /** A decodable input decodes as its first character followed by the
      decoding of the rest. */
  lemma DecodeCons(b: seq<byte>)
    requires b != [] && Decode(b).Some?
    ensures DecodeFirst(b).Some?
    ensures var len := DecodeFirst(b).value.1;
      Decode(b[len..]).Some? && Decode(b) == Some([DecodeFirst(b).value.0] + Decode(b[len..]).value)
  {
  }

  lemma EncodeCons(c: char, rest: string)
    ensures Encode([c] + rest) == EncodeChar(c) + Encode(rest)
  {
    assert ([c] + rest)[1..] == rest;
  }

  /** The bytes `from_utf8` accepts are exactly the encodings of strings:
      whatever decodes, re-encodes to the same bytes. */
  lemma {:induction false} EncodeDecode(b: seq<byte>)
    requires Decode(b).Some?
    ensures Encode(Decode(b).value) == b
    decreases |b|
  {
    if b != [] {
      DecodeCons(b);
      var c, len := DecodeFirst(b).value.0, DecodeFirst(b).value.1;
      var rest := Decode(b[len..]).value;
      EncodeDecode(b[len..]);
      EncodeCharDecodeFirst(b);
      EncodeCons(c, rest);
      assert b == b[..len] + b[len..];
    }
  }

  /** ASCII bytes are their own UTF-8 encoding. */
  lemma {:induction false} EncodeAscii(b: seq<byte>)
    requires IsAscii(b)
    ensures Encode(AsciiString(b)) == b
  {
    if b != [] {
      assert AsciiString(b)[1..] == AsciiString(b[1..]);
      EncodeAscii(b[1..]);
    }
  }
}
