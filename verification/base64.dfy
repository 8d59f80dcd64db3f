/** The "base64" encoding of section 4 of RFC 4648 with the standard
    alphabet and `=` padding, as the `base64` crate's `STANDARD` engine
    applies it: encoding always pads, and decoding accepts only canonical
    input (length a multiple of 4, padding only in the last quantum, unused
    bits of the last symbol zero, no other bytes). */
module Base64 {
  import opened Wrappers
  import opened Text

  /** A 6-bit group. */
  type sextet = x: int | 0 <= x < 64

  /** The pad character `=`. */
  const Pad: byte := 0x3D

  /** Table 1 of RFC 4648: `A`-`Z`, `a`-`z`, `0`-`9`, `+`, `/`. */
  function Symbol(v: sextet): (c: byte)
    ensures c != Pad && c < 0x80
  {
    if v < 26 then 0x41 + v
    else if v < 52 then 0x61 + (v - 26)
    else if v < 62 then 0x30 + (v - 52)
    else if v == 62 then 0x2B
    else 0x2F
  }

  /** The value of an alphabet symbol; `None` for every other byte,
      including the pad. */
  function SextetOf(c: byte): (r: Option<sextet>)
    ensures r.Some? ==> Symbol(r.value) == c
  {
    if 0x41 <= c <= 0x5A then Some(c - 0x41)
    else if 0x61 <= c <= 0x7A then Some(c - 0x61 + 26)
    else if 0x30 <= c <= 0x39 then Some(c - 0x30 + 52)
    else if c == 0x2B then Some(62)
    else if c == 0x2F then Some(63)
    else None
  }

  /** Each symbol names one value: the alphabet is a bijection. */
  lemma SextetOfSymbol(v: sextet)
    ensures SextetOf(Symbol(v)) == Some(v)
  {
  }

  /** Every byte of an encoding is an alphabet symbol or the pad. */
  predicate IsBase64Byte(c: byte) {
    c == Pad || SextetOf(c).Some?
  }

  /** Splits a 24-bit group, given as three bytes, into four 6-bit groups,
      most significant first. */
  function Split(b0: byte, b1: byte, b2: byte): (sextet, sextet, sextet, sextet)
  {
    (b0 / 4, (b0 % 4) * 16 + b1 / 16, (b1 % 16) * 4 + b2 / 64, b2 % 64)
  }

  /** Joins four 6-bit groups back into the three bytes of a 24-bit group. */
  function Join(v0: sextet, v1: sextet, v2: sextet, v3: sextet): (byte, byte, byte)
  {
    (v0 * 4 + v1 / 16, (v1 % 16) * 16 + v2 / 4, (v2 % 4) * 64 + v3)
  }

  /** Division by a power of two splits a number into its high and low
      bits, and only that way. */
  lemma DivMod(q: int, r: int, n: int)
    requires n == 4 || n == 16 || n == 64
    requires 0 <= r < n
    ensures (q * n + r) / n == q && (q * n + r) % n == r
  {
  }

  lemma JoinSplit(b0: byte, b1: byte, b2: byte)
    ensures var (v0, v1, v2, v3) := Split(b0, b1, b2); Join(v0, v1, v2, v3) == (b0, b1, b2)
  {
    var (v0, v1, v2, v3) := Split(b0, b1, b2);
    DivMod(b0 % 4, b1 / 16, 16);
    DivMod(b1 % 16, b2 / 64, 4);
    assert v1 / 16 == b0 % 4 && v1 % 16 == b1 / 16;
    assert v2 / 4 == b1 % 16 && v2 % 4 == b2 / 64;
    assert (b0 / 4) * 4 + b0 % 4 == b0;
    assert (b1 / 16) * 16 + b1 % 16 == b1;
    assert (b2 / 64) * 64 + b2 % 64 == b2;
  }

  lemma SplitJoin(v0: sextet, v1: sextet, v2: sextet, v3: sextet)
    ensures var (b0, b1, b2) := Join(v0, v1, v2, v3); Split(b0, b1, b2) == (v0, v1, v2, v3)
  {
    var (b0, b1, b2) := Join(v0, v1, v2, v3);
    DivMod(v0, v1 / 16, 4);
    DivMod(v1 % 16, v2 / 4, 16);
    DivMod(v2 % 4, v3, 64);
    assert b0 / 4 == v0 && b0 % 4 == v1 / 16;
    assert b1 / 16 == v1 % 16 && b1 % 16 == v2 / 4;
    assert b2 / 64 == v2 % 4 && b2 % 64 == v3;
    assert (v1 / 16) * 16 + v1 % 16 == v1;
    assert (v2 / 4) * 4 + v2 % 4 == v2;
  }

  /** The four symbols of a 24-bit group. */
  function Quantum(b0: byte, b1: byte, b2: byte): seq<byte>
  {
    var (v0, v1, v2, v3) := Split(b0, b1, b2);
    [Symbol(v0), Symbol(v1), Symbol(v2), Symbol(v3)]
  }

  /** Encodes 8-bit groups three at a time into 4 symbols; a final group of
      one or two bytes is completed with zero bits, and the symbols that
      carry only those bits are replaced by the pad. */
  function Encode(b: seq<byte>): (r: seq<byte>)
    ensures |r| == 4 * ((|b| + 2) / 3)
  {
    if |b| == 0 then []
    else if |b| == 1 then Quantum(b[0], 0, 0)[..2] + [Pad, Pad]
    else if |b| == 2 then Quantum(b[0], b[1], 0)[..3] + [Pad]
    else Quantum(b[0], b[1], b[2]) + Encode(b[3..])
  }

  /** Decodes one 4-symbol quantum. Padding is accepted only in the last
      quantum, and only when the bits of the last symbol that fall into
      the padding are zero. */
  function DecodeQuantum(c0: byte, c1: byte, c2: byte, c3: byte, last: bool): (r: Option<seq<byte>>)
    ensures r.Some? ==> 1 <= |r.value| <= 3 && (!last ==> |r.value| == 3)
  {
    match (SextetOf(c0), SextetOf(c1), SextetOf(c2), SextetOf(c3))
    case (Some(v0), Some(v1), Some(v2), Some(v3)) =>
      var (b0, b1, b2) := Join(v0, v1, v2, v3);
      Some([b0, b1, b2])
    case (Some(v0), Some(v1), Some(v2), None) =>
      if last && c3 == Pad && v2 % 4 == 0 then
        var (b0, b1, _) := Join(v0, v1, v2, 0);
        Some([b0, b1])
      else None
    case (Some(v0), Some(v1), None, None) =>
      if last && c2 == Pad && c3 == Pad && v1 % 16 == 0 then
        var (b0, _, _) := Join(v0, v1, 0, 0);
        Some([b0])
      else None
    case _ => None
  }

  /** `STANDARD.decode`: `None` for every input that is not the encoding of
      some byte string. */
  function Decode(s: seq<byte>): (r: Option<seq<byte>>)
    decreases |s|
  {
    if s == [] then Some([])
    else if |s| < 4 then None
    else
      match DecodeQuantum(s[0], s[1], s[2], s[3], |s| == 4)
      case None => None
      case Some(head) =>
        match Decode(s[4..])
        case None => None
        case Some(tail) => Some(head + tail)
  }

  lemma DecodeFullQuantum(b0: byte, b1: byte, b2: byte, last: bool)
    ensures var q := Quantum(b0, b1, b2); DecodeQuantum(q[0], q[1], q[2], q[3], last) == Some([b0, b1, b2])
  {
    var (v0, v1, v2, v3) := Split(b0, b1, b2);
    SextetOfSymbol(v0);
    SextetOfSymbol(v1);
    SextetOfSymbol(v2);
    SextetOfSymbol(v3);
    JoinSplit(b0, b1, b2);
  }

  lemma DecodeTwoByteQuantum(b0: byte, b1: byte)
    ensures var q := Quantum(b0, b1, 0); DecodeQuantum(q[0], q[1], q[2], Pad, true) == Some([b0, b1])
  {
    var (v0, v1, v2, v3) := Split(b0, b1, 0);
    SextetOfSymbol(v0);
    SextetOfSymbol(v1);
    SextetOfSymbol(v2);
    JoinSplit(b0, b1, 0);
  }

  lemma DecodeOneByteQuantum(b0: byte)
    ensures var q := Quantum(b0, 0, 0); DecodeQuantum(q[0], q[1], Pad, Pad, true) == Some([b0])
  {
    var (v0, v1, v2, v3) := Split(b0, 0, 0);
    SextetOfSymbol(v0);
    SextetOfSymbol(v1);
    JoinSplit(b0, 0, 0);
  }

  /** Decoding a quantum followed by more input. */
  lemma DecodeAppend(q: seq<byte>, rest: seq<byte>, head: seq<byte>, tail: seq<byte>)
    requires |q| == 4 && DecodeQuantum(q[0], q[1], q[2], q[3], rest == []) == Some(head)
    requires Decode(rest) == Some(tail)
    ensures Decode(q + rest) == Some(head + tail)
  {
    var s := q + rest;
    assert s[0] == q[0] && s[1] == q[1] && s[2] == q[2] && s[3] == q[3] && s[4..] == rest;
  }

  lemma DecodeEncodeOne(b0: byte)
    ensures Decode(Encode([b0])) == Some([b0])
  {
    var q := Quantum(b0, 0, 0);
    var e := q[..2] + [Pad, Pad];
    assert e == Encode([b0]) && e + [] == e;
    assert e[0] == q[0] && e[1] == q[1] && e[2] == Pad && e[3] == Pad;
    DecodeOneByteQuantum(b0);
    DecodeAppend(e, [], [b0], []);
    assert [b0] + [] == [b0];
  }

  lemma DecodeEncodeTwo(b0: byte, b1: byte)
    ensures Decode(Encode([b0, b1])) == Some([b0, b1])
  {
    var q := Quantum(b0, b1, 0);
    var e := q[..3] + [Pad];
    assert e == Encode([b0, b1]) && e + [] == e;
    assert e[0] == q[0] && e[1] == q[1] && e[2] == q[2] && e[3] == Pad;
    DecodeTwoByteQuantum(b0, b1);
    DecodeAppend(e, [], [b0, b1], []);
    assert [b0, b1] + [] == [b0, b1];
  }

  lemma EncodeCons(b: seq<byte>)
    requires |b| >= 3
    ensures Encode(b) == Quantum(b[0], b[1], b[2]) + Encode(b[3..])
  {
  }

  lemma DecodeQuantumAppend(b: seq<byte>, rest: seq<byte>)
    requires |b| >= 3 && Decode(rest) == Some(b[3..])
    ensures Decode(Quantum(b[0], b[1], b[2]) + rest) == Some(b)
  {
    var q := Quantum(b[0], b[1], b[2]);
    DecodeFullQuantum(b[0], b[1], b[2], rest == []);
    DecodeAppend(q, rest, [b[0], b[1], b[2]], b[3..]);
    assert b == [b[0], b[1], b[2]] + b[3..];
  }

  lemma DecodeEncodeStep(b: seq<byte>)
    requires |b| >= 3 && Decode(Encode(b[3..])) == Some(b[3..])
    ensures Decode(Encode(b)) == Some(b)
  {
    EncodeCons(b);
    DecodeQuantumAppend(b, Encode(b[3..]));
  }

  /** An encoding is ASCII text drawn from the alphabet and the pad. */
  lemma {:induction false} EncodeAlphabet(b: seq<byte>)
    ensures forall i :: 0 <= i < |Encode(b)| ==> Encode(b)[i] < 0x80 && IsBase64Byte(Encode(b)[i])
    decreases |b|
  {
    if |b| >= 3 {
      var (v0, v1, v2, v3) := Split(b[0], b[1], b[2]);
      SextetOfSymbol(v0);
      SextetOfSymbol(v1);
      SextetOfSymbol(v2);
      SextetOfSymbol(v3);
      EncodeAlphabet(b[3..]);
      EncodeCons(b);
    } else if |b| == 2 {
      var (v0, v1, v2, v3) := Split(b[0], b[1], 0);
      SextetOfSymbol(v0);
      SextetOfSymbol(v1);
      SextetOfSymbol(v2);
    } else if |b| == 1 {
      var (v0, v1, v2, v3) := Split(b[0], 0, 0);
      SextetOfSymbol(v0);
      SextetOfSymbol(v1);
    }
  }

  /** Decoding undoes encoding. */
  lemma {:induction false} DecodeEncode(b: seq<byte>)
    ensures Decode(Encode(b)) == Some(b)
    decreases |b|
  {
    if |b| == 0 {
      assert Encode(b) == [];
    } else if |b| == 1 {
      DecodeEncodeOne(b[0]);
      assert [b[0]] == b;
    } else if |b| == 2 {
      DecodeEncodeTwo(b[0], b[1]);
      assert [b[0], b[1]] == b;
    } else {
      DecodeEncode(b[3..]);
      DecodeEncodeStep(b);
    }
  }

  /** A quantum that decodes is the encoding of the bytes it decodes to. */
  lemma EncodeQuantum(c0: byte, c1: byte, c2: byte, c3: byte, last: bool)
    requires DecodeQuantum(c0, c1, c2, c3, last).Some?
    ensures var d := DecodeQuantum(c0, c1, c2, c3, last).value;
      && (|d| == 3 ==> Quantum(d[0], d[1], d[2]) == [c0, c1, c2, c3])
      && (|d| == 2 ==> Quantum(d[0], d[1], 0)[..3] + [Pad] == [c0, c1, c2, c3])
      && (|d| == 1 ==> Quantum(d[0], 0, 0)[..2] + [Pad, Pad] == [c0, c1, c2, c3])
  {
    var v0, v1 := SextetOf(c0).value, SextetOf(c1).value;
    if SextetOf(c3).Some? {
      var v2, v3 := SextetOf(c2).value, SextetOf(c3).value;
      SplitJoin(v0, v1, v2, v3);
    } else if SextetOf(c2).Some? {
      var v2 := SextetOf(c2).value;
      SplitJoin(v0, v1, v2, 0);
    } else {
      SplitJoin(v0, v1, 0, 0);
    }
  }

  /** The last quantum re-encodes to itself. */
  lemma EncodeLastQuantum(s: seq<byte>)
    requires |s| == 4 && DecodeQuantum(s[0], s[1], s[2], s[3], true).Some?
    ensures Encode(DecodeQuantum(s[0], s[1], s[2], s[3], true).value) == s
  {
    var d := DecodeQuantum(s[0], s[1], s[2], s[3], true).value;
    EncodeQuantum(s[0], s[1], s[2], s[3], true);
    assert s == [s[0], s[1], s[2], s[3]];
    if |d| == 3 {
      assert d[3..] == [];
    }
  }

  /** A quantum before more input re-encodes to itself ahead of the
      re-encoded rest. */
  lemma EncodeInnerQuantum(s: seq<byte>, head: seq<byte>, tail: seq<byte>)
    requires |s| > 4 && DecodeQuantum(s[0], s[1], s[2], s[3], false) == Some(head)
    requires Encode(tail) == s[4..]
    ensures Encode(head + tail) == s
  {
    EncodeQuantum(s[0], s[1], s[2], s[3], false);
    var b := head + tail;
    assert b[0] == head[0] && b[1] == head[1] && b[2] == head[2] && b[3..] == tail;
    EncodeCons(b);
    assert s == [s[0], s[1], s[2], s[3]] + s[4..];
  }

  /** Whatever decodes is the encoding of what it decodes to, so decoding
      accepts exactly the encodings: `Decode(s) == Some(b)` iff
      `s == Encode(b)`. */
  lemma {:induction false} EncodeDecode(s: seq<byte>)
    requires Decode(s).Some?
    ensures Encode(Decode(s).value) == s
    decreases |s|
  {
    if s != [] {
      if |s| == 4 {
        EncodeLastQuantum(s);
      } else {
        var head := DecodeQuantum(s[0], s[1], s[2], s[3], false).value;
        EncodeDecode(s[4..]);
        EncodeInnerQuantum(s, head, Decode(s[4..]).value);
      }
    }
  }
}
