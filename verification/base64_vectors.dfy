/** Concrete encodings: the test vectors of section 10 of RFC 4648, and
    the Base64 forms of the secrets `text`, `123` and `true` that the unit
    tests at the end of `src/main.rs` expect. */
module Base64Vectors {
  import opened Wrappers
  import opened Text
  import opened Base64

  /** One byte encodes as two symbols and two pads. */
  lemma EncodeOne(b: seq<byte>, v0: sextet, v1: sextet)
    requires |b| == 1 && v0 == b[0] / 4 && v1 == b[0] % 4 * 16
    ensures Encode(b) == [Symbol(v0), Symbol(v1), Pad, Pad]
  {
  }

  /** Two bytes encode as three symbols and one pad. */
  lemma EncodeTwo(b: seq<byte>, v0: sextet, v1: sextet, v2: sextet)
    requires |b| == 2 && v0 == b[0] / 4 && v1 == b[0] % 4 * 16 + b[1] / 16 && v2 == b[1] % 16 * 4
    ensures Encode(b) == [Symbol(v0), Symbol(v1), Symbol(v2), Pad]
  {
  }

  /** Three leading bytes encode as the four symbols of their 6-bit
      groups, before the rest. */
  lemma EncodeGroup(b: seq<byte>, rest: seq<byte>, v0: sextet, v1: sextet, v2: sextet, v3: sextet)
    requires |b| >= 3 && rest == b[3..] && Split(b[0], b[1], b[2]) == (v0, v1, v2, v3)
    ensures Encode(b) == [Symbol(v0), Symbol(v1), Symbol(v2), Symbol(v3)] + Encode(rest)
  {
    EncodeCons(b);
  }

  /** The symbols the vectors of RFC 4648 use, from Table 1. */
  lemma RfcSymbols()
    ensures Symbol(4) == 0x45 && Symbol(5) == 0x46 && Symbol(24) == 0x59 && Symbol(25) == 0x5A
    ensures Symbol(32) == 0x67 && Symbol(38) == 0x6D && Symbol(47) == 0x76 && Symbol(50) == 0x79
    ensures Symbol(60) == 0x38 && Symbol(61) == 0x39
  {
  }

  /** Section 10 of RFC 4648: "" encodes to "". */
  lemma Rfc4648Empty()
    ensures Encode([]) == []
  {
  }

  /** "f" (0x66) encodes to "Zg==". */
  lemma Rfc4648F()
    ensures Encode([0x66]) == [0x5A, 0x67, 0x3D, 0x3D]
  {
    EncodeOne([0x66], 25, 32);
    RfcSymbols();
  }

  /** "fo" encodes to "Zm8=". */
  lemma Rfc4648Fo()
    ensures Encode([0x66, 0x6F]) == [0x5A, 0x6D, 0x38, 0x3D]
  {
    EncodeTwo([0x66, 0x6F], 25, 38, 60);
    RfcSymbols();
  }

  /** "foo" encodes to "Zm9v". */
  lemma Rfc4648Foo()
    ensures Encode([0x66, 0x6F, 0x6F]) == [0x5A, 0x6D, 0x39, 0x76]
  {
    EncodeGroup([0x66, 0x6F, 0x6F], [], 25, 38, 61, 47);
    RfcSymbols();
  }

  /** "foob" encodes to "Zm9vYg==". */
  lemma Rfc4648Foob()
    ensures Encode([0x66, 0x6F, 0x6F, 0x62]) == [0x5A, 0x6D, 0x39, 0x76, 0x59, 0x67, 0x3D, 0x3D]
  {
    EncodeGroup([0x66, 0x6F, 0x6F, 0x62], [0x62], 25, 38, 61, 47);
    EncodeOne([0x62], 24, 32);
    RfcSymbols();
  }

  /** "fooba" encodes to "Zm9vYmE=". */
  lemma Rfc4648Fooba()
    ensures Encode([0x66, 0x6F, 0x6F, 0x62, 0x61]) == [0x5A, 0x6D, 0x39, 0x76, 0x59, 0x6D, 0x45, 0x3D]
  {
    EncodeGroup([0x66, 0x6F, 0x6F, 0x62, 0x61], [0x62, 0x61], 25, 38, 61, 47);
    EncodeTwo([0x62, 0x61], 24, 38, 4);
    RfcSymbols();
  }

  /** "foobar" encodes to "Zm9vYmFy". */
  lemma Rfc4648Foobar()
    ensures Encode([0x66, 0x6F, 0x6F, 0x62, 0x61, 0x72]) == [0x5A, 0x6D, 0x39, 0x76, 0x59, 0x6D, 0x46, 0x79]
  {
    EncodeGroup([0x66, 0x6F, 0x6F, 0x62, 0x61, 0x72], [0x62, 0x61, 0x72], 25, 38, 61, 47);
    EncodeGroup([0x62, 0x61, 0x72], [], 24, 38, 5, 50);
    RfcSymbols();
  }

  /** "Zm9vYmFy" decodes to "foobar". */
  lemma Rfc4648Decode()
    ensures Decode([0x5A, 0x6D, 0x39, 0x76, 0x59, 0x6D, 0x46, 0x79]) == Some([0x66, 0x6F, 0x6F, 0x62, 0x61, 0x72])
  {
    Rfc4648Foobar();
    DecodeEncode([0x66, 0x6F, 0x6F, 0x62, 0x61, 0x72]);
  }

  /** The decoder refuses "Zm9" (not a whole quantum), "Zh==" (bits after
      the last byte that are not zero) and "Zg==Zg==" (padding before the
      end). */
  lemma Rejects()
    ensures Decode([0x5A, 0x6D, 0x39]) == None
    ensures Decode([0x5A, 0x68, 0x3D, 0x3D]) == None
    ensures Decode([0x5A, 0x67, 0x3D, 0x3D, 0x5A, 0x67, 0x3D, 0x3D]) == None
  {
    assert SextetOf(0x5A) == Some(25);
    assert SextetOf(0x68) == Some(33);
    assert SextetOf(0x67) == Some(32);
    assert SextetOf(0x3D) == None;
  }

  /** The symbols of the encodings the unit tests expect. */
  lemma TestSymbols()
    ensures Symbol(0) == 0x41 && Symbol(6) == 0x47 && Symbol(7) == 0x48 && Symbol(8) == 0x49
    ensures Symbol(9) == 0x4A && Symbol(12) == 0x4D && Symbol(16) == 0x51 && Symbol(19) == 0x54
    ensures Symbol(21) == 0x56 && Symbol(25) == 0x5A && Symbol(29) == 0x64 && Symbol(51) == 0x7A
    ensures Symbol(53) == 0x31 && Symbol(56) == 0x34
  {
  }

  /** "text" encodes to "dGV4dA==". */
  lemma EncodeText()
    ensures Encode([0x74, 0x65, 0x78, 0x74]) == [0x64, 0x47, 0x56, 0x34, 0x64, 0x41, 0x3D, 0x3D]
  {
    EncodeGroup([0x74, 0x65, 0x78, 0x74], [0x74], 29, 6, 21, 56);
    EncodeOne([0x74], 29, 0);
    TestSymbols();
  }

  /** "123" encodes to "MTIz". */
  lemma Encode123()
    ensures Encode([0x31, 0x32, 0x33]) == [0x4D, 0x54, 0x49, 0x7A]
  {
    EncodeGroup([0x31, 0x32, 0x33], [], 12, 19, 8, 51);
    TestSymbols();
  }

  /** "true" encodes to "dHJ1ZQ==". */
  lemma EncodeTrue()
    ensures Encode([0x74, 0x72, 0x75, 0x65]) == [0x64, 0x48, 0x4A, 0x31, 0x5A, 0x51, 0x3D, 0x3D]
  {
    EncodeGroup([0x74, 0x72, 0x75, 0x65], [0x65], 29, 7, 9, 53);
    EncodeOne([0x65], 25, 16);
    TestSymbols();
  }
}
