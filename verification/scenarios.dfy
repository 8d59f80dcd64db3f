/** The cases of the unit tests at the end of `src/main.rs`, and the
    failures the tool reports. */
module Scenarios {
  import opened Wrappers
  import opened Text
  import opened YamlValue
  import opened SecretTransform
  import Base64
  import Base64Vectors
  import Utf8
  import Decimal

  /** The string with the code points of ASCII bytes `b`, character by
      character, is the one Rust builds from them. */
  lemma AsciiStringOf(s: string, b: seq<byte>)
    requires |s| == |b|
    requires forall i :: 0 <= i < |b| ==> b[i] < 0x80 && s[i] as int == b[i]
    ensures IsAscii(b) && AsciiString(b) == s
  {
    assert forall i :: 0 <= i < |b| ==> AsciiString(b)[i] == s[i];
  }

  /** An ASCII string is its own UTF-8 encoding, byte for byte. */
  lemma AsciiText(s: string, b: seq<byte>)
    requires IsAscii(b) && AsciiString(b) == s
    ensures Utf8.Encode(s) == b
  {
    Utf8.EncodeAscii(b);
  }

  /** The encoded text of an ASCII string, from the Base64 encoding of its
      bytes. */
  lemma EncodedTextIs(t: string, tb: seq<byte>, e: string, eb: seq<byte>)
    requires IsAscii(tb) && AsciiString(tb) == t && IsAscii(eb) && AsciiString(eb) == e
    requires Base64.Encode(tb) == eb
    ensures EncodedText(t) == e
  {
    AsciiText(t, tb);
    AsciiText(e, eb);
  }

  /** The encoded texts the tests expect for `text`, `123` and `true`. */
  lemma EncodedTextOfText()
    ensures EncodedText("text") == "dGV4dA=="
  {
    Base64Vectors.EncodeText();
    SpelledText();
    EncodedTextIs("text", [0x74, 0x65, 0x78, 0x74], "dGV4dA==", [0x64, 0x47, 0x56, 0x34, 0x64, 0x41, 0x3D, 0x3D]);
  }

  lemma SpelledText()
    ensures IsAscii([0x74, 0x65, 0x78, 0x74]) && AsciiString([0x74, 0x65, 0x78, 0x74]) == "text"
    ensures IsAscii([0x64, 0x47, 0x56, 0x34, 0x64, 0x41, 0x3D, 0x3D]) && AsciiString([0x64, 0x47, 0x56, 0x34, 0x64, 0x41, 0x3D, 0x3D]) == "dGV4dA=="
  {
    AsciiStringOf("text", [0x74, 0x65, 0x78, 0x74]);
    AsciiStringOf("dGV4dA==", [0x64, 0x47, 0x56, 0x34, 0x64, 0x41, 0x3D, 0x3D]);
  }

  lemma EncodedTextOf123()
    ensures EncodedText("123") == "MTIz"
  {
    Base64Vectors.Encode123();
    Spelled123();
    EncodedTextIs("123", [0x31, 0x32, 0x33], "MTIz", [0x4D, 0x54, 0x49, 0x7A]);
  }

  lemma Spelled123()
    ensures IsAscii([0x31, 0x32, 0x33]) && AsciiString([0x31, 0x32, 0x33]) == "123"
    ensures IsAscii([0x4D, 0x54, 0x49, 0x7A]) && AsciiString([0x4D, 0x54, 0x49, 0x7A]) == "MTIz"
  {
    AsciiStringOf("123", [0x31, 0x32, 0x33]);
    AsciiStringOf("MTIz", [0x4D, 0x54, 0x49, 0x7A]);
  }

  lemma EncodedTextOfTrue()
    ensures EncodedText("true") == "dHJ1ZQ=="
  {
    Base64Vectors.EncodeTrue();
    SpelledTrue();
    EncodedTextIs("true", [0x74, 0x72, 0x75, 0x65], "dHJ1ZQ==", [0x64, 0x48, 0x4A, 0x31, 0x5A, 0x51, 0x3D, 0x3D]);
  }

  lemma SpelledTrue()
    ensures IsAscii([0x74, 0x72, 0x75, 0x65]) && AsciiString([0x74, 0x72, 0x75, 0x65]) == "true"
    ensures IsAscii([0x64, 0x48, 0x4A, 0x31, 0x5A, 0x51, 0x3D, 0x3D]) && AsciiString([0x64, 0x48, 0x4A, 0x31, 0x5A, 0x51, 0x3D, 0x3D]) == "dHJ1ZQ=="
  {
    AsciiStringOf("true", [0x74, 0x72, 0x75, 0x65]);
    AsciiStringOf("dHJ1ZQ==", [0x64, 0x48, 0x4A, 0x31, 0x5A, 0x51, 0x3D, 0x3D]);
  }

  /** The three secrets of the tests: a string, a number and a boolean. */
  const Secrets: seq<Entry> :=
    [Entry(Str("STRING"), Str("text")), Entry(Str("NUMBER"), Number(123)), Entry(Str("BOOL"), Bool(true))]

  /** The same secrets under `data`, after encoding. */
  const Base64Secrets: seq<Entry> :=
    [Entry(Str("STRING"), Str("dGV4dA==")), Entry(Str("NUMBER"), Str("MTIz")), Entry(Str("BOOL"), Str("dHJ1ZQ=="))]

  /** The same secrets under `dataString`, after encoding. */
  const TextSecrets: seq<Entry> :=
    [Entry(Str("STRING"), Str("text")), Entry(Str("NUMBER"), Str("123")), Entry(Str("BOOL"), Str("true"))]

  const ApiVersion: Entry := Entry(Str("apiVersion"), Str("v1"))

  /** The texts of the three secrets. */
  lemma TextOfString()
    ensures ToText(Str("text")) == Success("text")
  {
    assert Trimmed("text");
    ToTextString("text");
  }

  lemma TextOfNumber()
    ensures ToText(Number(123)) == Success("123")
  {
    ToTextNumber(123);
    DecimalText123();
  }

  lemma DecimalText123()
    ensures Decimal.IntText(123) == "123"
  {
    assert Decimal.NatText(12) == "12";
  }

  lemma TextOfBool()
    ensures ToText(Bool(true)) == Success("true")
  {
    ToTextBool(true);
  }

  /** A pass over the three secrets with a processor that succeeds on
      each of them. */
  lemma SecretsUpdated(f: Processor, a: Value, b: Value, c: Value)
    requires f(Str("text")) == Success(a)
    requires f(Number(123)) == Success(b)
    requires f(Bool(true)) == Success(c)
    ensures ValuesUpdated(Secrets, f)
         == Success([Entry(Str("STRING"), a), Entry(Str("NUMBER"), b), Entry(Str("BOOL"), c)])
  {
    var r := ValuesUpdated(Secrets, f);
    assert !IsNull(Secrets[0].value) && !IsNull(Secrets[1].value) && !IsNull(Secrets[2].value);
    assert r.Success?;
    assert r.value == [Entry(Str("STRING"), a), Entry(Str("NUMBER"), b), Entry(Str("BOOL"), c)];
  }

  lemma DataOfText()
    ensures DataProcessor(false)(Str("text")) == Success(Str("dGV4dA=="))
  {
    TextOfString();
    EncodedTextOfText();
    DataEncodeText(Str("text"), "text");
  }

  lemma DataOf123()
    ensures DataProcessor(false)(Number(123)) == Success(Str("MTIz"))
  {
    TextOfNumber();
    EncodedTextOf123();
    DataEncodeText(Number(123), "123");
  }

  lemma DataOfTrue()
    ensures DataProcessor(false)(Bool(true)) == Success(Str("dHJ1ZQ=="))
  {
    TextOfBool();
    EncodedTextOfTrue();
    DataEncodeText(Bool(true), "true");
  }

  lemma DataStringOfSecrets()
    ensures DataStringProcessor(false)(Str("text")) == Success(Str("text"))
    ensures DataStringProcessor(false)(Number(123)) == Success(Str("123"))
    ensures DataStringProcessor(false)(Bool(true)) == Success(Str("true"))
  {
    TextOfString();
    TextOfNumber();
    TextOfBool();
    DataStringEncodeText(Str("text"), "text");
    DataStringEncodeText(Number(123), "123");
    DataStringEncodeText(Bool(true), "true");
  }

  lemma DataSecretsEncoded()
    ensures ValuesUpdated(Secrets, DataProcessor(false)) == Success(Base64Secrets)
  {
    DataOfText();
    DataOf123();
    DataOfTrue();
    SecretsUpdated(DataProcessor(false), Str("dGV4dA=="), Str("MTIz"), Str("dHJ1ZQ=="));
  }

  lemma DataStringSecretsEncoded()
    ensures ValuesUpdated(Secrets, DataStringProcessor(false)) == Success(TextSecrets)
  {
    DataStringOfSecrets();
    SecretsUpdated(DataStringProcessor(false), Str("text"), Str("123"), Str("true"));
  }

  /** Every secret of the tests survives the round trip through text. */
  lemma SecretsRoundTrip()
    ensures forall j :: 0 <= j < |Secrets| && !IsNull(Secrets[j].value) ==> RoundTrips(Secrets[j].value)
  {
    assert Trimmed("text");
    assert Decimal.ParseI64("text").None? by {
      assert !Decimal.IsDigit('t');
    }
  }

  /** A document holding `apiVersion` and the given entries. */
  function Document(entries: seq<Entry>): Value {
    Mapping([ApiVersion] + entries)
  }

  /** What each test checks of a pair of documents: encoding the input
      gives the expected document, and decoding that gives the input. */
  predicate EncodesTo(input: Value, expected: Value) {
    Transformed(input, false) == Success(expected) && Transformed(expected, true) == Success(input)
  }

  /** A test passes when the mapping encodes to the expected one and its
      secrets survive the round trip through text. */
  lemma ScenarioHolds(m: seq<Entry>, e: seq<Entry>)
    requires MappingUpdated(m, false) == Success(e)
    requires RoundTripSafe(Mapping(m))
    ensures EncodesTo(Mapping(m), Mapping(e))
  {
    DocumentRoundTrip(Mapping(m));
  }

  /** A pass whose key first appears at `k`, holding an untagged mapping. */
  lemma PassAt(m: seq<Entry>, key: string, k: nat, f: Processor, c: seq<Entry>, c2: seq<Entry>)
    requires k < |m| && m[k] == Entry(Str(key), Mapping(c))
    requires forall j :: 0 <= j < k ==> m[j].key != Str(key)
    requires ValuesUpdated(c, f) == Success(c2)
    ensures KeyMapUpdated(m, key, f) == Success(m[k := Entry(Str(key), Mapping(c2))])
  {
    FindKeyFirst(m, key, k);
  }

  /** The pass over the one secret key of a document. */
  lemma OnlyKeyPass(key: string, f: Processor, c: seq<Entry>, c2: seq<Entry>)
    requires key != "apiVersion"
    requires ValuesUpdated(c, f) == Success(c2)
    ensures KeyMapUpdated([ApiVersion, Entry(Str(key), Mapping(c))], key, f)
         == Success([ApiVersion, Entry(Str(key), Mapping(c2))])
  {
    var m := [ApiVersion, Entry(Str(key), Mapping(c))];
    PassAt(m, key, 1, f, c, c2);
    assert m[1 := Entry(Str(key), Mapping(c2))] == [ApiVersion, Entry(Str(key), Mapping(c2))];
  }

  /** The pass over a key the document does not have. */
  lemma MissingKeyPass(key: string, other: string, f: Processor, c: seq<Entry>)
    requires key != other && other != "apiVersion"
    ensures KeyMapUpdated([ApiVersion, Entry(Str(key), Mapping(c))], other, f)
         == Success([ApiVersion, Entry(Str(key), Mapping(c))])
  {
    assert FindKey([ApiVersion, Entry(Str(key), Mapping(c))], other) == None;
  }

  /** The passes over `data` and `dataString` when both are present. */
  lemma FirstOfTwoPass(c: seq<Entry>, d: seq<Entry>, c2: seq<Entry>, f: Processor)
    requires ValuesUpdated(c, f) == Success(c2)
    ensures KeyMapUpdated([ApiVersion, Entry(Str("data"), Mapping(c)), Entry(Str("dataString"), Mapping(d))], "data", f)
         == Success([ApiVersion, Entry(Str("data"), Mapping(c2)), Entry(Str("dataString"), Mapping(d))])
  {
    var m := [ApiVersion, Entry(Str("data"), Mapping(c)), Entry(Str("dataString"), Mapping(d))];
    PassAt(m, "data", 1, f, c, c2);
    assert m[1 := Entry(Str("data"), Mapping(c2))]
        == [ApiVersion, Entry(Str("data"), Mapping(c2)), Entry(Str("dataString"), Mapping(d))];
  }

  lemma SecondOfTwoPass(c: seq<Entry>, d: seq<Entry>, d2: seq<Entry>, g: Processor)
    requires ValuesUpdated(d, g) == Success(d2)
    ensures KeyMapUpdated([ApiVersion, Entry(Str("data"), Mapping(c)), Entry(Str("dataString"), Mapping(d))], "dataString", g)
         == Success([ApiVersion, Entry(Str("data"), Mapping(c)), Entry(Str("dataString"), Mapping(d2))])
  {
    var m := [ApiVersion, Entry(Str("data"), Mapping(c)), Entry(Str("dataString"), Mapping(d))];
    PassAt(m, "dataString", 2, g, d, d2);
    assert m[2 := Entry(Str("dataString"), Mapping(d2))]
        == [ApiVersion, Entry(Str("data"), Mapping(c)), Entry(Str("dataString"), Mapping(d2))];
  }

  /** The secrets of the tests are safe under `key` in a document. */
  lemma OnlyKeySafe(key: string, c: seq<Entry>)
    requires key == "data" || key == "dataString"
    requires forall j :: 0 <= j < |c| && !IsNull(c[j].value) ==> RoundTrips(c[j].value)
    ensures RoundTripSafe(Mapping([ApiVersion, Entry(Str(key), Mapping(c))]))
  {
    var m := [ApiVersion, Entry(Str(key), Mapping(c))];
    FindKeyFirst(m, key, 1);
    assert FindKey(m, if key == "data" then "dataString" else "data") == None;
  }

  lemma BothKeysSafe(c: seq<Entry>, d: seq<Entry>)
    requires forall j :: 0 <= j < |c| && !IsNull(c[j].value) ==> RoundTrips(c[j].value)
    requires forall j :: 0 <= j < |d| && !IsNull(d[j].value) ==> RoundTrips(d[j].value)
    ensures RoundTripSafe(Mapping([ApiVersion, Entry(Str("data"), Mapping(c)), Entry(Str("dataString"), Mapping(d))]))
  {
    var m := [ApiVersion, Entry(Str("data"), Mapping(c)), Entry(Str("dataString"), Mapping(d))];
    FindKeyFirst(m, "data", 1);
    FindKeyFirst(m, "dataString", 2);
  }

  /** The test `data`: the secrets are Base64-encoded, and decoding the
      expected document gives the input back. */
  lemma DataScenario()
    ensures EncodesTo(Document([Entry(Str("data"), Mapping(Secrets))]),
                      Document([Entry(Str("data"), Mapping(Base64Secrets))]))
  {
    var m := [ApiVersion, Entry(Str("data"), Mapping(Secrets))];
    var e := [ApiVersion, Entry(Str("data"), Mapping(Base64Secrets))];
    assert Document([Entry(Str("data"), Mapping(Secrets))]) == Mapping(m);
    assert Document([Entry(Str("data"), Mapping(Base64Secrets))]) == Mapping(e);
    DataSecretsEncoded();
    OnlyKeyPass("data", DataProcessor(false), Secrets, Base64Secrets);
    MissingKeyPass("data", "dataString", DataStringProcessor(false), Base64Secrets);
    SecretsRoundTrip();
    OnlyKeySafe("data", Secrets);
    ScenarioHolds(m, e);
  }

  /** The test `data_string`: the secrets become their texts, and decoding
      the expected document gives the input back. */
  lemma DataStringScenario()
    ensures EncodesTo(Document([Entry(Str("dataString"), Mapping(Secrets))]),
                      Document([Entry(Str("dataString"), Mapping(TextSecrets))]))
  {
    var m := [ApiVersion, Entry(Str("dataString"), Mapping(Secrets))];
    var e := [ApiVersion, Entry(Str("dataString"), Mapping(TextSecrets))];
    assert Document([Entry(Str("dataString"), Mapping(Secrets))]) == Mapping(m);
    assert Document([Entry(Str("dataString"), Mapping(TextSecrets))]) == Mapping(e);
    DataStringSecretsEncoded();
    MissingKeyPass("dataString", "data", DataProcessor(false), Secrets);
    OnlyKeyPass("dataString", DataStringProcessor(false), Secrets, TextSecrets);
    SecretsRoundTrip();
    OnlyKeySafe("dataString", Secrets);
    ScenarioHolds(m, e);
  }

  /** The test `data_and_data_string`: both keys in one document, each
      encoded its own way. */
  lemma DataAndDataStringScenario()
    ensures EncodesTo(Document([Entry(Str("data"), Mapping(Secrets)), Entry(Str("dataString"), Mapping(Secrets))]),
                      Document([Entry(Str("data"), Mapping(Base64Secrets)), Entry(Str("dataString"), Mapping(TextSecrets))]))
  {
    var m := [ApiVersion, Entry(Str("data"), Mapping(Secrets)), Entry(Str("dataString"), Mapping(Secrets))];
    var e := [ApiVersion, Entry(Str("data"), Mapping(Base64Secrets)), Entry(Str("dataString"), Mapping(TextSecrets))];
    assert Document([Entry(Str("data"), Mapping(Secrets)), Entry(Str("dataString"), Mapping(Secrets))]) == Mapping(m);
    assert Document([Entry(Str("data"), Mapping(Base64Secrets)), Entry(Str("dataString"), Mapping(TextSecrets))])
        == Mapping(e);
    DataSecretsEncoded();
    DataStringSecretsEncoded();
    FirstOfTwoPass(Secrets, Secrets, Base64Secrets, DataProcessor(false));
    SecondOfTwoPass(Base64Secrets, Secrets, TextSecrets, DataStringProcessor(false));
    SecretsRoundTrip();
    BothKeysSafe(Secrets, Secrets);
    ScenarioHolds(m, e);
  }

  /** A nested mapping under `data` has no text: the transformation
      fails, where the program panics. */
  lemma NestedMappingFails()
    ensures Transformed(Document([Entry(Str("data"), Mapping([Entry(Str("NESTED"), Mapping([]))]))]), false)
         == Failure(UnsupportedValue(Mapping([])))
  {
    var m := [ApiVersion, Entry(Str("data"), Mapping([Entry(Str("NESTED"), Mapping([]))]))];
    assert Document([Entry(Str("data"), Mapping([Entry(Str("NESTED"), Mapping([]))]))]) == Mapping(m);
    FindKeyFirst(m, "data", 1);
    assert DataProcessor(false)(Mapping([])) == DataValue(false, Mapping([]));
  }

  /** Decoding text that is not Base64 fails. */
  lemma InvalidBase64Fails()
    ensures DataProcessor(true)(Str("abc")) == Failure(InvalidBase64)
  {
    NotBase64();
    assert Trimmed("abc");
    DataDecodeFails("abc", InvalidBase64);
  }

  /** The `data` decoder fails on a text as decoding that text fails. */
  lemma DataDecodeFails(s: string, e: Error)
    requires Trimmed(s) && DecodedData(s) == Failure(e)
    ensures DataProcessor(true)(Str(s)) == Failure(e)
  {
    ToTextString(s);
    assert DataProcessor(true)(Str(s)) == DataValue(true, Str(s));
  }

  lemma NotBase64()
    ensures DecodedData("abc") == Failure(InvalidBase64)
  {
    assert Utf8.Encode("abc") == [0x61, 0x62, 0x63];
    assert Base64.Decode([0x61, 0x62, 0x63]) == None;
  }

  /** Decoding Base64 of bytes that are not UTF-8 fails. */
  lemma InvalidUtf8Fails()
    ensures DataProcessor(true)(Str("/w==")) == Failure(InvalidUtf8)
  {
    NotUtf8();
    assert Trimmed("/w==");
    DataDecodeFails("/w==", InvalidUtf8);
  }

  lemma NotUtf8()
    ensures DecodedData("/w==") == Failure(InvalidUtf8)
  {
    SlashWBytes();
    DecodeSlashW([0x2F, 0x77, 0x3D, 0x3D]);
    NotUtf8Byte();
  }

  lemma SlashWBytes()
    ensures Utf8.Encode("/w==") == [0x2F, 0x77, 0x3D, 0x3D]
  {
  }

  /** 0xFF starts no UTF-8 sequence. */
  lemma NotUtf8Byte()
    ensures Utf8.Decode([0xFF]) == None
  {
  }

  /** `/w==` is the encoding of the single byte 0xFF. */
  lemma DecodeSlashW(s: seq<byte>)
    requires s == [0x2F, 0x77, 0x3D, 0x3D]
    ensures Base64.Decode(s) == Some([0xFF])
  {
    DecodeLastQuantum(s);
    QuantumSlashW();
  }

  /** Four symbols alone decode as a last quantum. */
  lemma DecodeLastQuantum(s: seq<byte>)
    requires |s| == 4
    ensures Base64.Decode(s) == Base64.DecodeQuantum(s[0], s[1], s[2], s[3], true)
  {
    assert s[4..] == [];
    match Base64.DecodeQuantum(s[0], s[1], s[2], s[3], true)
    case None =>
    case Some(h) =>
      assert h + [] == h;
  }

  lemma QuantumSlashW()
    ensures Base64.DecodeQuantum(0x2F, 0x77, 0x3D, 0x3D, true) == Some([0xFF])
  {
    assert Base64.SextetOf(0x2F) == Some(63);
    assert Base64.SextetOf(0x77) == Some(48);
    assert Base64.SextetOf(0x3D) == None;
    assert Base64.Join(63, 48, 0, 0) == (0xFF, 0, 0);
  }

  /** Null secrets are skipped, and the tags of the document are kept. */
  lemma NullsAndTagsKept()
    ensures Transformed(Tagged("!secret", Document([Entry(Str("data"), Mapping([Entry(Str("EMPTY"), Null)]))])), false)
         == Success(Tagged("!secret", Document([Entry(Str("data"), Mapping([Entry(Str("EMPTY"), Null)]))])))
  {
    var m := [ApiVersion, Entry(Str("data"), Mapping([Entry(Str("EMPTY"), Null)]))];
    assert Document([Entry(Str("data"), Mapping([Entry(Str("EMPTY"), Null)]))]) == Mapping(m);
    NullSkipped(DataProcessor(false));
    OnlyKeyPass("data", DataProcessor(false), [Entry(Str("EMPTY"), Null)], [Entry(Str("EMPTY"), Null)]);
    MissingKeyPass("data", "dataString", DataStringProcessor(false), [Entry(Str("EMPTY"), Null)]);
    assert MappingUpdated(m, false) == Success(m);
  }

  lemma NullSkipped(f: Processor)
    ensures ValuesUpdated([Entry(Str("EMPTY"), Null)], f) == Success([Entry(Str("EMPTY"), Null)])
  {
    var r := ValuesUpdated([Entry(Str("EMPTY"), Null)], f);
    assert IsNull(Null);
    assert r.Success?;
    assert r.value == [Entry(Str("EMPTY"), Null)];
  }
}
