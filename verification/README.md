# Secret value transformer, modelled in Dafny

A model of the core of a small command-line tool for Kubernetes-style
secret manifests. The tool reads one YAML document and, at the top level,
looks for the keys `data` and `dataString`. When the value under such a
key is a mapping, every non-null value in it is rewritten in place:

- Under `data`, encoding turns the value's text into standard Base64, as
  defined in section 4 of RFC 4648. Decoding reverses this: it decodes the
  Base64, requires the bytes to be UTF-8, and parses the text back into a
  typed scalar.
- Under `dataString`, encoding turns the value into its plain text.
  Decoding parses that text back into a typed scalar.

A `decode` flag selects the direction. Any failure aborts the run with a
panic.

The model covers:

- the YAML value tree, and the two scalar conversions;
- the key traversal, the two closures, and the whole-document pass;
- the libraries whose behaviour these depend on:
  - the Base64 engine, as RFC 4648;
  - UTF-8 encoding and validation;
  - `str::parse::<i64>` and `i64::to_string`;
  - `str::trim`.

Each imperative Rust function becomes a Dafny method that is proved equal
to a specification function. The properties are then proved about those
functions:

- the classification done by the reverse parse;
- the no-op, isolation and null-skipping guarantees of the traversal;
- encode/decode round trips for Base64, UTF-8, each closure and the whole
  document;
- the test vectors and the three unit tests at the end of `src/main.rs`.

Files, each one module:

- `wrappers.dfy`: `Option`/`Result`. The points where the program panics
  become `Failure` values.
- `text.dfy`: bytes, `char::is_whitespace` (the Unicode White_Space
  property), and `trim`.
- `decimal.dfy`: `str::parse::<i64>` as `from_str_radix` computes it, with
  checked accumulation, and `i64::to_string`.
- `utf8.dfy`: `str::as_bytes` and `String::from_utf8`. Validity follows
  table 3-7 of the Unicode Standard (the same as RFC 3629): no overlong
  forms, no surrogates, nothing above U+10FFFF.
- `base64.dfy`: `BASE64_STANDARD`, with padding required and canonical
  decoding (trailing bits must be zero).
- `base64_vectors.dfy`: the vectors of section 10 of RFC 4648, and the
  encodings the unit tests expect.
- `yaml_value.dfy`: the `serde_yml::Value` tree, tags, `string_to_yaml_value`
  and `yaml_value_to_string`.
- `secret_transform.dfy`: `process_key_map`, `process_mapping`,
  `process_yaml`, the two closures, and the round-trip and isolation
  theorems.
- `scenarios.dfy`: the unit tests `data`, `data_string` and
  `data_and_data_string`, plus the failure cases.

Two consequences of the code are easy to miss:

- Decoding reverse-parses `dataString` values too, not only `data` ones.
  So `dataString`, like `data`, round-trips exactly the values of
  `YamlValue.RoundTrips`. A string such as `"123"` or `"true"` comes back
  as a number or a boolean, and a string with surrounding whitespace comes
  back trimmed.
- Stringification fails on tagged values, and on numbers outside the i64
  range, just as it does on sequences and mappings.

## Model

| member | source | states |
|---|---|---|
| YamlValue.ReverseParse | src/main.rs:19-29 | `"null"` gives Null, and `"true"`/`"false"` give the boolean with that truth value. A numeral in the i64 range gives the Number with its value. Every other string gives a String with the same text. Each outcome holds exactly when its condition does. |
| YamlValue.ToText | src/main.rs:31-47 | Succeeds exactly on Null, Bool, String and i64 Number values, and the text never starts or ends with whitespace. A number outside i64 fails with `NotI64` (the `as_i64().unwrap()` panic). A sequence, mapping or tagged value fails with `UnsupportedValue` (the `panic!`). |
| YamlValue.Untag | src/main.rs:55 | The value found under all tags is never itself tagged. It is what `is_null`, `is_mapping` and `as_mapping_mut` look at. |
| YamlValue.Retag | src/main.rs:55 | Writing a value back under a value's tags leaves exactly that value under them. `YamlValue.RetagUntag` and `YamlValue.RetagRetag` state the rest. |
| YamlValue.IsNull | src/main.rs:58 | `is_null`: the value under the tags is Null. A tagged null counts as null, and so is skipped. |
| YamlValue.ToTextNull | src/main.rs:42 | The text of Null is `null`. |
| YamlValue.ToTextBool | src/main.rs:35-41 | The text of a boolean is `true` or `false`. |
| YamlValue.ToTextNumber | src/main.rs:33 | The text of an i64 number is its decimal text. |
| YamlValue.ToTextString | src/main.rs:34 | The text of a string is the string trimmed. |
| YamlValue.IntTextTrimmed | src/main.rs:33 | The decimal text of an integer has no surrounding whitespace, so trimming leaves it as it is. |
| YamlValue.ReverseParseToText | src/main.rs:19-47 | Reverse-parsing a value's text gives the value back if and only if the value is Null, a boolean, an i64 number, or a trimmed string that reads as none of these. |
| YamlValue.RetagUntag | src/main.rs:55 | Writing back, under a value's tags, the value found under them changes nothing. |
| YamlValue.RetagRetag | src/main.rs:55 | A second write under the same tags replaces the first. |
| Decimal.Accumulate | src/main.rs:24 | The checked digit loop succeeds exactly when every character is a digit and the signed value fits in i64. It then yields that value. |
| Decimal.ParseI64 | src/main.rs:24 | `parse::<i64>` succeeds exactly on an optional sign followed by at least one digit whose value is in range, and gives that value. |
| Decimal.NatText | src/main.rs:33 | The digits of a natural number denote it and have no leading zero. |
| Decimal.ParseIntText | src/main.rs:33 | Parsing the text of an i64 gives the number back. |
| Decimal.IntTextShape | src/main.rs:33 | The text of an integer is a minus sign exactly for negative numbers, followed by digits. |
| Decimal.DigitsValueMonotone | src/main.rs:24 | A prefix of a digit string never has a larger value than the whole string. |
| Decimal.IntText | src/main.rs:33 | `i64::to_string` is never empty. `Decimal.ParseIntText` and `Decimal.IntTextShape` state that it parses back to the number and has the shape of a signed numeral. |
| Text.IsWhitespace | src/main.rs:46 | Exactly the 25 code points of the Unicode White_Space property, as `char::is_whitespace` tests them. `trim` drops these and no other characters. |
| Text.TrimStart | src/main.rs:46 | The result is a suffix of the input. Everything dropped is whitespace, and the result does not start with whitespace. |
| Text.TrimEnd | src/main.rs:46 | The result is a prefix of the input. Everything dropped is whitespace, and the result does not end with whitespace. |
| Text.Trim | src/main.rs:46 | The result never starts or ends with whitespace. The input comes back unchanged if and only if it was already trimmed. |
| Text.AsciiString | src/main.rs:75-76 | The string built from ASCII bytes has one character per byte, with the same code points. |
| Utf8.EncodeChar | src/main.rs:75 | A character encodes to one to four bytes. |
| Utf8.Encode | src/main.rs:70 | `as_bytes`: the concatenated encodings of the characters. `Utf8.DecodeEncode` states that the bytes are always valid and decode back to the string. |
| Utf8.DecodeFirst | src/main.rs:71 | A well-formed leading sequence is one to four bytes long and lies within the input. |
| Utf8.Decode | src/main.rs:71 | `String::from_utf8`: `Utf8.DecodeEncode` and `Utf8.EncodeDecode` state that it succeeds exactly on the encodings of strings, and gives back the string encoded. |
| Utf8.DecodeFirstEncodeChar | src/main.rs:71-75 | Decoding the bytes of a character, followed by anything, yields that character and consumes exactly its bytes. |
| Utf8.DecodeEncode | src/main.rs:71-75 | Every string's bytes are valid UTF-8, and they decode back to the string. |
| Utf8.EncodeCharDecodeFirst | src/main.rs:71 | A well-formed leading sequence is exactly the encoding of the character it decodes to. |
| Utf8.DecodeCons | src/main.rs:71 | A valid input decodes to its first character followed by the decoding of the rest. |
| Utf8.EncodeDecode | src/main.rs:71 | Whatever `from_utf8` accepts re-encodes to the same bytes. Together with `Utf8.DecodeEncode`, the valid inputs are exactly the encodings of strings. |
| Utf8.EncodeAscii | src/main.rs:75-76 | ASCII bytes are their own UTF-8 encoding. |
| Base64.Symbol | src/main.rs:75 | Each 6-bit value has an ASCII symbol in the alphabet of Table 1 of RFC 4648, and that symbol is never the pad. |
| Base64.SextetOf | src/main.rs:70 | A byte that decodes to a 6-bit value is that value's symbol. |
| Base64.SextetOfSymbol | src/main.rs:70-75 | Decoding the symbol of a 6-bit value gives the value back. |
| Base64.JoinSplit | src/main.rs:70-75 | Splitting three bytes into four 6-bit groups and joining the groups again gives the bytes back. |
| Base64.SplitJoin | src/main.rs:70-75 | Joining four 6-bit groups and splitting the bytes again gives the groups back. |
| Base64.Encode | src/main.rs:75 | The encoding of n bytes is 4 * ceil(n / 3) symbols long. |
| Base64.DecodeQuantum | src/main.rs:70 | A quantum decodes to one to three bytes. Every quantum except the last decodes to three. |
| Base64.Decode | src/main.rs:70 | `BASE64_STANDARD.decode`: `Base64.DecodeEncode` and `Base64.EncodeDecode` state that it succeeds exactly on encodings, and gives back the bytes encoded. |
| Base64.EncodeAlphabet | src/main.rs:75 | An encoding contains only ASCII alphabet symbols and the pad. |
| Base64.DecodeEncode | src/main.rs:70-75 | Decoding the encoding of any byte string gives the byte string back. |
| Base64.EncodeQuantum | src/main.rs:70 | A quantum that decodes is the encoding of the bytes it decodes to. |
| Base64.EncodeDecode | src/main.rs:70 | Whatever decodes is the encoding of its result. Together with `Base64.DecodeEncode`, `decode` accepts exactly the encodings. |
| Base64Vectors.Rfc4648Empty | src/main.rs:75 | The RFC 4648 vector: "" encodes to "". |
| Base64Vectors.Rfc4648F | src/main.rs:75 | The RFC 4648 vector: "f" encodes to "Zg==". |
| Base64Vectors.Rfc4648Fo | src/main.rs:75 | The RFC 4648 vector: "fo" encodes to "Zm8=". |
| Base64Vectors.Rfc4648Foo | src/main.rs:75 | The RFC 4648 vector: "foo" encodes to "Zm9v". |
| Base64Vectors.Rfc4648Foob | src/main.rs:75 | The RFC 4648 vector: "foob" encodes to "Zm9vYg==". |
| Base64Vectors.Rfc4648Fooba | src/main.rs:75 | The RFC 4648 vector: "fooba" encodes to "Zm9vYmE=". |
| Base64Vectors.Rfc4648Foobar | src/main.rs:75 | The RFC 4648 vector: "foobar" encodes to "Zm9vYmFy". |
| Base64Vectors.Rfc4648Decode | src/main.rs:70 | "Zm9vYmFy" decodes to "foobar". |
| Base64Vectors.Rejects | src/main.rs:70 | These inputs are refused: a partial quantum; padding whose dropped bits are not zero; padding before the end. |
| Base64Vectors.EncodeText | src/main.rs:156 | The bytes of `text` encode to `dGV4dA==`. |
| Base64Vectors.Encode123 | src/main.rs:157 | The bytes of `123` encode to `MTIz`. |
| Base64Vectors.EncodeTrue | src/main.rs:158 | The bytes of `true` encode to `dHJ1ZQ==`. |
| SecretTransform.EncodedText | src/main.rs:75-76 | The encoded string has no surrounding whitespace. |
| SecretTransform.EncodedTextBytes | src/main.rs:75-76 | The UTF-8 bytes of the encoded string are exactly the Base64 encoding of the text's bytes. |
| SecretTransform.DecodedData | src/main.rs:70-72 | Decoding a text. `SecretTransform.DecodedDataCharacterised` states that it fails with `InvalidBase64` exactly when the text's bytes are not Base64, with `InvalidUtf8` exactly when the decoded bytes are not UTF-8, and otherwise gives the reverse parse of the decoded string. |
| SecretTransform.DataValue | src/main.rs:66-79 | The `data` closure. `SecretTransform.ClosureFails`, `SecretTransform.DataEncodeText` and `SecretTransform.DataDecodeText` state what it does to any value in each direction. |
| SecretTransform.DataStringValue | src/main.rs:80-90 | The `dataString` closure. `SecretTransform.ClosureFails`, `SecretTransform.DataStringEncodeText` and `SecretTransform.DataStringDecodeText` state what it does to any value in each direction. |
| SecretTransform.DataProcessor | src/main.rs:66 | The closure passed for `data`, capturing only `decode`. It applies `SecretTransform.DataValue`. |
| SecretTransform.DataStringProcessor | src/main.rs:80 | The closure passed for `dataString`, capturing only `decode`. It applies `SecretTransform.DataStringValue`. |
| SecretTransform.FindKey | src/main.rs:54-55 | The lookup finds the first entry whose key is the string `key`, or reports that no entry has that key. |
| SecretTransform.FindKeyFirst | src/main.rs:54-55 | The first entry with the key is the one found. |
| SecretTransform.FindKeySameKeys | src/main.rs:54-55 | Two mappings with the same keys in the same order give the same lookup result. |
| SecretTransform.ValuesUpdated | src/main.rs:56-59 | The pass succeeds exactly when the processor succeeds on every non-null value. On success, the length is kept, null entries are kept as they are, and every other entry keeps its key and gets the processor's result. |
| SecretTransform.ValuesUpdatedFailurePrefix | src/main.rs:56-59 | The first failure, in entry order, is the failure of the whole pass. |
| SecretTransform.ValuesUpdatedNull | src/main.rs:58 | A null value is skipped by the loop. |
| SecretTransform.ValuesUpdatedValue | src/main.rs:59 | A non-null value takes the processor's result. |
| SecretTransform.ValuesUpdatedAbort | src/main.rs:59 | A processor failure aborts the whole pass with that error. |
| SecretTransform.ProcessValues | src/main.rs:56-59 | The loop over `values_mut()` gives exactly `ValuesUpdated`: each non-null value is rewritten in entry order, and the first failure ends it. |
| SecretTransform.KeyMapUpdated | src/main.rs:49-63 | `process_key_map` on the entries. `SecretTransform.KeyMapNoOp`, `SecretTransform.KeyMapFailure`, `SecretTransform.KeyMapShape` and `SecretTransform.KeyMapLocal` state its behaviour, and `SecretTransform.MappingRef.ProcessKeyMap` is proved equal to it. |
| SecretTransform.MappingUpdated | src/main.rs:65-91 | `process_mapping` on the entries: `data` first, then `dataString`, and the first failure ends it. `SecretTransform.MappingRoundTrip` and `SecretTransform.MappingRef.ProcessMapping` are stated against it. |
| SecretTransform.Transformed | src/main.rs:93-98 | `process_yaml` on the value tree. `SecretTransform.DocumentRoundTrip` and `SecretTransform.TransformIsolation` state its behaviour, and `SecretTransform.ProcessYaml` is proved equal to it. |
| SecretTransform.MappingRef.ProcessKeyMap | src/main.rs:49-63 | The borrowed mapping's new entries, or the failure, are exactly those `KeyMapUpdated` gives for the old entries. |
| SecretTransform.MappingRef.ProcessMapping | src/main.rs:65-91 | The pass over `data` and then `dataString` leaves exactly what `MappingUpdated` gives for the old entries, or its failure. |
| SecretTransform.ProcessYaml | src/main.rs:93-98 | The result is exactly `Transformed`. A document that is not a mapping under its tags comes back unchanged. |
| SecretTransform.KeyMapNoOp | src/main.rs:54-62 | A missing key, or a key whose value is not a mapping, leaves the entries as they were. |
| SecretTransform.KeyMapFailure | src/main.rs:49-63 | A pass fails if and only if the key holds a mapping, under its tags, and the processor fails on one of that mapping's non-null values. |
| SecretTransform.KeyMapShape | src/main.rs:49-63 | A successful pass keeps the length and keys of the top-level entries. Only the value inside the mapping found at `key` changes: keys, order and tags are kept there, and null values are untouched. Every other entry is unchanged. |
| SecretTransform.KeyMapLocal | src/main.rs:49-63 | A pass rewrites the entry it finds in the same way, whatever the other entries hold. |
| SecretTransform.KeyMapCommute | src/main.rs:65-90 | When the passes over two different keys both succeed, running them in either order gives the same entries. |
| SecretTransform.ValuesRoundTrip | src/main.rs:56-59 | If `g` undoes `f` on every non-null value, a pass with `f` and then one with `g` restores the entries. |
| SecretTransform.KeyMapRoundTrip | src/main.rs:49-63 | If `g` undoes `f` on every non-null value under `key`, the two passes over `key` restore the document's entries. |
| SecretTransform.DataRoundTrip | src/main.rs:66-79 | The `data` decoder undoes the encoder on a value if and only if the value is one that `YamlValue.RoundTrips` accepts. |
| SecretTransform.DataInverts | src/main.rs:66-79 | The `data` decoder undoes the encoder on a value if and only if the value's text reverse-parses to the value. |
| SecretTransform.DataEncodeText | src/main.rs:74-77 | Encoding replaces a value by the Base64 of its text's UTF-8 bytes, as a string. |
| SecretTransform.DataDecodeText | src/main.rs:69-73 | Decoding replaces any value that has a text by what decoding that text gives: a number or a boolean is decoded through its text, a string through its trimmed text. |
| SecretTransform.DataDecodeEncoded | src/main.rs:69-73 | Decoding the encoded text of `t` gives the reverse parse of `t`. |
| SecretTransform.DecodedDataCharacterised | src/main.rs:69-73 | Decoding succeeds exactly on encoded texts, and gives the reverse parse of the encoded string. Any other text fails: with `InvalidBase64` exactly when its bytes are not Base64, and with `InvalidUtf8` exactly when they are but the decoded bytes are not UTF-8. |
| SecretTransform.DataStringRoundTrip | src/main.rs:80-90 | The `dataString` decoder undoes the encoder on a value if and only if the value is one that `YamlValue.RoundTrips` accepts. |
| SecretTransform.DataStringInverts | src/main.rs:80-90 | The `dataString` decoder undoes the encoder on a value if and only if the value's text reverse-parses to the value. |
| SecretTransform.DataStringEncodeText | src/main.rs:86-88 | Encoding replaces a value by its text, as a string. |
| SecretTransform.DataStringDecodeText | src/main.rs:81-84 | Decoding replaces any value that has a text by the reverse parse of that text: a number or a boolean comes back as itself, and a string is trimmed before it is parsed. |
| SecretTransform.DataStringDecodeEncoded | src/main.rs:81-88 | Decoding what the encoder makes of a value, its text, gives the reverse parse of that text. |
| SecretTransform.DataStringInvertsEncoded | src/main.rs:80-90 | The decoder undoes the encoder on a value exactly when decoding the encoded text gives the value. |
| SecretTransform.ClosureFails | src/main.rs:66-90 | A value without a text (a sequence, a mapping, a tagged value, or a number outside i64) makes both closures fail, in both directions, with the error stringification reports. |
| SecretTransform.SafeDataInvertible | src/main.rs:66-79 | If every value under `data` round-trips through text, the `data` decoder undoes the encoder on all of them. |
| SecretTransform.SafeDataStringInvertible | src/main.rs:80-90 | The same for `dataString`. |
| SecretTransform.MappingRoundTrip | src/main.rs:65-91 | If the values under `data` and `dataString` round-trip through text, encoding succeeds and decoding gives back the entries. |
| SecretTransform.DocumentRoundTrip | src/main.rs:93-98 | Under the same condition, encoding a whole document succeeds, and decoding the result gives back the document, tags included. |
| SecretTransform.TransformIsolation | src/main.rs:93-98 | A successful run in either direction keeps the document's tags, whether it is a mapping, and its length and keys. Values change only inside the mappings under `data` and `dataString`, and null values are never changed. Every other entry is untouched. |
| Scenarios.EncodedTextOfText | src/main.rs:156 | The encoded text of `text` is `dGV4dA==`. |
| Scenarios.EncodedTextOf123 | src/main.rs:157 | The encoded text of `123` is `MTIz`. |
| Scenarios.EncodedTextOfTrue | src/main.rs:158 | The encoded text of `true` is `dHJ1ZQ==`. |
| Scenarios.TextOfNumber | src/main.rs:151 | The text of the number 123 is `123`. |
| Scenarios.DataSecretsEncoded | src/main.rs:146-160 | Encoding under `data` turns the three secrets into the expected Base64 strings. |
| Scenarios.DataStringSecretsEncoded | src/main.rs:164-178 | Encoding under `dataString` turns the three secrets into their texts. |
| Scenarios.SecretsRoundTrip | src/main.rs:150-152 | The three secrets round-trip through text. |
| Scenarios.ScenarioHolds | src/main.rs:128-143 | What each test checks: if a mapping encodes to the expected one and its secrets round-trip, then the expected document decodes back to the input. |
| Scenarios.DataScenario | src/main.rs:145-161 | The test `data`: the document encodes to the expected one, and that decodes back to the input. |
| Scenarios.DataStringScenario | src/main.rs:163-179 | The test `data_string`, in the same form. |
| Scenarios.DataAndDataStringScenario | src/main.rs:181-205 | The test `data_and_data_string`, with both keys in one document. |
| Scenarios.NestedMappingFails | src/main.rs:43 | A nested mapping under `data` makes encoding fail with `UnsupportedValue`. |
| Scenarios.InvalidBase64Fails | src/main.rs:70 | Decoding `abc` under `data` fails with `InvalidBase64`. |
| Scenarios.InvalidUtf8Fails | src/main.rs:71 | Decoding `/w==` (the byte 0xFF) under `data` fails with `InvalidUtf8`. |
| Scenarios.DecodeSlashW | src/main.rs:70 | `/w==` is the Base64 of the single byte 0xFF. |
| Scenarios.NullsAndTagsKept | src/main.rs:58 | A null secret is skipped, and a tagged document keeps its tag. |

## Left out

- `main` and `Args`: command-line parsing, reading the input from stdin or
  a file, and writing the output are I/O. The model starts from the parsed
  value tree and ends with the transformed one.
- YAML text: `serde_yml`'s parser and serialiser are not part of this
  model. The tests compare serialised text; here they are stated on value
  trees, and quoting and formatting are not modelled.
- Floating-point numbers: `Number` holds an integer. A number outside the
  i64 range stands for every number on which `as_i64()` gives `None`,
  including floats. All of them fail with `NotI64`.
- Panics are modelled as `Failure` results carrying an error kind. The
  diagnostic text, and the partly rewritten mapping a panic leaves behind,
  are not modelled, since the program never uses them.
- SecretTransform.MappingRef.ProcessKeyMap: on failure, its contract
  states only the error, not the contents of the mapping.
- SecretTransform.MappingRef.ProcessMapping: on failure, its contract
  states only the error, not the contents of the mapping.
- In-place rewriting of the nested mapping through `values_mut()` is
  modelled on values. The loop rewrites a sequence of entries, and the
  finished sequence is stored back into the borrowed mapping. Rust's
  borrowing rules rule out aliasing, so nothing else can observe the
  difference.
- The closures are `FnMut`, but they capture only the `decode` flag. They
  are modelled as pure functions from a value to a result.
- Mapping internals: `serde_yml::Mapping` is an insertion-ordered hash map
  with unique keys. The model holds its entries as an ordered sequence.
  Lookup by a `&str` key finds the first entry whose key is that string.
  Key uniqueness is not enforced, and hashing is not modelled.
