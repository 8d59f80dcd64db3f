/** The Secret value transformer: `process_key_map`, `process_mapping` and
    `process_yaml`, with the two closures that `process_mapping` passes for
    the `data` and `dataString` keys. */
module SecretTransform {
  import opened Wrappers
  import opened Text
  import opened YamlValue
  import Base64
  import Utf8

  /** What `process_key_map` applies to each non-null value: a closure that
      rewrites the value or aborts. */
  type Processor = Value -> Result<Value, Error>

  /** The text `BASE64_STANDARD.encode` makes of the UTF-8 bytes of `t`:
      plain Base64 alphabet, so its UTF-8 bytes are the encoding itself. */
  function EncodedText(t: string): (r: string)
    ensures Trimmed(r)
  {
    var e := Base64.Encode(Utf8.Encode(t));
    Base64.EncodeAlphabet(Utf8.Encode(t));
    var r := AsciiString(e);
    assert r != [] ==> r[0] as int == e[0] && r[|r| - 1] as int == e[|e| - 1];
    r
  }

  /** The UTF-8 bytes of the encoded text are the Base64 encoding itself. */
  lemma EncodedTextBytes(t: string)
    ensures Utf8.Encode(EncodedText(t)) == Base64.Encode(Utf8.Encode(t))
  {
    var e := Base64.Encode(Utf8.Encode(t));
    Base64.EncodeAlphabet(Utf8.Encode(t));
    assert IsAscii(e);
    Utf8.EncodeAscii(e);
  }

  /** The decoding half of the `data` closure: Base64-decode the text,
      read the bytes as UTF-8 and reverse-parse the result. */
  function DecodedData(text: string): Result<Value, Error>
  {
    var bytes :- Base64.Decode(Utf8.Encode(text)).ToResult(InvalidBase64);
    var decoded :- Utf8.Decode(bytes).ToResult(InvalidUtf8);
    Success(ReverseParse(decoded))
  }

  /** The `data` closure: the encoded text of the value's text when
      encoding, that text decoded when decoding. */
  function DataValue(decode: bool, v: Value): Result<Value, Error>
  {
    var text :- ToText(v);
    if decode then DecodedData(text)
    else
      Success(Str(EncodedText(text)))
  }

  /** The `dataString` closure: the value's text as a string when encoding,
      its reverse parse when decoding. */
  function DataStringValue(decode: bool, v: Value): Result<Value, Error>
  {
    var text :- ToText(v);
    if decode then Success(ReverseParse(text)) else Success(Str(text))
  }

  function DataProcessor(decode: bool): Processor {
    v => DataValue(decode, v)
  }

  function DataStringProcessor(decode: bool): Processor {
    v => DataStringValue(decode, v)
  }

  /** `Mapping::contains_key` and `Mapping[key]` for a `&str` key: the
      position of the entry whose key is the string `key`. */
  function FindKey(m: seq<Entry>, key: string): (r: Option<nat>)
    ensures r.Some? ==> r.value < |m| && m[r.value].key == Str(key)
    ensures r.Some? ==> forall j :: 0 <= j < r.value ==> m[j].key != Str(key)
    ensures r.None? ==> forall j :: 0 <= j < |m| ==> m[j].key != Str(key)
  {
    if m == [] then None
    else if m[0].key == Str(key) then Some(0)
    else match FindKey(m[1..], key)
      case None => None
      case Some(j) => Some(j + 1)
  }

  /** The entries `values_mut().filter(..).for_each(processor)` leaves:
      each non-null value replaced by what the processor makes of it, the
      first failure (in entry order) aborting the whole pass. */
  function ValuesUpdated(children: seq<Entry>, processor: Processor): (r: Result<seq<Entry>, Error>)
    ensures r.Success? <==>
      forall i :: 0 <= i < |children| && !IsNull(children[i].value) ==> processor(children[i].value).Success?
    ensures r.Success? ==> |r.value| == |children|
    ensures r.Success? ==> forall i :: 0 <= i < |children| ==>
      r.value[i] == if IsNull(children[i].value) then children[i]
                    else Entry(children[i].key, processor(children[i].value).value)
    decreases |children|
  {
    if children == [] then Success([])
    else
      var init, last := children[..|children| - 1], children[|children| - 1];
      var prefix :- ValuesUpdated(init, processor);
      if IsNull(last.value) then Success(prefix + [last])
      else
        var v :- processor(last.value);
        Success(prefix + [Entry(last.key, v)])
  }

  /** `process_key_map` as a function of the entries it starts from. */
  function KeyMapUpdated(m: seq<Entry>, key: string, processor: Processor): Result<seq<Entry>, Error>
  {
    match FindKey(m, key)
    case None => Success(m)
    case Some(i) =>
      var target := Untag(m[i].value);
      if !target.Mapping? then Success(m)
      else
        var children :- ValuesUpdated(target.entries, processor);
        Success(m[i := Entry(m[i].key, Retag(m[i].value, Mapping(children)))])
  }

  /** `process_mapping`: `data` first, then `dataString`. */
  function MappingUpdated(m: seq<Entry>, decode: bool): Result<seq<Entry>, Error>
  {
    var afterData :- KeyMapUpdated(m, "data", DataProcessor(decode));
    KeyMapUpdated(afterData, "dataString", DataStringProcessor(decode))
  }

  /** `process_yaml`: a document that is not a mapping comes back as it
      was. */
  function Transformed(yaml: Value, decode: bool): Result<Value, Error>
  {
    var target := Untag(yaml);
    if !target.Mapping? then Success(yaml)
    else
      var m :- MappingUpdated(target.entries, decode);
      Success(Retag(yaml, Mapping(m)))
  }

  /** A failure among the first `k` entries is the failure of the whole
      pass: nothing after it is looked at. */
  lemma {:induction false} ValuesUpdatedFailurePrefix(children: seq<Entry>, k: nat, processor: Processor)
    requires k <= |children| && ValuesUpdated(children[..k], processor).Failure?
    ensures ValuesUpdated(children, processor) == ValuesUpdated(children[..k], processor)
    decreases |children| - k
  {
    if k < |children| {
      assert children[..k + 1][..k] == children[..k];
      ValuesUpdatedFailurePrefix(children, k + 1, processor);
    } else {
      assert children[..k] == children;
    }
  }

  /** A null entry after a successful prefix is kept as it is. */
  lemma ValuesUpdatedNull(entries: seq<Entry>, j: nat, done: seq<Entry>, processor: Processor)
    requires j < |entries| && ValuesUpdated(entries[..j], processor) == Success(done)
    requires IsNull(entries[j].value)
    ensures ValuesUpdated(entries[..j + 1], processor) == Success(done + [entries[j]])
  {
    assert entries[..j + 1][..j] == entries[..j];
    assert entries[..j + 1][j] == entries[j];
  }

  /** A non-null entry after a successful prefix takes the processor's
      value. */
  lemma ValuesUpdatedValue(entries: seq<Entry>, j: nat, done: seq<Entry>, processor: Processor, v: Value)
    requires j < |entries| && ValuesUpdated(entries[..j], processor) == Success(done)
    requires !IsNull(entries[j].value) && processor(entries[j].value) == Success(v)
    ensures ValuesUpdated(entries[..j + 1], processor) == Success(done + [Entry(entries[j].key, v)])
  {
    assert entries[..j + 1][..j] == entries[..j];
    assert entries[..j + 1][j] == entries[j];
  }

  /** A processor failure after a successful prefix is the failure of the
      whole pass. */
  lemma ValuesUpdatedAbort(entries: seq<Entry>, j: nat, done: seq<Entry>, processor: Processor)
    requires j < |entries| && ValuesUpdated(entries[..j], processor) == Success(done)
    requires !IsNull(entries[j].value) && processor(entries[j].value).Failure?
    ensures ValuesUpdated(entries, processor) == Failure(processor(entries[j].value).error)
  {
    assert entries[..j + 1][..j] == entries[..j];
    assert entries[..j + 1][j] == entries[j];
    ValuesUpdatedFailurePrefix(entries, j + 1, processor);
  }

  /** Moving the boundary between the rewritten prefix and the untouched
      rest one entry forward. */
  lemma Advance(done: seq<Entry>, rest: seq<Entry>, x: Entry)
    requires |rest| > 0
    ensures (done + rest)[|done| := x] == (done + [x]) + rest[1..]
    ensures done + rest == (done + [rest[0]]) + rest[1..]
  {
    assert rest == [rest[0]] + rest[1..];
  }

  /** The loop of `process_key_map` over the entries of the mapping it
      found: each non-null value, in entry order, is replaced by what the
      processor makes of it; the first failure ends the pass. */
  method ProcessValues(entries: seq<Entry>, processor: Processor) returns (r: Result<seq<Entry>, Error>)
    ensures r == ValuesUpdated(entries, processor)
  {
    var children := entries;
    ghost var done: seq<Entry> := [];
    var j := 0;
    while j < |children|
      invariant 0 <= j <= |entries| && |children| == |entries| && |done| == j
      invariant children == done + entries[j..]
      invariant ValuesUpdated(entries[..j], processor) == Success(done)
    {
      Advance(done, entries[j..], Entry(children[j].key, children[j].value));
      assert children[j] == entries[j];
      if IsNull(children[j].value) {
        ValuesUpdatedNull(entries, j, done, processor);
        done := done + [children[j]];
      } else {
        var updated := processor(children[j].value);
        if updated.Failure? {
          ValuesUpdatedAbort(entries, j, done, processor);
          return Failure(updated.error);
        }
        ValuesUpdatedValue(entries, j, done, processor, updated.value);
        Advance(done, entries[j..], Entry(children[j].key, updated.value));
        children := children[j := Entry(children[j].key, updated.value)];
        done := done + [children[j]];
      }
      assert entries[j..][1..] == entries[j + 1..];
      j := j + 1;
    }
    assert entries[..j] == entries;
    assert children == done;
    r := Success(children);
  }

  /** A `serde_yml::Mapping` borrowed mutably, as `process_mapping` and
      `process_key_map` receive it: they rewrite its entries in place. A
      failure stands for a panic, after which the mapping is never looked
      at again, so only the error is stated then. */
  class MappingRef {
    var entries: seq<Entry>

    constructor(entries: seq<Entry>)
      ensures this.entries == entries
    {
      this.entries := entries;
    }

    /** `process_key_map`: finds `key`; when its value is (under any tags)
        a mapping, rewrites that mapping's non-null values one by one, in
        entry order. */
    method ProcessKeyMap(key: string, processor: Processor) returns (outcome: Result<(), Error>)
      modifies this
      ensures KeyMapUpdated(old(entries), key, processor) ==
        if outcome.Success? then Success(entries) else Failure(outcome.error)
    {
      var found := FindKey(entries, key);
      if found.None? {
        return Success(());
      }
      var i := found.value;
      var target := Untag(entries[i].value);
      if !target.Mapping? {
        return Success(());
      }
      var children := ProcessValues(target.entries, processor);
      if children.Failure? {
        return Failure(children.error);
      }
      entries := entries[i := Entry(entries[i].key, Retag(entries[i].value, Mapping(children.value)))];
      outcome := Success(());
    }

    /** `process_mapping`: the pass over `data`, then the pass over
        `dataString`. */
    method ProcessMapping(decode: bool) returns (outcome: Result<(), Error>)
      modifies this
      ensures MappingUpdated(old(entries), decode) ==
        if outcome.Success? then Success(entries) else Failure(outcome.error)
    {
      outcome := ProcessKeyMap("data", DataProcessor(decode));
      if outcome.Failure? {
        return;
      }
      outcome := ProcessKeyMap("dataString", DataStringProcessor(decode));
    }
  }

  /** `process_yaml`: a mapping document (under any tags) has its mapping
      rewritten in place and keeps its tags; any other document comes back
      as it was. */
  method ProcessYaml(yaml: Value, decode: bool) returns (r: Result<Value, Error>)
    ensures r == Transformed(yaml, decode)
    ensures !Untag(yaml).Mapping? ==> r == Success(yaml)
  {
    var target := Untag(yaml);
    if !target.Mapping? {
      return Success(yaml);
    }
    var mapping := new MappingRef(target.entries);
    var outcome := mapping.ProcessMapping(decode);
    if outcome.Failure? {
      return Failure(outcome.error);
    }
    r := Success(Retag(yaml, Mapping(mapping.entries)));
  }

  /** `c2` is `c1` with some non-null values rewritten: the same keys in the
      same order, and every null value left as it was. */
  predicate SameShape(c1: seq<Entry>, c2: seq<Entry>) {
    && |c2| == |c1|
    && forall i :: 0 <= i < |c1| ==> c2[i].key == c1[i].key && (IsNull(c1[i].value) ==> c2[i] == c1[i])
  }

  /** `e2` is `e1`, or `e1` with the mapping under its tags rewritten value
      by value, tags and key kept. */
  predicate ChildrenRewritten(e1: Entry, e2: Entry) {
    e2.key == e1.key &&
    (e2 == e1 ||
     (Untag(e1.value).Mapping? && Untag(e2.value).Mapping? && e2.value == Retag(e1.value, Untag(e2.value))
      && SameShape(Untag(e1.value).entries, Untag(e2.value).entries)))
  }

  /** The lookup finds the first entry with the key. */
  lemma FindKeyFirst(m: seq<Entry>, key: string, k: nat)
    requires k < |m| && m[k].key == Str(key)
    requires forall j :: 0 <= j < k ==> m[j].key != Str(key)
    ensures FindKey(m, key) == Some(k)
  {
  }

  /** The key lookup sees keys only. */
  lemma FindKeySameKeys(m1: seq<Entry>, m2: seq<Entry>, key: string)
    requires |m1| == |m2| && forall j :: 0 <= j < |m1| ==> m1[j].key == m2[j].key
    ensures FindKey(m1, key) == FindKey(m2, key)
  {
    var r1, r2 := FindKey(m1, key), FindKey(m2, key);
    if r1.Some? {
      assert m2[r1.value].key == Str(key);
    }
    if r2.Some? {
      assert m1[r2.value].key == Str(key);
    }
  }

  /** `process_key_map` is a no-op when the key is missing or its value is
      not a mapping. */
  lemma KeyMapNoOp(m: seq<Entry>, key: string, processor: Processor)
    requires FindKey(m, key).None? || !Untag(m[FindKey(m, key).value].value).Mapping?
    ensures KeyMapUpdated(m, key, processor) == Success(m)
  {
  }

  /** A pass over `key` fails exactly when the processor fails on one of
      the non-null values of the mapping found at `key`. */
  lemma KeyMapFailure(m: seq<Entry>, key: string, processor: Processor)
    ensures KeyMapUpdated(m, key, processor).Failure? <==>
      FindKey(m, key).Some? && Untag(m[FindKey(m, key).value].value).Mapping?
      && (exists j :: 0 <= j < |Untag(m[FindKey(m, key).value].value).entries| &&
            var child := Untag(m[FindKey(m, key).value].value).entries[j].value;
            !IsNull(child) && processor(child).Failure?)
  {
  }

  /** A successful pass over `key` changes only values inside the mapping
      found at `key`, never a null one; keys, their order and the length
      stay, and every entry whose key is not `key` is untouched. */
  lemma KeyMapShape(m: seq<Entry>, key: string, processor: Processor)
    requires KeyMapUpdated(m, key, processor).Success?
    ensures var m2 := KeyMapUpdated(m, key, processor).value;
      && |m2| == |m|
      && (forall j :: 0 <= j < |m| ==> ChildrenRewritten(m[j], m2[j]))
      && (forall j :: 0 <= j < |m| && m[j].key != Str(key) ==> m2[j] == m[j])
      && (forall j :: 0 <= j < |m| && FindKey(m, key) != Some(j) ==> m2[j] == m[j])
  {
    match FindKey(m, key)
    case None =>
    case Some(i) =>
      var target := Untag(m[i].value);
      if target.Mapping? {
        var r := ValuesUpdated(target.entries, processor);
        var m2 := m[i := Entry(m[i].key, Retag(m[i].value, Mapping(r.value)))];
        assert ChildrenRewritten(m[i], m2[i]);
      }
  }

  /** A pass over `key` does to other entries exactly what it does to `m`
      when the entry it rewrites is the same in both. */
  lemma KeyMapLocal(m: seq<Entry>, m2: seq<Entry>, key: string, p: Processor)
    requires KeyMapUpdated(m, key, p).Success?
    requires |m2| == |m| && forall j :: 0 <= j < |m| ==> m2[j].key == m[j].key
    requires FindKey(m, key).Some? ==> m2[FindKey(m, key).value] == m[FindKey(m, key).value]
    ensures KeyMapUpdated(m2, key, p) == Success(
      match FindKey(m, key)
      case None => m2
      case Some(i) => m2[i := KeyMapUpdated(m, key, p).value[i]])
  {
    FindKeySameKeys(m, m2, key);
    match FindKey(m, key)
    case None =>
    case Some(i) =>
      if !Untag(m[i].value).Mapping? {
        assert m2[i := m[i]] == m2;
      }
  }

  /** Passes over two different keys touch different entries, so their
      order does not matter when both succeed. */
  lemma KeyMapCommute(m: seq<Entry>, k1: string, k2: string, p1: Processor, p2: Processor)
    requires k1 != k2
    requires KeyMapUpdated(m, k1, p1).Success? && KeyMapUpdated(m, k2, p2).Success?
    ensures KeyMapUpdated(KeyMapUpdated(m, k1, p1).value, k2, p2).Success?
    ensures KeyMapUpdated(KeyMapUpdated(m, k1, p1).value, k2, p2)
         == KeyMapUpdated(KeyMapUpdated(m, k2, p2).value, k1, p1)
  {
    var a, b := KeyMapUpdated(m, k1, p1).value, KeyMapUpdated(m, k2, p2).value;
    KeyMapShape(m, k1, p1);
    KeyMapShape(m, k2, p2);
    KeyMapLocal(m, a, k2, p2);
    KeyMapLocal(m, b, k1, p1);
    var i1, i2 := FindKey(m, k1), FindKey(m, k2);
    if i1.Some? && i2.Some? {
      var i, j := i1.value, i2.value;
      assert a[j := b[j]] == b[i := a[i]];
    }
  }

  /** `g` undoes `f` on `v`, and `f` never produces a null (which `g`
      would skip). */
  predicate Inverts(f: Processor, g: Processor, v: Value) {
    f(v).Success? && !IsNull(f(v).value) && g(f(v).value) == Success(v)
  }

  lemma ValuesRoundTrip(c: seq<Entry>, f: Processor, g: Processor)
    requires forall i :: 0 <= i < |c| && !IsNull(c[i].value) ==> Inverts(f, g, c[i].value)
    ensures ValuesUpdated(c, f).Success?
    ensures ValuesUpdated(ValuesUpdated(c, f).value, g) == Success(c)
  {
    var r2 := ValuesUpdated(c, f);
    assert r2.Success? by {
      forall i | 0 <= i < |c| && !IsNull(c[i].value) ensures f(c[i].value).Success? {
        assert Inverts(f, g, c[i].value);
      }
    }
    var c2 := r2.value;
    forall i | 0 <= i < |c2| && !IsNull(c2[i].value)
      ensures g(c2[i].value) == Success(c[i].value)
    {
      assert Inverts(f, g, c[i].value);
    }
    var r3 := ValuesUpdated(c2, g);
    assert r3.Success?;
    forall i | 0 <= i < |c| ensures r3.value[i] == c[i] {
      if !IsNull(c[i].value) {
        assert Inverts(f, g, c[i].value);
      }
    }
    assert r3.value == c;
  }

  /** `g` undoes `f` on every non-null value of the mapping at `key`. */
  predicate InvertibleUnder(m: seq<Entry>, key: string, f: Processor, g: Processor) {
    match FindKey(m, key)
    case None => true
    case Some(i) =>
      var target := Untag(m[i].value);
      target.Mapping? ==>
        forall j :: 0 <= j < |target.entries| && !IsNull(target.entries[j].value) ==>
          Inverts(f, g, target.entries[j].value)
  }

  /** Rewriting the values under `key` with `f` and then with `g` restores
      the entries when `g` undoes `f` on every non-null value there. */
  lemma KeyMapRoundTrip(m: seq<Entry>, key: string, f: Processor, g: Processor)
    requires InvertibleUnder(m, key, f, g)
    ensures KeyMapUpdated(m, key, f).Success?
    ensures KeyMapUpdated(KeyMapUpdated(m, key, f).value, key, g) == Success(m)
  {
    match FindKey(m, key)
    case None =>
    case Some(i) =>
      var target := Untag(m[i].value);
      if target.Mapping? {
        ValuesRoundTrip(target.entries, f, g);
        var c2 := ValuesUpdated(target.entries, f).value;
        var m2 := m[i := Entry(m[i].key, Retag(m[i].value, Mapping(c2)))];
        assert KeyMapUpdated(m, key, f) == Success(m2);
        assert forall j :: 0 <= j < |m| ==> m2[j].key == m[j].key;
        FindKeySameKeys(m, m2, key);
        RetagRetag(m[i].value, Mapping(c2), target);
        RetagUntag(m[i].value);
        assert m2[i := Entry(m[i].key, Retag(m2[i].value, target))] == m;
      }
  }

  /** Whether `g` undoes `f` on `v`, from what the two compute. */
  lemma InvertsIff(f: Processor, g: Processor, v: Value, e: Value, w: Value)
    requires f(v) == Success(e) && !IsNull(e) && g(e) == Success(w)
    ensures Inverts(f, g, v) <==> w == v
  {
  }

  /** Encoding a `data` value and decoding it back gives the value again
      exactly when its text reverse-parses to it. */
  lemma DataRoundTrip(v: Value)
    ensures Inverts(DataProcessor(false), DataProcessor(true), v) <==> RoundTrips(v)
  {
    ReverseParseToText(v);
    if ToText(v).Success? {
      DataInverts(v, ToText(v).value);
    } else {
      assert DataProcessor(false)(v) == DataValue(false, v);
    }
  }

  /** The `data` decoder undoes the encoder on a value exactly when the
      value's text reverse-parses to it. */
  lemma DataInverts(v: Value, t: string)
    requires ToText(v) == Success(t)
    ensures Inverts(DataProcessor(false), DataProcessor(true), v) <==> ReverseParse(t) == v
  {
    DataEncodeText(v, t);
    if ReverseParse(t) == v {
      DataInvertsWhen(v, t);
    } else if Inverts(DataProcessor(false), DataProcessor(true), v) {
      DataInvertsOnlyWhen(v, t);
    }
  }

  lemma DataInvertsWhen(v: Value, t: string)
    requires DataProcessor(false)(v) == Success(Str(EncodedText(t))) && ReverseParse(t) == v
    ensures Inverts(DataProcessor(false), DataProcessor(true), v)
  {
    DataDecodeEncoded(t);
  }

  lemma DataInvertsOnlyWhen(v: Value, t: string)
    requires DataProcessor(false)(v) == Success(Str(EncodedText(t)))
    requires Inverts(DataProcessor(false), DataProcessor(true), v)
    ensures ReverseParse(t) == v
  {
    DataDecodeEncoded(t);
  }

  /** The `data` encoder replaces a value by the encoded text of its
      text. */
  lemma DataEncodeText(v: Value, t: string)
    requires ToText(v) == Success(t)
    ensures DataProcessor(false)(v) == Success(Str(EncodedText(t)))
  {
    assert DataProcessor(false)(v) == DataValue(false, v);
  }

  /** The `data` decoder turns the encoded text of `t` into `t`
      reverse-parsed. */
  lemma DataDecodeEncoded(t: string)
    ensures DataProcessor(true)(Str(EncodedText(t))) == Success(ReverseParse(t))
  {
    var e := EncodedText(t);
    ToTextString(e);
    assert ToText(Str(e)) == Success(e);
    DecodedDataCharacterised(e, t);
    DataDecodeText(Str(e), e);
  }

  /** The same for `dataString`, whose encoding is the text itself. */
  lemma DataStringRoundTrip(v: Value)
    ensures Inverts(DataStringProcessor(false), DataStringProcessor(true), v) <==> RoundTrips(v)
  {
    ReverseParseToText(v);
    if ToText(v).Success? {
      DataStringInverts(v, ToText(v).value);
    } else {
      assert DataStringProcessor(false)(v) == DataStringValue(false, v);
    }
  }

  lemma DataStringInverts(v: Value, t: string)
    requires ToText(v) == Success(t)
    ensures Inverts(DataStringProcessor(false), DataStringProcessor(true), v) <==> ReverseParse(t) == v
  {
    DataStringEncodeText(v, t);
    DataStringDecodeEncoded(t);
    DataStringInvertsEncoded(v, t, ReverseParse(t));
  }

  /** Whether the `dataString` decoder undoes the encoder on `v`, from
      what the two compute. */
  lemma DataStringInvertsEncoded(v: Value, t: string, w: Value)
    requires DataStringProcessor(false)(v) == Success(Str(t))
    requires DataStringProcessor(true)(Str(t)) == Success(w)
    ensures Inverts(DataStringProcessor(false), DataStringProcessor(true), v) <==> w == v
  {
    var f, g := DataStringProcessor(false), DataStringProcessor(true);
    assert !IsNull(Str(t));
    InvertsIff(f, g, v, Str(t), w);
  }

  /** The `dataString` encoder replaces a value by its text. */
  lemma DataStringEncodeText(v: Value, t: string)
    requires ToText(v) == Success(t)
    ensures DataStringProcessor(false)(v) == Success(Str(t))
  {
    assert DataStringProcessor(false)(v) == DataStringValue(false, v);
  }

  /** The `dataString` decoder replaces any value that has a text by that
      text reverse-parsed: a number or a boolean comes back as itself, a
      string is trimmed before it is parsed. */
  lemma DataStringDecodeText(v: Value, t: string)
    requires ToText(v) == Success(t)
    ensures DataStringProcessor(true)(v) == Success(ReverseParse(t))
  {
    assert DataStringProcessor(true)(v) == DataStringValue(true, v);
  }

  /** The `dataString` decoder turns what the encoder makes of a value,
      its text, into that text reverse-parsed. */
  lemma DataStringDecodeEncoded(t: string)
    requires Trimmed(t)
    ensures DataStringProcessor(true)(Str(t)) == Success(ReverseParse(t))
  {
    ToTextString(t);
    DataStringDecodeText(Str(t), t);
  }

  /** The `data` decoder replaces any value that has a text by what
      decoding that text gives. */
  lemma DataDecodeText(v: Value, t: string)
    requires ToText(v) == Success(t)
    ensures DataProcessor(true)(v) == DecodedData(t)
  {
    assert DataProcessor(true)(v) == DataValue(true, v);
  }

  /** A value without a text (a sequence, a mapping, a tagged value or a
      number outside i64) aborts both closures, in both directions, with
      the error stringification reports. */
  lemma ClosureFails(v: Value, decode: bool)
    requires ToText(v).Failure?
    ensures DataProcessor(decode)(v) == Failure(ToText(v).error)
    ensures DataStringProcessor(decode)(v) == Failure(ToText(v).error)
  {
    assert DataProcessor(decode)(v) == DataValue(decode, v);
    assert DataStringProcessor(decode)(v) == DataStringValue(decode, v);
  }

  /** Decoding `data` text succeeds exactly on the encoded text of some
      string, and gives that string reverse-parsed; any other text is
      invalid Base64 or not UTF-8. */
  lemma DecodedDataCharacterised(text: string, u: string)
    ensures text == EncodedText(u) ==> DecodedData(text) == Success(ReverseParse(u))
    ensures DecodedData(text).Success? ==> exists w :: text == EncodedText(w)
    ensures DecodedData(text) == Failure(InvalidBase64) <==> Base64.Decode(Utf8.Encode(text)).None?
    ensures DecodedData(text) == Failure(InvalidUtf8) <==>
      Base64.Decode(Utf8.Encode(text)).Some? && Utf8.Decode(Base64.Decode(Utf8.Encode(text)).value).None?
    ensures DecodedData(text).Failure? ==>
      DecodedData(text).error == InvalidBase64 || DecodedData(text).error == InvalidUtf8
  {
    if text == EncodedText(u) {
      EncodedTextBytes(u);
      Base64.DecodeEncode(Utf8.Encode(u));
      assert Base64.Decode(Utf8.Encode(text)) == Some(Utf8.Encode(u));
      Utf8.DecodeEncode(u);
    }
    if DecodedData(text).Success? {
      var bytes := Base64.Decode(Utf8.Encode(text)).value;
      var w := Utf8.Decode(bytes).value;
      Base64.EncodeDecode(Utf8.Encode(text));
      Utf8.EncodeDecode(bytes);
      // `text` and `EncodedText(w)` have the same UTF-8 bytes.
      EncodedTextBytes(w);
      Utf8.DecodeEncode(text);
      Utf8.DecodeEncode(EncodedText(w));
      assert text == EncodedText(w);
    }
  }

  /** Every non-null value of the mapping at `key` is one that survives
      the round trip through text. */
  predicate SafeUnder(m: seq<Entry>, key: string) {
    match FindKey(m, key)
    case None => true
    case Some(i) =>
      var target := Untag(m[i].value);
      target.Mapping? ==>
        forall j :: 0 <= j < |target.entries| && !IsNull(target.entries[j].value) ==>
          RoundTrips(target.entries[j].value)
  }

  /** A document whose `data` and `dataString` values all survive the
      round trip through text. */
  predicate RoundTripSafe(doc: Value) {
    Untag(doc).Mapping? ==>
      SafeUnder(Untag(doc).entries, "data") && SafeUnder(Untag(doc).entries, "dataString")
  }

  lemma SafeDataInvertible(m: seq<Entry>)
    requires SafeUnder(m, "data")
    ensures InvertibleUnder(m, "data", DataProcessor(false), DataProcessor(true))
  {
    match FindKey(m, "data")
    case None =>
    case Some(i) =>
      var target := Untag(m[i].value);
      if target.Mapping? {
        forall j | 0 <= j < |target.entries| && !IsNull(target.entries[j].value)
          ensures Inverts(DataProcessor(false), DataProcessor(true), target.entries[j].value)
        {
          DataRoundTrip(target.entries[j].value);
        }
      }
  }

  lemma SafeDataStringInvertible(m: seq<Entry>)
    requires SafeUnder(m, "dataString")
    ensures InvertibleUnder(m, "dataString", DataStringProcessor(false), DataStringProcessor(true))
  {
    match FindKey(m, "dataString")
    case None =>
    case Some(i) =>
      var target := Untag(m[i].value);
      if target.Mapping? {
        forall j | 0 <= j < |target.entries| && !IsNull(target.entries[j].value)
          ensures Inverts(DataStringProcessor(false), DataStringProcessor(true), target.entries[j].value)
        {
          DataStringRoundTrip(target.entries[j].value);
        }
      }
  }

  /** Decoding undoes encoding on the entries of a mapping. */
  lemma MappingRoundTrip(m: seq<Entry>)
    requires SafeUnder(m, "data") && SafeUnder(m, "dataString")
    ensures MappingUpdated(m, false).Success?
    ensures MappingUpdated(MappingUpdated(m, false).value, true) == Success(m)
  {
    var F, F' := DataProcessor(false), DataProcessor(true);
    var S, S' := DataStringProcessor(false), DataStringProcessor(true);
    SafeDataInvertible(m);
    SafeDataStringInvertible(m);
    KeyMapRoundTrip(m, "data", F, F');
    var m1 := KeyMapUpdated(m, "data", F).value;
    KeyMapShape(m, "data", F);
    FindKeySameKeys(m, m1, "dataString");
    assert InvertibleUnder(m1, "dataString", S, S');
    KeyMapRoundTrip(m1, "dataString", S, S');
    var m2 := KeyMapUpdated(m1, "dataString", S).value;
    KeyMapRoundTrip(m, "dataString", S, S');
    KeyMapCommute(m1, "dataString", "data", S, F');
  }

  /** Decoding the encoded document gives back the document, for every
      document whose secret values survive the round trip through text. */
  lemma DocumentRoundTrip(doc: Value)
    requires RoundTripSafe(doc)
    ensures Transformed(doc, false).Success?
    ensures Transformed(Transformed(doc, false).value, true) == Success(doc)
  {
    var target := Untag(doc);
    if target.Mapping? {
      MappingRoundTrip(target.entries);
      var m2 := MappingUpdated(target.entries, false).value;
      RetagRetag(doc, Mapping(m2), target);
      RetagUntag(doc);
    }
  }

  /** What a transformation may change: the document keeps its tags and its
      keys in order, entries other than `data` and `dataString` are
      untouched, and the others only have values inside their mapping
      rewritten, never a null one. */
  lemma TransformIsolation(doc: Value, decode: bool)
    requires Transformed(doc, decode).Success?
    ensures var r := Transformed(doc, decode).value;
      && (Untag(r).Mapping? <==> Untag(doc).Mapping?)
      && r == Retag(doc, Untag(r))
      && (Untag(doc).Mapping? ==>
            var m, m2 := Untag(doc).entries, Untag(r).entries;
            && |m2| == |m|
            && (forall k :: 0 <= k < |m| ==> ChildrenRewritten(m[k], m2[k]))
            && (forall k :: 0 <= k < |m| && m[k].key != Str("data") && m[k].key != Str("dataString") ==>
                  m2[k] == m[k]))
  {
    var target := Untag(doc);
    if !target.Mapping? {
      RetagUntag(doc);
    } else {
      var m := target.entries;
      var F, S := DataProcessor(decode), DataStringProcessor(decode);
      KeyMapShape(m, "data", F);
      var m1 := KeyMapUpdated(m, "data", F).value;
      KeyMapShape(m1, "dataString", S);
      var m2 := KeyMapUpdated(m1, "dataString", S).value;
      FindKeySameKeys(m, m1, "dataString");
      forall k | 0 <= k < |m| ensures ChildrenRewritten(m[k], m2[k]) {
        if FindKey(m, "data") == Some(k) {
          assert m2[k] == m1[k];
        } else {
          assert m1[k] == m[k];
        }
      }
      RetagRetag(doc, Mapping(m2), Mapping(m2));
    }
  }
}
