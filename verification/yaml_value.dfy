/** The generic YAML value tree (`serde_yml::Value`) and the two scalar
    conversions of the tool: `string_to_yaml_value` (here ReverseParse) and
    `yaml_value_to_string` (here ToText). */
module YamlValue {
  import opened Wrappers
  import opened Text
  import opened Decimal

  /** A YAML node. Numbers are integers (see README, "Left out"); a mapping
      keeps its entries in insertion order, as `serde_yml::Mapping` does. */
  datatype Value =
    | Null
    | Bool(flag: bool)
    | Number(num: int)
    | Str(text: string)
    | Sequence(items: seq<Value>)
    | Mapping(entries: seq<Entry>)
    | Tagged(tag: string, inner: Value)

  datatype Entry = Entry(key: Value, value: Value)

  /** The ways the tool aborts. */
  datatype Error =
    | UnsupportedValue(value: Value)  // `panic!("Invalid value ..")` on a non-scalar
    | NotI64(number: int)             // `as_i64().unwrap()` on a number outside i64
    | InvalidBase64                   // `BASE64_STANDARD.decode(..).unwrap()`
    | InvalidUtf8                     // `String::from_utf8(..).unwrap()`

  predicate IsScalar(v: Value) {
    v.Null? || v.Bool? || v.Number? || v.Str?
  }

  /** The value under all tags, as serde_yml's `untag_ref` finds it; the
      accessors `is_null`, `is_mapping` and `as_mapping_mut` look through
      tags this way. */
  function Untag(v: Value): (r: Value)
    ensures !r.Tagged?
  {
    if v.Tagged? then Untag(v.inner) else v
  }

  /** `v` with the value under its tags replaced by `inner`, the tags kept:
      what a write through `as_mapping_mut` leaves behind. */
  function Retag(v: Value, inner: Value): (r: Value)
    requires !inner.Tagged?
    ensures Untag(r) == inner
  {
    if v.Tagged? then Tagged(v.tag, Retag(v.inner, inner)) else inner
  }

  /** Rewriting under the tags with what is already there changes nothing. */
  lemma {:induction false} RetagUntag(v: Value)
    ensures Retag(v, Untag(v)) == v
  {
    if v.Tagged? {
      RetagUntag(v.inner);
    }
  }

  /** A second rewrite under the same tags replaces the first. */
  lemma {:induction false} RetagRetag(v: Value, x: Value, y: Value)
    requires !x.Tagged? && !y.Tagged?
    ensures Retag(Retag(v, x), y) == Retag(v, y)
  {
    if v.Tagged? {
      RetagRetag(v.inner, x, y);
    }
  }

  /** serde_yml's `Value::is_null`. */
  predicate IsNull(v: Value) {
    Untag(v).Null?
  }

  /** `string_to_yaml_value`: `"null"` is Null, `"true"` and `"false"` are
      booleans, an in-range integer numeral is a Number, and every other
      string stays a string with the same text. */
  function ReverseParse(s: string): (r: Value)
    ensures IsScalar(r)
    ensures r.Null? <==> s == "null"
    ensures r.Bool? <==> s == "true" || s == "false"
    ensures r.Bool? ==> (r.flag <==> s == "true")
    ensures r.Number? <==> IsNumeral(s) && IsI64(NumeralValue(s))
    ensures r.Number? ==> r.num == NumeralValue(s)
    ensures r.Str? ==> r.text == s
  {
    if s == "null" then Null
    else if s == "true" || s == "false" then Bool(s == "true")
    else match ParseI64(s)
      case Some(n) => Number(n)
      case None => Str(s)
  }

  /** `yaml_value_to_string`: the text of a scalar, trimmed. It fails on
      sequences, mappings and tagged values, and on numbers that are not
      64-bit signed integers. */
  function ToText(v: Value): (r: Result<string, Error>)
    ensures r.Success? <==> IsScalar(v) && (v.Number? ==> IsI64(v.num))
    ensures r.Success? ==> Trimmed(r.value)
    ensures v.Number? && !IsI64(v.num) ==> r == Failure(NotI64(v.num))
    ensures !IsScalar(v) ==> r == Failure(UnsupportedValue(v))
  {
    var text :- match v
      case Number(n) => if IsI64(n) then Success(IntText(n)) else Failure(NotI64(n))
      case Str(s) => Success(s)
      case Bool(b) => Success(if b then "true" else "false")
      case Null => Success("null")
      case _ => Failure(UnsupportedValue(v));
    Success(Trim(text))
  }

  /** The decimal text of an integer has no surrounding whitespace. */
  lemma IntTextTrimmed(n: int)
    ensures Trimmed(IntText(n))
  {
    IntTextShape(n);
    var t := IntText(n);
    assert IsDigit(t[|t| - 1]) by {
      if n < 0 {
        assert |t| > 1;
      }
    }
  }

  /** The texts of the scalars: `null`, `true`/`false`, the decimal
      digits of an integer; a string gives its trimmed self (ToText's own
      contract). */
  lemma ToTextNull()
    ensures ToText(Null) == Success("null")
  {
    assert Trimmed("null");
  }

  lemma ToTextBool(b: bool)
    ensures ToText(Bool(b)) == Success(if b then "true" else "false")
  {
    assert Trimmed("true") && Trimmed("false");
  }

  lemma ToTextString(s: string)
    ensures ToText(Str(s)) == Success(Trim(s))
  {
  }

  lemma ToTextNumber(n: int)
    requires IsI64(n)
    ensures ToText(Number(n)) == Success(IntText(n))
  {
    IntTextTrimmed(n);
  }

  /** The scalars that survive being turned into text and parsed back:
      null, booleans, 64-bit integers, and strings without surrounding
      whitespace that do not read as one of the former. */
  predicate RoundTrips(v: Value) {
    || v.Null?
    || v.Bool?
    || (v.Number? && IsI64(v.num))
    || (v.Str? && Trimmed(v.text) && v.text != "null" && v.text != "true" && v.text != "false"
        && ParseI64(v.text).None?)
  }

  /** Reverse parsing undoes stringification exactly for the values of
      RoundTrips. */
  lemma ReverseParseToText(v: Value)
    ensures ToText(v).Success? && ReverseParse(ToText(v).value) == v <==> RoundTrips(v)
  {
    match v
    case Null => ToTextNull();
    case Bool(b) => ToTextBool(b);
    case Number(n) =>
      if IsI64(n) {
        ToTextNumber(n);
        ParseIntText(n);
        IntTextShape(n);
        assert IntText(n) != "null" && IntText(n) != "true" && IntText(n) != "false";
      }
    case Str(s) =>
      if ReverseParse(Trim(s)) == v {
        assert Trim(s) == s;
      }
    case _ =>
  }
}
