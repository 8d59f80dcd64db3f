/** Decimal text of 64-bit signed integers: Rust's `str::parse::<i64>`
    (`i64::from_str_radix` with radix 10) and `i64::to_string`. */
module Decimal {
  import opened Wrappers

  const MinI64: int := -0x8000_0000_0000_0000
  const MaxI64: int := 0x7FFF_FFFF_FFFF_FFFF

  predicate IsI64(n: int) {
    MinI64 <= n <= MaxI64
  }

  predicate IsDigit(c: char) {
    '0' <= c <= '9'
  }

  predicate AllDigits(s: string) {
    forall i :: 0 <= i < |s| ==> IsDigit(s[i])
  }

  function DigitValue(c: char): nat
    requires IsDigit(c)
  {
    c as int - '0' as int
  }

  function DigitChar(d: nat): (c: char)
    requires d < 10
    ensures IsDigit(c) && DigitValue(c) == d
  {
    ('0' as int + d) as char
  }

  /** The number a string of decimal digits denotes, most significant
      digit first. */
  function DigitsValue(s: string): nat
    requires AllDigits(s)
  {
    if s == [] then 0 else 10 * DigitsValue(s[..|s| - 1]) + DigitValue(s[|s| - 1])
  }

  /** What `from_str_radix` accepts before any range check: an optional
      `+` or `-` followed by at least one ASCII digit, and nothing else. */
  predicate IsNumeral(s: string) {
    if |s| > 0 && (s[0] == '+' || s[0] == '-') then |s| > 1 && AllDigits(s[1..])
    else |s| > 0 && AllDigits(s)
  }

  /** The mathematical value of a numeral. */
  function NumeralValue(s: string): int
    requires IsNumeral(s)
  {
    if s[0] == '-' then -(DigitsValue(s[1..]) as int)
    else if s[0] == '+' then DigitsValue(s[1..])
    else DigitsValue(s)
  }

  lemma DigitsValuePrefix(s: string, k: nat)
    requires k < |s| && AllDigits(s[..k + 1])
    ensures AllDigits(s[..k]) && IsDigit(s[k])
    ensures DigitsValue(s[..k + 1]) == 10 * DigitsValue(s[..k]) + DigitValue(s[k])
  {
    assert s[..k + 1][..k] == s[..k];
    assert s[..k + 1][k] == s[k];
  }

  /** The value of a prefix never exceeds the value of the whole. */
  lemma {:induction false} DigitsValueMonotone(s: string, k: nat)
    requires AllDigits(s) && k <= |s|
    ensures DigitsValue(s[..k]) <= DigitsValue(s)
    decreases |s| - k
  {
    if k < |s| {
      assert AllDigits(s[..k + 1]) by {
        assert forall i :: 0 <= i < k + 1 ==> s[..k + 1][i] == s[i];
      }
      DigitsValuePrefix(s, k);
      DigitsValueMonotone(s, k + 1);
    } else {
      assert s[..k] == s;
    }
  }

  /** The digit loop of `from_str_radix`: `digits[..k]` has been read into
      `acc`, and each further digit is multiplied in with checked
      arithmetic (added for a positive number, subtracted for a negative
      one, so that `i64::MIN` is reachable). Reading stops with an error at
      the first non-digit or at the first overflow. */
  function Accumulate(digits: string, k: nat, acc: int, negative: bool): (r: Option<int>)
    requires k <= |digits| && AllDigits(digits[..k])
    requires acc == (if negative then -(DigitsValue(digits[..k]) as int) else DigitsValue(digits[..k]))
    requires IsI64(acc)
    ensures var sign := if negative then -1 else 1;
      && (r.Some? <==> AllDigits(digits) && IsI64(sign * DigitsValue(digits)))
      && (r.Some? ==> r.value == sign * DigitsValue(digits))
    decreases |digits| - k
  {
    if k == |digits| then
      assert digits[..k] == digits;
      Some(acc)
    else if !IsDigit(digits[k]) then
      None
    else
      var d := DigitValue(digits[k]);
      var next := if negative then acc * 10 - d else acc * 10 + d;
      assert AllDigits(digits[..k + 1]) by {
        assert forall i :: 0 <= i < k + 1 ==> digits[..k + 1][i] == digits[i];
      }
      DigitsValuePrefix(digits, k);
      if IsI64(next) then
        Accumulate(digits, k + 1, next, negative)
      else
        assert AllDigits(digits) ==> DigitsValue(digits[..k + 1]) <= DigitsValue(digits) by {
          if AllDigits(digits) {
            DigitsValueMonotone(digits, k + 1);
          }
        }
        None
  }

  /** `str::parse::<i64>`: the value of an in-range numeral, `None`
      for everything else (the empty string, a lone sign, any other
      character, a value outside the 64-bit range). */
  function ParseI64(s: string): (r: Option<int>)
    ensures r.Some? <==> IsNumeral(s) && IsI64(NumeralValue(s))
    ensures r.Some? ==> r.value == NumeralValue(s)
  {
    if s == [] || s == "+" || s == "-" then None
    else
      var negative := s[0] == '-';
      var digits := if s[0] == '+' || s[0] == '-' then s[1..] else s;
      assert digits[..0] == [];
      Accumulate(digits, 0, 0, negative)
  }

  /** The digits of a natural number, without leading zeros. */
  function NatText(n: nat): (r: string)
    ensures |r| > 0 && AllDigits(r) && DigitsValue(r) == n
    ensures r[0] == '0' ==> n == 0
    decreases n
  {
    if n < 10 then [DigitChar(n)]
    else
      var prefix := NatText(n / 10);
      var r := prefix + [DigitChar(n % 10)];
      assert r[..|r| - 1] == prefix;
      r
  }

  /** `i64::to_string`: a minus sign for negative numbers, then the digits
      of the magnitude. */
  function IntText(n: int): (r: string)
    ensures |r| > 0
  {
    if n < 0 then "-" + NatText(-n) else NatText(n)
  }

  /** Parsing the text of a 64-bit integer gives the integer back. */
  lemma ParseIntText(n: int)
    requires IsI64(n)
    ensures ParseI64(IntText(n)) == Some(n)
  {
    var t := IntText(n);
    if n < 0 {
      assert t[1..] == NatText(-n);
    }
  }

  /** The text of an integer is an optional minus sign and digits only. */
  lemma IntTextShape(n: int)
    ensures var t := IntText(n);
      && (t[0] == '-' <==> n < 0)
      && forall i :: (if n < 0 then 1 else 0) <= i < |t| ==> IsDigit(t[i])
  {
    var t := IntText(n);
    if n < 0 {
      assert t[1..] == NatText(-n);
      assert forall i :: 1 <= i < |t| ==> t[i] == t[1..][i - 1];
    }
  }
}
