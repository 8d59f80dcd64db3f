/** Characters, bytes and Rust's `str::trim`. */
module Text {

  /** An octet, as in Rust's `u8`. */
  type byte = x: int | 0 <= x < 256

  /** Rust's `char::is_whitespace`: the Unicode `White_Space` property,
      which holds for exactly these 25 code points. */
  predicate IsWhitespace(c: char) {
    var n := c as int;
    (0x09 <= n <= 0x0D) || n == 0x20 || n == 0x85 || n == 0xA0 || n == 0x1680
    || (0x2000 <= n <= 0x200A) || n == 0x2028 || n == 0x2029 || n == 0x202F
    || n == 0x205F || n == 0x3000
  }

  /** Neither the first nor the last character is whitespace. */
  predicate Trimmed(s: string) {
    s == [] || (!IsWhitespace(s[0]) && !IsWhitespace(s[|s| - 1]))
  }

  /** `str::trim_start`: drops the longest all-whitespace prefix. */
  function TrimStart(s: string): (r: string)
    ensures |r| <= |s| && r == s[|s| - |r|..]
    ensures forall i :: 0 <= i < |s| - |r| ==> IsWhitespace(s[i])
    ensures r == [] || !IsWhitespace(r[0])
    decreases |s|
  {
    if s != [] && IsWhitespace(s[0]) then TrimStart(s[1..]) else s
  }

  /** `str::trim_end`: drops the longest all-whitespace suffix. */
  function TrimEnd(s: string): (r: string)
    ensures |r| <= |s| && r == s[..|r|]
    ensures forall i :: |r| <= i < |s| ==> IsWhitespace(s[i])
    ensures r == [] || !IsWhitespace(r[|r| - 1])
    decreases |s|
  {
    if s != [] && IsWhitespace(s[|s| - 1]) then TrimEnd(s[..|s| - 1]) else s
  }

  /** `str::trim`: the result never starts or ends with whitespace, and the
      input comes back unchanged exactly when it was already trimmed. */
  function Trim(s: string): (r: string)
    ensures Trimmed(r)
    ensures r == s <==> Trimmed(s)
  {
    TrimEnd(TrimStart(s))
  }

  predicate IsAscii(b: seq<byte>) {
    forall i :: 0 <= i < |b| ==> b[i] < 0x80
  }

  /** The string whose characters have the code points of `b`, as Rust
      builds a `String` from bytes it knows to be ASCII. */
  function AsciiString(b: seq<byte>): (r: string)
    ensures |r| == |b|
    ensures forall i :: 0 <= i < |b| ==> r[i] as int == b[i]
  {
    if b == [] then [] else [b[0] as char] + AsciiString(b[1..])
  }
}
