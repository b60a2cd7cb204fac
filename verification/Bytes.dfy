/** Bytes, the ASCII characters the models name, and two general-purpose result types. */
module Bytes {
  type Byte = b: int | 0 <= b < 256

  const QUOTE: Byte := 0x22
  const PLUS: Byte := 0x2B
  const COMMA: Byte := 0x2C
  const MINUS: Byte := 0x2D
  const DOT: Byte := 0x2E
  const SLASH: Byte := 0x2F
  const ZERO: Byte := 0x30
  const COLON: Byte := 0x3A
  const LBRACKET: Byte := 0x5B
  const BACKSLASH: Byte := 0x5C
  const RBRACKET: Byte := 0x5D
  const LBRACE: Byte := 0x7B
  const RBRACE: Byte := 0x7D
  const SPACE: Byte := 0x20
  const TAB: Byte := 0x09
  const LF: Byte := 0x0A
  const CR: Byte := 0x0D

  datatype Option<+T> = None | Some(value: T)

  datatype Result<+T, +E> = Ok(value: T) | Err(error: E)

  /** A reader's outcome, and on success the position it leaves behind, are those of its specification. */
  predicate Agrees<T(==), E(==)>(r: Result<T, E>, pos: nat, spec: Result<(T, nat), E>) {
    match spec
    case Ok(v) => r == Ok(v.0) && pos == v.1
    case Err(e) => r == Err(e)
  }

  /** The bytes of a string of ASCII characters. */
  function Ascii(s: string): (b: seq<Byte>)
    requires forall k :: 0 <= k < |s| ==> 0 <= (s[k] as int) <= 127
    ensures |b| == |s| && forall k :: 0 <= k < |s| ==> b[k] == (s[k] as int)
  {
    seq(|s|, k requires 0 <= k < |s| => s[k] as int)
  }

  predicate IsDigit(b: Byte) { 0x30 <= b <= 0x39 }

  predicate IsHex(b: Byte) { IsDigit(b) || 0x41 <= b <= 0x46 || 0x61 <= b <= 0x66 }

  function HexDigit(b: Byte): (d: nat)
    requires IsHex(b)
    ensures d < 16
  {
    if IsDigit(b) then b - 0x30 else if b <= 0x46 then b - 0x41 + 10 else b - 0x61 + 10
  }

  /** The value of a digit is its place among the digits, in either case. */
  lemma HexDigitIs(b: Byte)
    requires IsHex(b)
    ensures b == Ascii("0123456789abcdef")[HexDigit(b)] || b == Ascii("0123456789ABCDEF")[HexDigit(b)]
  {
  }

  /** JSON's insignificant whitespace: space, tab, line feed, carriage return. */
  predicate IsWs(b: Byte) { b == SPACE || b == TAB || b == LF || b == CR }

  predicate AllWs(s: seq<Byte>) { forall k :: 0 <= k < |s| ==> IsWs(s[k]) }

  predicate AllDigits(s: seq<Byte>) { forall k :: 0 <= k < |s| ==> IsDigit(s[k]) }

  /** UTF-8 of a code point; anything that is not a scalar value becomes U+FFFD. */
  function Utf8(cp: nat): seq<Byte> {
    if cp < 0x80 then [cp]
    else if cp < 0x800 then [0xC0 + cp / 64, 0x80 + cp % 64]
    else if 0xD800 <= cp < 0xE000 || cp > 0x10FFFF then [0xEF, 0xBF, 0xBD]
    else if cp < 0x10000 then [0xE0 + cp / 4096, 0x80 + cp / 64 % 64, 0x80 + cp % 64]
    else [0xF0 + cp / 262144, 0x80 + cp / 4096 % 64, 0x80 + cp / 64 % 64, 0x80 + cp % 64]
  }
}
