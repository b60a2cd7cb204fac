/** JSON values and the recursive-descent parser: what each parsing routine computes, as
    functions of the input and a position, and the class whose cursor advances over it.
    Input bytes are those of a valid UTF-8 string, as the `&str` argument guarantees. */
module JsonParser {
  import opened Bytes
  import opened G = JsonGrammar

  datatype Json =
    | JNull
    | JBool(b: bool)
    | JNum(v: real)
    | JStr(s: seq<Byte>)
    | JArr(elems: seq<Json>)
    | JObj(members: seq<Member>)

  /** Members keep their order, and duplicate keys are kept. */
  datatype Member = Member(key: seq<Byte>, val: Json)

  datatype ParseError =
    | TooDeep
    | Unexpected(at: nat)
    | BadLiteral(at: nat)
    | BadNumber(at: nat)
    | Unterminated
    | LoneSurrogate
    | BadEscape(at: nat)
    | TruncatedEscape
    | BadHex
    | Expected(c: Byte, at: nat)
    | ExpectedNext(at: nat)
    | Trailing(at: nat)

  type Parsed<T> = Result<(T, nat), ParseError>

  const MAX_DEPTH: nat := 128

  // ---------------------------------------------------------------- code points

  function HexValue(h: seq<Byte>): nat
    requires AllHex(h)
  {
    if h == [] then 0 else 16 * HexValue(h[..|h| - 1]) + HexDigit(h[|h| - 1])
  }

  predicate IsHigh(u: nat) { 0xD800 <= u < 0xDC00 }

  const U32: nat := 0x1_0000_0000

  /** The code point a high surrogate and the escape after it are combined into (32-bit wrap-around). */
  function Combine(hi: nat, lo: nat): nat
    requires IsHigh(hi)
  {
    (0x10000 + (hi - 0xD800) * 1024 + (lo - 0xDC00) % U32) % U32
  }

  function Unescape(e: Byte): Byte
    requires IsShort(e)
  {
    if e == 0x62 then 0x08 else if e == 0x66 then 0x0C else if e == 0x6E then LF
    else if e == 0x72 then CR else if e == 0x74 then TAB else e
  }

  // ---------------------------------------------------------------- numbers

  function DecValue(s: seq<Byte>): nat
    requires AllDigits(s)
  {
    if s == [] then 0 else 10 * DecValue(s[..|s| - 1]) + (s[|s| - 1] - 0x30)
  }

  function Pow10(e: int): real
    decreases if e < 0 then -e else e
  {
    if e == 0 then 1.0 else if e > 0 then 10.0 * Pow10(e - 1) else Pow10(e + 1) / 10.0
  }

  /** The exact decimal value of a numeral. */
  function NumeralValue(neg: bool, whole: seq<Byte>, frac: seq<Byte>, expNeg: bool, exp: seq<Byte>): real
    requires AllDigits(whole + frac) && AllDigits(exp)
  {
    var e: int := DecValue(exp);
    var m := DecValue(whole + frac) as real * Pow10((if expNeg then -e else e) - |frac|);
    if neg then -m else m
  }

  predicate DigitsBetween(b: seq<Byte>, i: nat, j: nat) { i <= j <= |b| && AllDigits(b[i..j]) }

  function ScanDigits(b: seq<Byte>, i: nat): (j: nat)
    requires i <= |b|
    ensures DigitsBetween(b, i, j) && (j < |b| ==> !IsDigit(b[j]))
    decreases |b| - i
  {
    if i < |b| && IsDigit(b[i]) then
      var j := ScanDigits(b, i + 1);
      assert b[i..j] == [b[i]] + b[i + 1..j];
      j
    else i
  }

  predicate Here(b: seq<Byte>, i: nat, c: Byte) { i < |b| && b[i] == c }

  /** The extent of a numeral: ends of the integer, fraction and exponent runs. */
  datatype Extent = Extent(whole: nat, wholeEnd: nat, frac: nat, fracEnd: nat, marked: bool, exp: nat, end: nat)

  /** Start and end of the fraction digits. */
  function FracExtent(b: seq<Byte>, i: nat): (x: (nat, nat))
    requires i <= |b|
    ensures i <= x.0 && DigitsBetween(b, x.0, x.1)
  {
    if Here(b, i, DOT) then (i + 1, ScanDigits(b, i + 1)) else (i, i)
  }

  /** Start and end of the exponent digits, when the exponent mark stands at `i`. */
  function ExpExtent(b: seq<Byte>, i: nat): (x: (nat, nat))
    requires i <= |b|
    ensures i <= x.0 && DigitsBetween(b, x.0, x.1)
    ensures i < |b| && IsExpMark(b[i]) ==> i < x.0
  {
    if i < |b| && IsExpMark(b[i]) then
      var e := if i + 1 < |b| && IsSign(b[i + 1]) then i + 2 else i + 1;
      (e, ScanDigits(b, e))
    else (i, i)
  }

  function NumberExtent(b: seq<Byte>, i: nat): (x: Extent)
    requires i <= |b|
    ensures i <= x.whole <= x.wholeEnd <= x.frac <= x.fracEnd <= x.exp <= x.end <= |b|
    ensures DigitsBetween(b, x.whole, x.wholeEnd) && DigitsBetween(b, x.frac, x.fracEnd)
    ensures DigitsBetween(b, x.exp, x.end)
    ensures x.marked ==> i < x.exp
  {
    var w := if Here(b, i, MINUS) then i + 1 else i;
    var we := ScanDigits(b, w);
    var f := FracExtent(b, we);
    var e := ExpExtent(b, f.1);
    Extent(w, we, f.0, f.1, f.1 < |b| && IsExpMark(b[f.1]), e.0, e.1)
  }

  /** The scan is permissive; what it delimits must still be a decimal literal. */
  function PNumber(b: seq<Byte>, i: nat): Parsed<Json>
    requires i <= |b|
  {
    var x := NumberExtent(b, i);
    var whole, frac, exp := b[x.whole..x.wholeEnd], b[x.frac..x.fracEnd], b[x.exp..x.end];
    if whole + frac == [] || (x.marked && exp == []) then Err(BadNumber(i))
    else Ok((JNum(NumeralValue(Here(b, i, MINUS), whole, frac, x.marked && b[x.exp - 1] == MINUS, exp)), x.end))
  }

  // ---------------------------------------------------------------- whitespace, literals, strings

  predicate WsBetween(b: seq<Byte>, i: nat, j: nat) { i <= j <= |b| && AllWs(b[i..j]) }

  function SkipWs(b: seq<Byte>, i: nat): (j: nat)
    requires i <= |b|
    ensures WsBetween(b, i, j) && (j < |b| ==> !IsWs(b[j]))
    decreases |b| - i
  {
    if i < |b| && IsWs(b[i]) then
      var j := SkipWs(b, i + 1);
      assert b[i..j] == [b[i]] + b[i + 1..j];
      j
    else i
  }

  predicate StartsWith(b: seq<Byte>, i: nat, w: seq<Byte>)
    decreases |w|
  {
    i + |w| <= |b| && (w == [] || (b[i] == w[0] && StartsWith(b, i + 1, w[1..])))
  }

  function WordValue(w: Word): Json {
    match w case NullWord => JNull case TrueWord => JBool(true) case FalseWord => JBool(false)
  }

  function PWord(b: seq<Byte>, i: nat, w: Word): Parsed<Json> {
    if StartsWith(b, i, WordText(w)) then Ok((WordValue(w), i + |WordText(w)|)) else Err(BadLiteral(i))
  }

  /** Four characters read as a hexadecimal number; like the library routine it also takes a leading plus. */
  function PHex4(b: seq<Byte>, i: nat): Parsed<nat> {
    if i + 4 > |b| then Err(TruncatedEscape)
    else
      var h := if b[i] == PLUS then b[i + 1..i + 4] else b[i..i + 4];
      if AllHex(h) then Ok((HexValue(h), i + 4)) else Err(BadHex)
  }

  /** After `\u`: the bytes the escape stands for. */
  function PUnicode(b: seq<Byte>, i: nat): (r: Parsed<seq<Byte>>)
    ensures r.Ok? ==> i + 4 <= r.value.1 <= |b|
  {
    var h := PHex4(b, i);
    if h.Err? then Err(h.error)
    else if !IsHigh(h.value.0) then Ok((Utf8(h.value.0), i + 4))
    else if !(Here(b, i + 4, BACKSLASH) && Here(b, i + 5, 0x75)) then Err(LoneSurrogate)
    else
      var lo := PHex4(b, i + 6);
      if lo.Err? then Err(lo.error) else Ok((Utf8(Combine(h.value.0, lo.value.0)), i + 10))
  }

  /** After a backslash. */
  function PEscape(b: seq<Byte>, i: nat): (r: Parsed<seq<Byte>>)
    ensures r.Ok? ==> i < r.value.1 <= |b|
  {
    if i < |b| && IsShort(b[i]) then Ok(([Unescape(b[i])], i + 1))
    else if Here(b, i, 0x75) then PUnicode(b, i + 1)
    else Err(BadEscape(i))
  }

  /** The rest of a string body, `acc` being decoded already. */
  function PChars(b: seq<Byte>, i: nat, acc: seq<Byte>): (r: Parsed<seq<Byte>>)
    requires i <= |b|
    ensures r.Ok? ==> i < r.value.1 <= |b|
    decreases |b| - i
  {
    if i == |b| then Err(Unterminated)
    else if b[i] == QUOTE then Ok((acc, i + 1))
    else if b[i] == BACKSLASH then
      var e := PEscape(b, i + 1);
      if e.Err? then Err(e.error) else PChars(b, e.value.1, acc + e.value.0)
    else PChars(b, i + 1, acc + [b[i]])
  }

  function PString(b: seq<Byte>, i: nat): (r: Parsed<seq<Byte>>)
    ensures r.Ok? ==> i < r.value.1 <= |b|
  {
    if Here(b, i, QUOTE) then PChars(b, i + 1, []) else Err(Expected(QUOTE, i))
  }

  // ---------------------------------------------------------------- values

  function PValue(b: seq<Byte>, i: nat, depth: nat): (r: Parsed<Json>)
    requires i <= |b|
    ensures r.Ok? ==> i < r.value.1 <= |b|
    decreases |b| - i, 0
  {
    if depth > MAX_DEPTH then Err(TooDeep)
    else
      var k := SkipWs(b, i);
      if k == |b| then Err(Unexpected(k))
      else if b[k] == LBRACE then
        var j := SkipWs(b, k + 1);
        if Here(b, j, RBRACE) then Ok((JObj([]), j + 1)) else PMembers(b, j, depth, [])
      else if b[k] == LBRACKET then
        var j := SkipWs(b, k + 1);
        if Here(b, j, RBRACKET) then Ok((JArr([]), j + 1)) else PElems(b, j, depth, [])
      else if b[k] == QUOTE then
        var s := PString(b, k);
        if s.Err? then Err(s.error) else Ok((JStr(s.value.0), s.value.1))
      else if b[k] == 0x74 then PWord(b, k, TrueWord)
      else if b[k] == 0x66 then PWord(b, k, FalseWord)
      else if b[k] == 0x6E then PWord(b, k, NullWord)
      else if b[k] == MINUS || IsDigit(b[k]) then PNumber(b, k)
      else Err(Unexpected(k))
  }

  /** The elements of an array from position `i` on, `acc` being read already. */
  function PElems(b: seq<Byte>, i: nat, depth: nat, acc: seq<Json>): (r: Parsed<Json>)
    requires i <= |b|
    ensures r.Ok? ==> i < r.value.1 <= |b|
    decreases |b| - i, 1
  {
    var v := PValue(b, i, depth + 1);
    if v.Err? then Err(v.error)
    else
      var j := SkipWs(b, v.value.1);
      if Here(b, j, COMMA) then PElems(b, j + 1, depth, acc + [v.value.0])
      else if Here(b, j, RBRACKET) then Ok((JArr(acc + [v.value.0]), j + 1))
      else Err(ExpectedNext(j))
  }

  /** A member's key and its colon. */
  function PKey(b: seq<Byte>, i: nat): (r: Parsed<seq<Byte>>)
    requires i <= |b|
    ensures r.Ok? ==> i < r.value.1 <= |b|
  {
    var key := PString(b, SkipWs(b, i));
    if key.Err? then Err(key.error)
    else
      var c := SkipWs(b, key.value.1);
      if !Here(b, c, COLON) then Err(Expected(COLON, c)) else Ok((key.value.0, c + 1))
  }

  function PMember(b: seq<Byte>, i: nat, depth: nat): (r: Parsed<Member>)
    requires i <= |b|
    ensures r.Ok? ==> i < r.value.1 <= |b|
    decreases |b| - i, 1
  {
    var key := PKey(b, i);
    if key.Err? then Err(key.error)
    else
      var v := PValue(b, key.value.1, depth + 1);
      if v.Err? then Err(v.error) else Ok((Member(key.value.0, v.value.0), v.value.1))
  }

  function PMembers(b: seq<Byte>, i: nat, depth: nat, acc: seq<Member>): (r: Parsed<Json>)
    requires i <= |b|
    ensures r.Ok? ==> i < r.value.1 <= |b|
    decreases |b| - i, 2
  {
    var m := PMember(b, i, depth);
    if m.Err? then Err(m.error)
    else
      var j := SkipWs(b, m.value.1);
      if Here(b, j, COMMA) then PMembers(b, j + 1, depth, acc + [m.value.0])
      else if Here(b, j, RBRACE) then Ok((JObj(acc + [m.value.0]), j + 1))
      else Err(ExpectedNext(j))
  }

  function Parse(b: seq<Byte>): Result<Json, ParseError> {
    var v := PValue(b, SkipWs(b, 0), 0);
    if v.Err? then Err(v.error)
    else
      var j := SkipWs(b, v.value.1);
      if j != |b| then Err(Trailing(j)) else Ok(v.value.0)
  }

  // ---------------------------------------------------------------- the parser object

  class Parser {
    const b: seq<Byte>
    var i: nat

    ghost predicate Inside()
      reads this
    {
      i <= |b|
    }

    constructor (b: seq<Byte>)
      ensures this.b == b && i == 0 && Inside()
    {
      this.b := b;
      i := 0;
    }

    method DoSkipWs()
      requires Inside()
      modifies this
      ensures i == SkipWs(b, old(i)) && Inside()
    {
      while i < |b| && IsWs(b[i])
        invariant Inside() && SkipWs(b, old(i)) == SkipWs(b, i)
      {
        i := i + 1;
      }
    }

    method SkipDigits()
      requires Inside()
      modifies this
      ensures i == ScanDigits(b, old(i)) && Inside()
    {
      while i < |b| && IsDigit(b[i])
        invariant Inside() && ScanDigits(b, old(i)) == ScanDigits(b, i)
      {
        i := i + 1;
      }
    }

    method Expect(c: Byte) returns (r: Result<(), ParseError>)
      requires Inside()
      modifies this
      ensures Inside()
      ensures r == if Here(b, old(i), c) then Ok(()) else Err(Expected(c, old(i)))
      ensures i == if r.Ok? then old(i) + 1 else old(i)
    {
      if i < |b| && b[i] == c {
        i := i + 1;
        return Ok(());
      }
      return Err(Expected(c, i));
    }

    method Literal(w: Word) returns (r: Result<Json, ParseError>)
      requires Inside()
      modifies this
      ensures Inside() && Agrees(r, i, PWord(b, old(i), w))
    {
      if StartsWith(b, i, WordText(w)) {
        i := i + |WordText(w)|;
        return Ok(WordValue(w));
      }
      return Err(BadLiteral(i));
    }

    method Fraction() returns (from: nat)
      requires Inside()
      modifies this
      ensures Inside() && (from, i) == FracExtent(b, old(i))
    {
      from := i;
      if i < |b| && b[i] == DOT {
        i := i + 1;
        from := i;
        SkipDigits();
      }
    }

    method Exponent() returns (marked: bool, from: nat)
      requires Inside()
      modifies this
      ensures Inside() && marked == (old(i) < |b| && IsExpMark(b[old(i)]))
      ensures (from, i) == ExpExtent(b, old(i))
    {
      from := i;
      marked := i < |b| && IsExpMark(b[i]);
      if marked {
        i := i + 1;
        if i < |b| && IsSign(b[i]) { i := i + 1; }
        from := i;
        SkipDigits();
      }
    }

    method ScanNumber() returns (x: Extent)
      requires Inside()
      modifies this
      ensures Inside() && x == NumberExtent(b, old(i)) && i == x.end
    {
      if i < |b| && b[i] == MINUS { i := i + 1; }
      var w := i;
      SkipDigits();
      var we := i;
      var f := Fraction();
      var fe := i;
      var marked, e := Exponent();
      x := Extent(w, we, f, fe, marked, e, i);
    }

    method Number() returns (r: Result<Json, ParseError>)
      requires Inside()
      modifies this
      ensures Inside() && Agrees(r, i, PNumber(b, old(i)))
    {
      var start := i;
      var x := ScanNumber();
      var whole, frac, exp := b[x.whole..x.wholeEnd], b[x.frac..x.fracEnd], b[x.exp..x.end];
      if whole + frac == [] || (x.marked && exp == []) { return Err(BadNumber(start)); }
      return Ok(JNum(NumeralValue(Here(b, start, MINUS), whole, frac, x.marked && b[x.exp - 1] == MINUS, exp)));
    }

    method Hex4() returns (r: Result<nat, ParseError>)
      requires Inside()
      modifies this
      ensures Inside() && Agrees(r, i, PHex4(b, old(i)))
    {
      if i + 4 > |b| { return Err(TruncatedEscape); }
      var h := if b[i] == PLUS then b[i + 1..i + 4] else b[i..i + 4];
      if !AllHex(h) { return Err(BadHex); }
      i := i + 4;
      return Ok(HexValue(h));
    }

    method UnicodeEscape() returns (r: Result<seq<Byte>, ParseError>)
      requires Inside()
      modifies this
      ensures Inside() && Agrees(r, i, PUnicode(b, old(i)))
    {
      var hi := Hex4();
      if hi.Err? { return Err(hi.error); }
      var cp := hi.value;
      if IsHigh(hi.value) {
        if i < |b| && b[i] == BACKSLASH && i + 1 < |b| && b[i + 1] == 0x75 {
          i := i + 2;
          var lo := Hex4();
          if lo.Err? { return Err(lo.error); }
          cp := Combine(hi.value, lo.value);
        } else {
          return Err(LoneSurrogate);
        }
      }
      return Ok(Utf8(cp));
    }

    method Escape() returns (r: Result<seq<Byte>, ParseError>)
      requires Inside()
      modifies this
      ensures Inside() && Agrees(r, i, PEscape(b, old(i)))
    {
      if i < |b| && IsShort(b[i]) {
        r := Ok([Unescape(b[i])]);
        i := i + 1;
      } else if i < |b| && b[i] == 0x75 {
        i := i + 1;
        r := UnicodeEscape();
      } else {
        r := Err(BadEscape(i));
      }
    }

    /** Copies a run up to the next quote or backslash verbatim. */
    method TakeRun(ghost acc: seq<Byte>) returns (run: seq<Byte>)
      requires Inside()
      modifies this
      ensures old(i) <= i <= |b| && run == b[old(i)..i]
      ensures i < |b| ==> b[i] == QUOTE || b[i] == BACKSLASH
      ensures PChars(b, old(i), acc) == PChars(b, i, acc + run)
    {
      var start := i;
      assert acc + b[start..i] == acc;
      while i < |b| && b[i] != QUOTE && b[i] != BACKSLASH
        invariant start <= i <= |b|
        invariant PChars(b, start, acc) == PChars(b, i, acc + b[start..i])
      {
        assert acc + b[start..i + 1] == acc + b[start..i] + [b[i]];
        i := i + 1;
      }
      run := b[start..i];
    }

    method String() returns (r: Result<seq<Byte>, ParseError>)
      requires Inside()
      modifies this
      ensures Inside() && Agrees(r, i, PString(b, old(i)))
    {
      var q := Expect(QUOTE);
      if q.Err? { return Err(q.error); }
      var out := [];
      while true
        invariant Inside() && PString(b, old(i)) == PChars(b, i, out)
        decreases |b| - i
      {
        if i == |b| { return Err(Unterminated); }
        if b[i] == QUOTE {
          i := i + 1;
          return Ok(out);
        }
        if b[i] == BACKSLASH {
          i := i + 1;
          var e := Escape();
          if e.Err? { return Err(e.error); }
          out := out + e.value;
        } else {
          var run := TakeRun(out);
          out := out + run;
        }
      }
    }

    method Value(depth: nat) returns (r: Result<Json, ParseError>)
      requires Inside()
      modifies this
      ensures Inside() && Agrees(r, i, PValue(b, old(i), depth))
      decreases |b| - i, 1
    {
      if depth > MAX_DEPTH { return Err(TooDeep); }
      DoSkipWs();
      if i == |b| { return Err(Unexpected(i)); }
      var c := b[i];
      if c == LBRACE {
        r := Object(depth);
      } else if c == LBRACKET {
        r := Array(depth);
      } else if c == QUOTE {
        var s := String();
        r := if s.Err? then Err(s.error) else Ok(JStr(s.value));
      } else if c == 0x74 {
        r := Literal(TrueWord);
      } else if c == 0x66 {
        r := Literal(FalseWord);
      } else if c == 0x6E {
        r := Literal(NullWord);
      } else if c == MINUS || IsDigit(c) {
        r := Number();
      } else {
        r := Err(Unexpected(i));
      }
    }

    method Array(depth: nat) returns (r: Result<Json, ParseError>)
      requires Inside() && Here(b, i, LBRACKET)
      modifies this
      ensures Inside()
      ensures var j := SkipWs(b, old(i) + 1);
              Agrees(r, i, if Here(b, j, RBRACKET) then Ok((JArr([]), j + 1)) else PElems(b, j, depth, []))
      decreases |b| - i, 0
    {
      var q := Expect(LBRACKET);
      DoSkipWs();
      if i < |b| && b[i] == RBRACKET {
        i := i + 1;
        return Ok(JArr([]));
      }
      r := Elems(depth);
    }

    /** After an element or a member: a comma (`true`) or the closing byte (`false`). */
    method Separator(close: Byte) returns (more: Result<bool, ParseError>)
      requires Inside()
      modifies this
      ensures Inside()
      ensures var j := SkipWs(b, old(i));
              more == (if Here(b, j, COMMA) then Ok(true) else if Here(b, j, close) then Ok(false)
                       else Err(ExpectedNext(j)))
              && i == if more.Ok? then j + 1 else j
    {
      DoSkipWs();
      if i < |b| && b[i] == COMMA {
        i := i + 1;
        return Ok(true);
      }
      if i < |b| && b[i] == close {
        i := i + 1;
        return Ok(false);
      }
      return Err(ExpectedNext(i));
    }

    /** The element loop. */
    method Elems(depth: nat) returns (r: Result<Json, ParseError>)
      requires Inside()
      modifies this
      ensures Inside() && Agrees(r, i, PElems(b, old(i), depth, []))
      decreases |b| - i, 2
    {
      hide PValue, SkipWs;
      ghost var whole := PElems(b, i, depth, []);
      var out: seq<Json> := [];
      while true
        invariant old(i) <= i <= |b| && whole == PElems(b, i, depth, out)
        decreases |b| - i
      {
        var v := Value(depth + 1);
        if v.Err? { return Err(v.error); }
        var more := Separator(RBRACKET);
        if more.Err? { return Err(more.error); }
        out := out + [v.value];
        if !more.value { return Ok(JArr(out)); }
      }
    }

    method Object(depth: nat) returns (r: Result<Json, ParseError>)
      requires Inside() && Here(b, i, LBRACE)
      modifies this
      ensures Inside()
      ensures var j := SkipWs(b, old(i) + 1);
              Agrees(r, i, if Here(b, j, RBRACE) then Ok((JObj([]), j + 1)) else PMembers(b, j, depth, []))
      decreases |b| - i, 0
    {
      var q := Expect(LBRACE);
      DoSkipWs();
      if i < |b| && b[i] == RBRACE {
        i := i + 1;
        return Ok(JObj([]));
      }
      r := Members(depth);
    }

    /** The member loop. */
    method Members(depth: nat) returns (r: Result<Json, ParseError>)
      requires Inside()
      modifies this
      ensures Inside() && Agrees(r, i, PMembers(b, old(i), depth, []))
      decreases |b| - i, 2
    {
      hide PMember, SkipWs;
      ghost var whole := PMembers(b, i, depth, []);
      var out: seq<Member> := [];
      while true
        invariant old(i) <= i <= |b| && whole == PMembers(b, i, depth, out)
        decreases |b| - i
      {
        var m := MemberAt(depth);
        if m.Err? { return Err(m.error); }
        var more := Separator(RBRACE);
        if more.Err? { return Err(more.error); }
        out := out + [m.value];
        if !more.value { return Ok(JObj(out)); }
      }
    }

    method MemberAt(depth: nat) returns (r: Result<Member, ParseError>)
      requires Inside()
      modifies this
      ensures Inside() && Agrees(r, i, PMember(b, old(i), depth))
      decreases |b| - i, 1
    {
      var key := MemberKey();
      if key.Err? { return Err(key.error); }
      var v := Value(depth + 1);
      if v.Err? { return Err(v.error); }
      return Ok(Member(key.value, v.value));
    }

    /** A member's key and its colon. */
    method MemberKey() returns (r: Result<seq<Byte>, ParseError>)
      requires Inside()
      modifies this
      ensures Inside() && Agrees(r, i, PKey(b, old(i)))
    {
      DoSkipWs();
      var key := String();
      if key.Err? { return key; }
      DoSkipWs();
      var c := Expect(COLON);
      if c.Err? { return Err(c.error); }
      return key;
    }
  }

  method ParseText(b: seq<Byte>) returns (r: Result<Json, ParseError>)
    ensures r == Parse(b)
  {
    var p := new Parser(b);
    p.DoSkipWs();
    var v := p.Value(0);
    if v.Err? { return v; }
    p.DoSkipWs();
    if p.i != |b| { return Err(Trailing(p.i)); }
    return v;
  }
}
