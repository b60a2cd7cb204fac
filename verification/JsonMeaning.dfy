/** What a JSON text means, and what the parser makes of it: for every syntax tree, parsing
    its text gives its value exactly when no value lies deeper than the limit and every
    high-surrogate escape is followed by another `\u` escape; otherwise parsing fails. */
module JsonMeaning {
  import opened Bytes
  import opened JsonGrammar
  import opened JsonParser

  // ---------------------------------------------------------------- meaning

  function LooseHexValue(h: seq<Byte>): nat
    requires LooseHex(h)
  {
    if h[0] == PLUS then HexValue(h[1..]) else HexValue(h)
  }

  /** The bytes a string body stands for; none when a high surrogate stands alone. */
  function CharsMeaning(cs: seq<Char>): Option<seq<Byte>>
    requires LooseChars(cs)
    decreases |cs|
  {
    if cs == [] then Some([])
    else
      var c := cs[0];
      if c.Unicode? && IsHigh(LooseHexValue(c.h)) then
        if |cs| == 1 || !cs[1].Unicode? then None
        else
          var rest := CharsMeaning(cs[2..]);
          if rest.None? then None else Some(Utf8(Combine(LooseHexValue(c.h), LooseHexValue(cs[1].h))) + rest.value)
      else
        var rest := CharsMeaning(cs[1..]);
        if rest.None? then None else Some(CharMeaning(c) + rest.value)
  }

  function CharMeaning(c: Char): seq<Byte>
    requires LooseChar(c)
  {
    match c
    case Plain(b) => [b]
    case Short(e) => [Unescape(e)]
    case Unicode(h) => Utf8(LooseHexValue(h))
  }

  function ExpNegative(e: seq<Byte>): bool { |e| > 1 && e[1] == MINUS }

  function ExpDigits(e: seq<Byte>): seq<Byte> {
    if e == [] then [] else if |e| > 1 && IsSign(e[1]) then e[2..] else e[1..]
  }

  function NumberMeaning(n: Number): real
    requires LooseNumber(n)
  {
    NumeralValue(n.neg, n.whole, FracDigits(n.frac), ExpNegative(n.exp), ExpDigits(n.exp))
  }

  function Meaning(t: Cst): Option<Json>
    requires Loose(t)
    decreases t
  {
    match t
    case Lit(w) => Some(WordValue(w))
    case Num(n) => Some(JNum(NumberMeaning(n)))
    case Str(cs) =>
      var s := CharsMeaning(cs);
      if s.None? then None else Some(JStr(s.value))
    case Box(obj, gap, items) =>
      var ms := ItemsMeaning(obj, items);
      if ms.None? then None
      else Some(Container(obj, ms.value))
  }

  function Vals(ms: seq<Member>): seq<Json> { seq(|ms|, k requires 0 <= k < |ms| => ms[k].val) }

  function Container(obj: bool, ms: seq<Member>): Json { if obj then JObj(ms) else JArr(Vals(ms)) }

  /** Elements are given the empty key. */
  function KeyMeaning(h: Head): Option<seq<Byte>>
    requires LooseHead(h)
  {
    if h.Key? then CharsMeaning(h.name) else Some([])
  }

  function ItemMeaning(obj: bool, it: Item): Option<Member>
    requires LooseItem(obj, it)
    decreases it
  {
    var key, val := KeyMeaning(it.head), Meaning(it.val);
    if key.None? || val.None? then None else Some(Member(key.value, val.value))
  }

  function ItemsMeaning(obj: bool, items: seq<Item>): (r: Option<seq<Member>>)
    requires LooseItems(obj, items)
    decreases items
  {
    if items == [] then Some([])
    else
      var m, rest := ItemMeaning(obj, items[0]), ItemsMeaning(obj, items[1..]);
      if m.None? || rest.None? then None else Some([m.value] + rest.value)
  }

  /** No value below `t`, `t` itself standing at `depth`, lies deeper than the limit. */
  predicate Nests(t: Cst, depth: nat)
    decreases t
  {
    depth <= MAX_DEPTH && (t.Box? ==> forall k :: 0 <= k < |t.items| ==> Nests(t.items[k].val, depth + 1))
  }

  predicate Readable(t: Cst, depth: nat)
    requires Loose(t)
  {
    Nests(t, depth) && Meaning(t).Some?
  }

  // ---------------------------------------------------------------- text at a position

  lemma {:induction false} StartsConcat(b: seq<Byte>, i: nat, u: seq<Byte>, v: seq<Byte>)
    ensures StartsWith(b, i, u + v) <==> StartsWith(b, i, u) && StartsWith(b, i + |u|, v)
    decreases |u|
  {
    if u == [] {
      assert u + v == v;
    } else {
      assert (u + v)[1..] == u[1..] + v;
      StartsConcat(b, i + 1, u[1..], v);
    }
  }

  lemma {:induction false} StartsSlice(b: seq<Byte>, i: nat, w: seq<Byte>)
    requires StartsWith(b, i, w)
    ensures b[i..i + |w|] == w
    decreases |w|
  {
    if w != [] {
      StartsSlice(b, i + 1, w[1..]);
      assert b[i..i + |w|] == [b[i]] + b[i + 1..i + |w|];
    }
  }

  lemma StartsInside(b: seq<Byte>, i: nat, w: seq<Byte>)
    requires StartsWith(b, i, w)
    ensures i <= |b|
  {
  }

  lemma StartsByte(b: seq<Byte>, i: nat, c: Byte)
    ensures StartsWith(b, i, [c]) <==> Here(b, i, c)
  {
  }

  lemma StartsFirst(b: seq<Byte>, i: nat, w: seq<Byte>)
    requires StartsWith(b, i, w) && w != []
    ensures Here(b, i, w[0]) && StartsWith(b, i + 1, w[1..])
  {
  }

  lemma {:induction false} SkipsExactly(b: seq<Byte>, i: nat, w: seq<Byte>)
    requires StartsWith(b, i, w) && AllWs(w) && (i + |w| < |b| ==> !IsWs(b[i + |w|]))
    ensures SkipWs(b, i) == i + |w|
    decreases |w|
  {
    if w != [] {
      StartsFirst(b, i, w);
      SkipsExactly(b, i + 1, w[1..]);
    }
  }

  lemma {:induction false} ScansExactly(b: seq<Byte>, i: nat, w: seq<Byte>)
    requires StartsWith(b, i, w) && AllDigits(w) && (i + |w| < |b| ==> !IsDigit(b[i + |w|]))
    ensures ScanDigits(b, i) == i + |w|
    decreases |w|
  {
    if w != [] {
      StartsFirst(b, i, w);
      ScansExactly(b, i + 1, w[1..]);
    }
  }

  /** What may follow a value inside a JSON text. */
  predicate Stops(b: seq<Byte>, i: nat) {
    i < |b| ==> IsWs(b[i]) || b[i] == COMMA || b[i] == RBRACE || b[i] == RBRACKET
  }

  // ---------------------------------------------------------------- strings

  lemma ParseHex4(b: seq<Byte>, i: nat, h: seq<Byte>)
    requires StartsWith(b, i, h) && LooseHex(h)
    ensures PHex4(b, i) == Ok((LooseHexValue(h), i + 4))
  {
    StartsSlice(b, i, h);
  }

  lemma ParseUnicode(b: seq<Byte>, i: nat, h: seq<Byte>)
    requires LooseHex(h) && StartsWith(b, i, h) && !IsHigh(LooseHexValue(h))
    ensures PUnicode(b, i) == Ok((Utf8(LooseHexValue(h)), i + 4))
  {
    ParseHex4(b, i, h);
  }

  lemma ParseSurrogates(b: seq<Byte>, i: nat, h: seq<Byte>, lo: seq<Byte>)
    requires LooseHex(h) && StartsWith(b, i, h) && IsHigh(LooseHexValue(h))
    requires Here(b, i + 4, BACKSLASH) && Here(b, i + 5, 0x75)
    requires LooseHex(lo) && StartsWith(b, i + 6, lo)
    ensures PUnicode(b, i) == Ok((Utf8(Combine(LooseHexValue(h), LooseHexValue(lo))), i + 10))
  {
    ParseHex4(b, i, h);
    ParseHex4(b, i + 6, lo);
  }

  lemma LoneHigh(b: seq<Byte>, i: nat, h: seq<Byte>)
    requires StartsWith(b, i, h) && LooseHex(h) && IsHigh(LooseHexValue(h))
    requires !(Here(b, i + 4, BACKSLASH) && Here(b, i + 5, 0x75))
    ensures PUnicode(b, i) == Err(LoneSurrogate)
  {
    ParseHex4(b, i, h);
  }

  lemma CharStart(c: Char)
    requires LooseChar(c)
    ensures |CharText(c)| > 0
    ensures c.Plain? ==> CharText(c) == [c.b] && c.b != QUOTE && c.b != BACKSLASH
    ensures !c.Plain? ==> |CharText(c)| > 1 && CharText(c)[0] == BACKSLASH
    ensures !c.Plain? ==> CharText(c)[1..] == if c.Short? then [c.e] else [0x75] + c.h
  {
  }

  /** One character that is not a high surrogate. */
  lemma ParseChar(b: seq<Byte>, i: nat, c: Char, acc: seq<Byte>)
    requires LooseChar(c) && StartsWith(b, i, CharText(c))
    requires !(c.Unicode? && IsHigh(LooseHexValue(c.h)))
    ensures PChars(b, i, acc) == PChars(b, i + |CharText(c)|, acc + CharMeaning(c))
  {
    CharStart(c);
    StartsFirst(b, i, CharText(c));
    if !c.Plain? {
      StartsFirst(b, i + 1, CharText(c)[1..]);
      if c.Unicode? {
        assert CharText(c)[1..][1..] == c.h;
        ParseUnicode(b, i + 2, c.h);
      }
    }
  }

  lemma EscapeStart(b: seq<Byte>, i: nat, c: Char)
    requires c.Unicode? && StartsWith(b, i, CharText(c))
    ensures Here(b, i, BACKSLASH) && Here(b, i + 1, 0x75) && StartsWith(b, i + 2, c.h)
  {
    StartsFirst(b, i, CharText(c));
    StartsFirst(b, i + 1, CharText(c)[1..]);
    assert CharText(c)[1..][1..] == c.h;
  }

  /** A high surrogate and the escape after it. */
  lemma ParsePair(b: seq<Byte>, i: nat, c: Char, d: Char, acc: seq<Byte>)
    requires LooseChar(c) && LooseChar(d) && c.Unicode? && d.Unicode? && IsHigh(LooseHexValue(c.h))
    requires StartsWith(b, i, CharText(c)) && StartsWith(b, i + 6, CharText(d))
    ensures PChars(b, i, acc) == PChars(b, i + 12, acc + Utf8(Combine(LooseHexValue(c.h), LooseHexValue(d.h))))
  {
    EscapeStart(b, i, c);
    EscapeStart(b, i + 6, d);
    ParseSurrogates(b, i + 2, c.h, d.h);
  }

  lemma ParseLone(b: seq<Byte>, i: nat, c: Char, acc: seq<Byte>)
    requires LooseChar(c) && c.Unicode? && IsHigh(LooseHexValue(c.h)) && StartsWith(b, i, CharText(c))
    requires !(Here(b, i + 6, BACKSLASH) && Here(b, i + 7, 0x75))
    ensures PChars(b, i, acc) == Err(LoneSurrogate)
  {
    EscapeStart(b, i, c);
    LoneHigh(b, i + 2, c.h);
  }

  /** The body after a lone high surrogate does not go on with `\u`. */
  lemma NextIsNotUnicode(b: seq<Byte>, i: nat, cs: seq<Char>)
    requires LooseChars(cs) && StartsWith(b, i, CharsText(cs)) && Here(b, i + |CharsText(cs)|, QUOTE)
    requires cs == [] || !cs[0].Unicode?
    ensures !(Here(b, i, BACKSLASH) && Here(b, i + 1, 0x75))
  {
    if cs != [] {
      CharStart(cs[0]);
      StartsConcat(b, i, CharText(cs[0]), CharsText(cs[1..]));
      StartsFirst(b, i, CharText(cs[0]));
      if cs[0].Short? { StartsFirst(b, i + 1, CharText(cs[0])[1..]); }
    }
  }

  /** The outcome of reading a body that means `m` and ends at `end`. */
  function CharsOutcome(m: Option<seq<Byte>>, acc: seq<Byte>, end: nat): Parsed<seq<Byte>> {
    if m.None? then Err(LoneSurrogate) else Ok((acc + m.value, end))
  }

  lemma OutcomeShift(m: Option<seq<Byte>>, acc: seq<Byte>, u: seq<Byte>, end: nat)
    ensures CharsOutcome(m, acc + u, end)
            == CharsOutcome(if m.None? then None else Some(u + m.value), acc, end)
  {
    if m.Some? { assert acc + u + m.value == acc + (u + m.value); }
  }

  lemma {:induction false} ParseCharsAt(b: seq<Byte>, i: nat, cs: seq<Char>, acc: seq<Byte>)
    requires LooseChars(cs) && StartsWith(b, i, CharsText(cs)) && Here(b, i + |CharsText(cs)|, QUOTE)
    ensures PChars(b, i, acc) == CharsOutcome(CharsMeaning(cs), acc, i + |CharsText(cs)| + 1)
    decreases |cs|, 1
  {
    hide PEscape, Utf8, CharMeaning, LooseHexValue, Combine, CharText;
    if cs == [] {
      assert acc + [] == acc;
    } else if cs[0].Unicode? && IsHigh(LooseHexValue(cs[0].h)) {
      ParseHighAt(b, i, cs, acc);
    } else {
      var c, rest := cs[0], cs[1..];
      ghost var end := i + |CharsText(cs)| + 1;
      StartsConcat(b, i, CharText(c), CharsText(rest));
      ParseChar(b, i, c, acc);
      ParseCharsAt(b, i + |CharText(c)|, rest, acc + CharMeaning(c));
      OutcomeShift(CharsMeaning(rest), acc, CharMeaning(c), end);
    }
  }

  /** The escape, and what is left of the body. */
  lemma CharsSplit(b: seq<Byte>, i: nat, cs: seq<Char>)
    requires LooseChars(cs) && StartsWith(b, i, CharsText(cs)) && cs != []
    ensures StartsWith(b, i, CharText(cs[0])) && StartsWith(b, i + |CharText(cs[0])|, CharsText(cs[1..]))
    ensures |CharsText(cs)| == |CharText(cs[0])| + |CharsText(cs[1..])| && LooseChar(cs[0]) && LooseChars(cs[1..])
    ensures cs[0].Unicode? ==> |CharText(cs[0])| == 6
  {
    hide StartsWith;
    StartsConcat(b, i, CharText(cs[0]), CharsText(cs[1..]));
  }

  lemma {:induction false} ParseHighAt(b: seq<Byte>, i: nat, cs: seq<Char>, acc: seq<Byte>)
    requires LooseChars(cs) && StartsWith(b, i, CharsText(cs)) && Here(b, i + |CharsText(cs)|, QUOTE)
    requires cs != [] && cs[0].Unicode? && IsHigh(LooseHexValue(cs[0].h))
    ensures PChars(b, i, acc) == CharsOutcome(CharsMeaning(cs), acc, i + |CharsText(cs)| + 1)
    decreases |cs|, 0
  {
    hide PEscape, Utf8, CharMeaning, PChars, Combine, LooseHexValue, StartsWith, CharsText, CharText;
    var c, rest := cs[0], cs[1..];
    CharsSplit(b, i, cs);
    if rest == [] || !rest[0].Unicode? {
      NextIsNotUnicode(b, i + 6, rest);
      ParseLone(b, i, c, acc);
    } else {
      var d, end := rest[0], i + |CharsText(cs)| + 1;
      var u := Utf8(Combine(LooseHexValue(c.h), LooseHexValue(d.h)));
      CharsSplit(b, i + 6, rest);
      assert rest[1..] == cs[2..];
      ParsePair(b, i, c, d, acc);
      ParseCharsAt(b, i + 12, cs[2..], acc + u);
      OutcomeShift(CharsMeaning(cs[2..]), acc, u, end);
    }
  }

  lemma ParseStringAt(b: seq<Byte>, i: nat, cs: seq<Char>)
    requires LooseChars(cs) && StartsWith(b, i, StringText(cs))
    ensures PString(b, i) == if CharsMeaning(cs).None? then Err(LoneSurrogate)
                             else Ok((CharsMeaning(cs).value, i + |StringText(cs)|))
  {
    hide PChars, CharsText, CharsMeaning;
    var body := CharsText(cs);
    StartsConcat(b, i, [QUOTE] + body, [QUOTE]);
    StartsConcat(b, i, [QUOTE], body);
    StartsByte(b, i, QUOTE);
    StartsByte(b, i + 1 + |body|, QUOTE);
    ParseCharsAt(b, i + 1, cs, []);
    if CharsMeaning(cs).Some? { assert [] + CharsMeaning(cs).value == CharsMeaning(cs).value; }
  }

  // ---------------------------------------------------------------- numbers and words

  lemma ParseFrac(b: seq<Byte>, i: nat, f: seq<Byte>)
    requires LooseFrac(f) && StartsWith(b, i, f)
    requires i + |f| < |b| ==> !IsDigit(b[i + |f|]) && b[i + |f|] != DOT
    ensures var x := FracExtent(b, i); x.1 == i + |f| && b[x.0..x.1] == FracDigits(f)
  {
    if f != [] {
      ScansExactly(b, i + 1, f[1..]);
      StartsSlice(b, i + 1, f[1..]);
    }
  }

  lemma ExpStarts(b: seq<Byte>, i: nat, e: seq<Byte>)
    requires ExpPart(e) && e != [] && StartsWith(b, i, e)
    ensures |e| >= 2 && Here(b, i, e[0]) && Here(b, i + 1, e[1]) && StartsWith(b, i + 1, e[1..])
    ensures IsSign(e[1]) ==> StartsWith(b, i + 2, e[2..])
  {
    StartsFirst(b, i, e);
    StartsFirst(b, i + 1, e[1..]);
    assert e[1..][1..] == e[2..];
  }

  lemma StopsDigits(b: seq<Byte>, i: nat)
    requires Stops(b, i) && i < |b|
    ensures !IsDigit(b[i])
  {
  }

  lemma ParseExp(b: seq<Byte>, i: nat, e: seq<Byte>)
    requires ExpPart(e) && StartsWith(b, i, e)
    requires Stops(b, i + |e|)
    ensures var x := ExpExtent(b, i);
            x.1 == i + |e| && b[x.0..x.1] == ExpDigits(e)
            && (i < |b| && IsExpMark(b[i]) <==> e != [])
            && (e != [] ==> (b[x.0 - 1] == MINUS <==> ExpNegative(e)) && ExpDigits(e) != [])
  {
    if e != [] {
      hide StartsWith, Stops, ScanDigits;
      ExpStarts(b, i, e);
      var k := if IsSign(e[1]) then 2 else 1;
      if i + |e| < |b| { StopsDigits(b, i + |e|); }
      ScansExactly(b, i + k, e[k..]);
      StartsSlice(b, i + k, e[k..]);
    }
  }

  lemma NumberSplit(b: seq<Byte>, i: nat, n: Number)
    requires StartsWith(b, i, NumberText(n))
    ensures i <= |b|
    ensures |NumberText(n)| == |SignText(n.neg)| + |n.whole| + |n.frac| + |n.exp|
    ensures StartsWith(b, i, SignText(n.neg))
    ensures StartsWith(b, i + |SignText(n.neg)|, n.whole)
    ensures StartsWith(b, i + |SignText(n.neg)| + |n.whole|, n.frac)
    ensures StartsWith(b, i + |SignText(n.neg)| + |n.whole| + |n.frac|, n.exp)
  {
    var s := SignText(n.neg);
    StartsConcat(b, i, s + n.whole + n.frac, n.exp);
    StartsConcat(b, i, s + n.whole, n.frac);
    StartsConcat(b, i, s, n.whole);
  }

  lemma WholeStart(b: seq<Byte>, i: nat, neg: bool, whole: seq<Byte>)
    requires AllDigits(whole) && (neg || whole != [])
    requires StartsWith(b, i, SignText(neg)) && StartsWith(b, i + |SignText(neg)|, whole)
    ensures Here(b, i, MINUS) == neg
  {
    if neg { StartsByte(b, i, MINUS); } else { StartsFirst(b, i, whole); }
  }

  /** Each part ends where the next byte cannot belong to it. */
  lemma PartsStop(b: seq<Byte>, f: nat, frac: seq<Byte>, exp: seq<Byte>)
    requires LooseFrac(frac) && ExpPart(exp) && StartsWith(b, f, frac) && StartsWith(b, f + |frac|, exp)
    requires Stops(b, f + |frac| + |exp|)
    ensures f < |b| ==> !IsDigit(b[f])
    ensures f + |frac| < |b| ==> !IsDigit(b[f + |frac|]) && b[f + |frac|] != DOT
  {
    if exp != [] { StartsFirst(b, f + |frac|, exp); }
    if frac != [] { StartsFirst(b, f, frac); }
  }

  lemma ParseNumberAt(b: seq<Byte>, i: nat, n: Number)
    requires LooseNumber(n) && StartsWith(b, i, NumberText(n)) && Stops(b, i + |NumberText(n)|)
    ensures PNumber(b, i) == Ok((JNum(NumberMeaning(n)), i + |NumberText(n)|))
  {
    hide *;
    NumberSplit(b, i, n);
    ParsePartsAt(b, i, n, |SignText(n.neg)|);
  }

  lemma ParsePartsAt(b: seq<Byte>, i: nat, n: Number, s: nat)
    requires LooseNumber(n) && s == |SignText(n.neg)|
    requires StartsWith(b, i, SignText(n.neg)) && StartsWith(b, i + s, n.whole)
    requires StartsWith(b, i + s + |n.whole|, n.frac) && StartsWith(b, i + s + |n.whole| + |n.frac|, n.exp)
    requires Stops(b, i + s + |n.whole| + |n.frac| + |n.exp|)
    ensures PNumber(b, i) == Ok((JNum(NumberMeaning(n)), i + s + |n.whole| + |n.frac| + |n.exp|))
  {
    hide StartsWith, Stops, PNumber, ScanDigits, ExpExtent, FracExtent, NumberMeaning, FracDigits, ExpDigits;
    var f := i + s + |n.whole|;
    WholeStart(b, i, n.neg, n.whole);
    PartsScan(b, i + s, n.whole, n.frac, n.exp);
    ParseExp(b, f + |n.frac|, n.exp);
    NumberFromParts(b, i, n, i + s, f, f + |n.frac|);
  }

  lemma PartsScan(b: seq<Byte>, w: nat, whole: seq<Byte>, frac: seq<Byte>, exp: seq<Byte>)
    requires AllDigits(whole) && LooseFrac(frac) && ExpPart(exp)
    requires StartsWith(b, w, whole) && StartsWith(b, w + |whole|, frac) && StartsWith(b, w + |whole| + |frac|, exp)
    requires Stops(b, w + |whole| + |frac| + |exp|)
    ensures ScanDigits(b, w) == w + |whole| && b[w..w + |whole|] == whole
    ensures var x := FracExtent(b, w + |whole|);
            x.1 == w + |whole| + |frac| && b[x.0..x.1] == FracDigits(frac)
  {
    PartsStop(b, w + |whole|, frac, exp);
    ScansExactly(b, w, whole);
    StartsSlice(b, w, whole);
    ParseFrac(b, w + |whole|, frac);
  }

  lemma NumberFromParts(b: seq<Byte>, i: nat, n: Number, w: nat, f: nat, e: nat)
    requires LooseNumber(n) && i <= |b| && w == (if n.neg then i + 1 else i) <= f <= e <= |b|
    requires Here(b, i, MINUS) == n.neg && ScanDigits(b, w) == f && b[w..f] == n.whole
    requires FracExtent(b, f).1 == e && b[FracExtent(b, f).0..e] == FracDigits(n.frac)
    requires var x := ExpExtent(b, e);
             x.1 == e + |n.exp| && b[x.0..x.1] == ExpDigits(n.exp)
             && (e < |b| && IsExpMark(b[e]) <==> n.exp != [])
             && (n.exp != [] ==> (b[x.0 - 1] == MINUS <==> ExpNegative(n.exp)) && ExpDigits(n.exp) != [])
    ensures PNumber(b, i) == Ok((JNum(NumberMeaning(n)), e + |n.exp|))
  {
    hide DecValue, Pow10, StartsWith, ScanDigits, ExpPart, LooseFrac;
    assert n.whole + FracDigits(n.frac) != [];
  }

  lemma ParseWordAt(b: seq<Byte>, i: nat, w: Word)
    requires StartsWith(b, i, WordText(w))
    ensures PWord(b, i, w) == Ok((WordValue(w), i + |WordText(w)|))
  {
  }

  // ---------------------------------------------------------------- values

  /** What the parser must answer for the tree `t` read at `depth` and ending at `end`. */
  predicate Reads(r: Parsed<Json>, t: Cst, depth: nat, end: nat)
    requires Loose(t)
  {
    if Readable(t, depth) then r == Ok((Meaning(t).value, end)) else r.Err?
  }

  lemma FirstOfNumber(n: Number)
    requires LooseNumber(n)
    ensures NumberText(n) != [] && (NumberText(n)[0] == MINUS || IsDigit(NumberText(n)[0]))
  {
    hide LooseFrac, ExpPart;
    if n.neg { assert NumberText(n)[0] == SignText(true)[0]; } else { assert NumberText(n)[0] == n.whole[0]; }
  }

  /** How the parser dispatches on the first byte of a value. */
  lemma FirstByte(t: Cst)
    requires Loose(t)
    ensures Text(t) != []
    ensures var c := Text(t)[0];
            match t
            case Lit(w) => c == WordText(w)[0]
            case Num(n) => c == MINUS || IsDigit(c)
            case Str(_) => c == QUOTE
            case Box(obj, _, _) => c == Open(obj)
  {
    hide BodyText, DoneText, ItemText, CharsText, LooseItems, LooseChars, NumberText, LooseFrac, ExpPart, LooseNumber;
    if t.Num? { FirstOfNumber(t.num); }
  }

  lemma SkipToValue(b: seq<Byte>, i: nat, pre: seq<Byte>, t: Cst)
    requires Loose(t) && AllWs(pre) && StartsWith(b, i, pre) && StartsWith(b, i + |pre|, Text(t))
    ensures SkipWs(b, i) == i + |pre| < |b| && b[i + |pre|] == Text(t)[0]
  {
    FirstByte(t);
    StartsFirst(b, i + |pre|, Text(t));
    SkipsExactly(b, i, pre);
  }

  lemma {:induction false} ParseValueAt(b: seq<Byte>, i: nat, pre: seq<Byte>, t: Cst, depth: nat)
    requires Loose(t) && AllWs(pre) && StartsWith(b, i, pre) && StartsWith(b, i + |pre|, Text(t))
    requires Stops(b, i + |pre| + |Text(t)|)
    ensures Reads(PValue(b, i, depth), t, depth, i + |pre| + |Text(t)|)
    decreases t
  {
    hide StartsWith, Stops, PNumber, PWord, PChars, PString, PElems, PMembers, CharsMeaning, NumberMeaning, SkipWs,
         WordValue, LooseItems, ItemsMeaning;
    SkipToValue(b, i, pre, t);
    FirstByte(t);
    var k := i + |pre|;
    if depth <= MAX_DEPTH {
      match t
      case Lit(w) => ParseWordAt(b, k, w);
      case Num(n) => ParseNumberAt(b, k, n);
      case Str(cs) => ParseStringAt(b, k, cs);
      case Box(obj, gap, items) =>
        ParseBoxAt(b, k, obj, gap, items, depth);
        BoxDispatch(b, i, obj, depth);
    }
  }

  // ---------------------------------------------------------------- items

  /** An element (with the empty key) or a member, and the items from a position on:
      arrays and objects read alike. */
  function PItem(b: seq<Byte>, i: nat, obj: bool, depth: nat): (r: Parsed<Member>)
    requires i <= |b|
    ensures r.Ok? ==> i < r.value.1 <= |b|
  {
    if obj then PMember(b, i, depth)
    else
      var v := PValue(b, i, depth + 1);
      if v.Err? then Err(v.error) else Ok((Member([], v.value.0), v.value.1))
  }

  function PItems(b: seq<Byte>, i: nat, obj: bool, depth: nat, acc: seq<Member>): Parsed<Json>
    requires i <= |b|
  {
    if obj then PMembers(b, i, depth, acc) else PElems(b, i, depth, Vals(acc))
  }

  lemma ItemsUnfold(b: seq<Byte>, i: nat, obj: bool, depth: nat, acc: seq<Member>)
    requires i <= |b|
    ensures PItems(b, i, obj, depth, acc)
            == var m := PItem(b, i, obj, depth);
               if m.Err? then Err(m.error)
               else
                 var j := SkipWs(b, m.value.1);
                 if Here(b, j, COMMA) then PItems(b, j + 1, obj, depth, acc + [m.value.0])
                 else if Here(b, j, Close(obj)) then Ok((Container(obj, acc + [m.value.0]), j + 1))
                 else Err(ExpectedNext(j))
  {
    hide PMember, PValue, SkipWs;
    var m := PItem(b, i, obj, depth);
    if m.Ok? { assert Vals(acc + [m.value.0]) == Vals(acc) + [m.value.0.val]; }
  }

  function PBox(b: seq<Byte>, k: nat, obj: bool, depth: nat): Parsed<Json>
    requires k < |b|
  {
    var j := SkipWs(b, k + 1);
    if Here(b, j, Close(obj)) then Ok((Container(obj, []), j + 1)) else PItems(b, j, obj, depth, [])
  }

  lemma BoxDispatch(b: seq<Byte>, i: nat, obj: bool, depth: nat)
    requires i <= |b| && depth <= MAX_DEPTH && Here(b, SkipWs(b, i), Open(obj))
    ensures PValue(b, i, depth) == PBox(b, SkipWs(b, i), obj, depth)
  {
    hide PMembers, PElems, SkipWs;
    assert Vals([]) == [];
  }

  lemma BodySplits(items: seq<Item>)
    requires items != []
    ensures BodyText(items) == DoneText(items[..|items| - 1]) + ItemText(items[|items| - 1])
  {
    hide ItemText, DoneText;
  }

  lemma Regroups(body: seq<Byte>, done: seq<Byte>, last: seq<Byte>, head: seq<Byte>, rest: seq<Byte>, tail: seq<Byte>)
    requires body == done + last && done == head + rest && tail == rest + last
    ensures body == head + tail
  {
    Assoc(head, rest, last);
  }

  lemma MiddleItems(items: seq<Item>)
    requires |items| > 1
    ensures var n := |items| - 1;
            items[..n] != [] && items[1..] != [] && items[..n][0] == items[0]
            && items[1..][..n - 1] == items[..n][1..] && items[1..][n - 1] == items[n]
  {
  }

  lemma BodyFront(items: seq<Item>)
    requires items != []
    ensures BodyText(items)
            == if |items| == 1 then ItemText(items[0]) else ItemText(items[0]) + [COMMA] + BodyText(items[1..])
  {
    hide ItemText, BodyText, DoneText;
    var n := |items| - 1;
    BodySplits(items);
    if n == 0 {
      assert items[..0] == [];
      NothingDone();
      assert [] + ItemText(items[0]) == ItemText(items[0]);
    } else {
      MiddleItems(items);
      DoneFront(items[..n]);
      BodySplits(items[1..]);
      Regroups(BodyText(items), DoneText(items[..n]), ItemText(items[n]), ItemText(items[0]) + [COMMA],
               DoneText(items[..n][1..]), BodyText(items[1..]));
    }
  }

  lemma NothingDone()
    ensures DoneText([]) == []
  {
  }

  lemma LastDone(items: seq<Item>)
    requires items != []
    ensures DoneText(items) == DoneText(items[..|items| - 1]) + (ItemText(items[|items| - 1]) + [COMMA])
  {
    hide ItemText;
    Assoc(DoneText(items[..|items| - 1]), ItemText(items[|items| - 1]), [COMMA]);
  }

  lemma {:induction false} DoneFront(items: seq<Item>)
    ensures items != [] ==> DoneText(items) == ItemText(items[0]) + [COMMA] + DoneText(items[1..])
    decreases |items|
  {
    hide ItemText, DoneText;
    if items != [] {
      LastDone(items);
      NothingDone();
      var n := |items| - 1;
      if n == 0 {
        assert items[..0] == [] && items[1..] == [];
      } else {
        MiddleItems(items);
        DoneFront(items[..n]);
        LastDone(items[1..]);
        Regroups(DoneText(items), DoneText(items[..n]), ItemText(items[n]) + [COMMA], ItemText(items[0]) + [COMMA],
                 DoneText(items[..n][1..]), DoneText(items[1..]));
      }
    }
  }

  lemma Assoc(a: seq<Byte>, b: seq<Byte>, c: seq<Byte>)
    ensures a + b + c == a + (b + c)
  {
  }

  lemma StringStarts(cs: seq<Char>)
    ensures StringText(cs) != [] && StringText(cs)[0] == QUOTE
  {
    hide CharsText;
  }

  lemma ParseKeyAt(b: seq<Byte>, i: nat, h: Head)
    requires h.Key? && LooseHead(h) && StartsWith(b, i, HeadText(h))
    ensures i <= |b|
    ensures PKey(b, i) == if KeyMeaning(h).None? then Err(LoneSurrogate)
                          else Ok((KeyMeaning(h).value, i + |HeadText(h)|))
  {
    hide PString, StartsWith, CharsMeaning, CharsText, LooseChars, SkipWs, StringText;
    var s := StringText(h.name);
    StringStarts(h.name);
    StartsConcat(b, i, h.lead + s + h.gap, [COLON]);
    StartsConcat(b, i, h.lead + s, h.gap);
    StartsConcat(b, i, h.lead, s);
    StartsFirst(b, i + |h.lead|, s);
    StartsFirst(b, i + |h.lead| + |s| + |h.gap|, [COLON]);
    SkipsExactly(b, i, h.lead);
    ParseStringAt(b, i + |h.lead|, h.name);
    SkipsExactly(b, i + |h.lead| + |s|, h.gap);
  }

  lemma ItemParts(it: Item)
    ensures ItemText(it) == HeadText(it.head) + it.pre + Text(it.val) + it.post
  {
    hide HeadText, Text;
  }

  lemma ItemSplit(b: seq<Byte>, i: nat, it: Item)
    requires StartsWith(b, i, ItemText(it))
    ensures i <= |b| && |ItemText(it)| == |HeadText(it.head)| + |it.pre| + |Text(it.val)| + |it.post|
    ensures StartsWith(b, i, HeadText(it.head)) && StartsWith(b, i + |HeadText(it.head)|, it.pre)
    ensures StartsWith(b, i + |HeadText(it.head)| + |it.pre|, Text(it.val))
    ensures StartsWith(b, i + |HeadText(it.head)| + |it.pre| + |Text(it.val)|, it.post)
  {
    hide StartsWith, HeadText, Text, ItemText;
    StartsInside(b, i, ItemText(it));
    ItemParts(it);
    var h := HeadText(it.head);
    StartsConcat(b, i, h + it.pre + Text(it.val), it.post);
    StartsConcat(b, i, h + it.pre, Text(it.val));
    StartsConcat(b, i, h, it.pre);
  }

  lemma PostStops(b: seq<Byte>, i: nat, post: seq<Byte>)
    requires AllWs(post) && StartsWith(b, i, post)
    requires Here(b, i + |post|, COMMA) || Here(b, i + |post|, RBRACE) || Here(b, i + |post|, RBRACKET)
    ensures Stops(b, i) && SkipWs(b, i) == i + |post|
  {
    if post != [] { StartsFirst(b, i, post); }
    SkipsExactly(b, i, post);
  }

  /** What reading one item must give. */
  predicate ItemReads(b: seq<Byte>, m: Parsed<Member>, obj: bool, it: Item, depth: nat, end: nat)
    requires LooseItem(obj, it)
  {
    if Nests(it.val, depth + 1) && ItemMeaning(obj, it).Some?
    then m.Ok? && m.value.0 == ItemMeaning(obj, it).value && m.value.1 <= |b| && SkipWs(b, m.value.1) == end
    else m.Err?
  }

  lemma {:induction false} ParseItemAt(b: seq<Byte>, i: nat, obj: bool, it: Item, depth: nat)
    requires LooseItem(obj, it) && StartsWith(b, i, ItemText(it)) && i <= |b|
    requires Here(b, i + |ItemText(it)|, COMMA) || Here(b, i + |ItemText(it)|, Close(obj))
    ensures ItemReads(b, PItem(b, i, obj, depth), obj, it, depth, i + |ItemText(it)|)
    decreases it
  {
    hide StartsWith, PKey, PValue, Text, HeadText, Meaning, KeyMeaning, SkipWs, Nests, AllWs, Stops;
    ItemSplit(b, i, it);
    var v := i + |HeadText(it.head)|;
    var z := v + |it.pre| + |Text(it.val)|;
    PostStops(b, z, it.post);
    if obj { ParseKeyAt(b, i, it.head); }
    assert !obj ==> HeadText(it.head) == [] && KeyMeaning(it.head) == Some([]) by { NoKeyText(it.head); }
    ParseValueAt(b, v, it.pre, it.val, depth + 1);
  }

  lemma NoKeyText(h: Head)
    ensures h.NoKey? ==> HeadText(h) == [] && KeyMeaning(h) == Some([])
  {
  }

  predicate ItemsNest(items: seq<Item>, depth: nat) {
    forall k :: 0 <= k < |items| ==> Nests(items[k].val, depth + 1)
  }

  /** What reading the items `items` after `acc` must give. */
  predicate ItemsRead(r: Parsed<Json>, obj: bool, items: seq<Item>, depth: nat, acc: seq<Member>, end: nat)
    requires LooseItems(obj, items)
  {
    if ItemsNest(items, depth) && ItemsMeaning(obj, items).Some?
    then r == Ok((Container(obj, acc + ItemsMeaning(obj, items).value), end))
    else r.Err?
  }

  lemma ItemsReadFront(r: Parsed<Json>, obj: bool, items: seq<Item>, depth: nat, acc: seq<Member>, end: nat)
    requires LooseItems(obj, items) && items != []
    requires var it := items[0];
             if Nests(it.val, depth + 1) && ItemMeaning(obj, it).Some?
             then ItemsRead(r, obj, items[1..], depth, acc + [ItemMeaning(obj, it).value], end)
             else r.Err?
    ensures ItemsRead(r, obj, items, depth, acc, end)
  {
    hide Nests, Meaning;
    var m, rest := ItemMeaning(obj, items[0]), ItemsMeaning(obj, items[1..]);
    assert ItemsNest(items, depth) <==> Nests(items[0].val, depth + 1) && ItemsNest(items[1..], depth) by {
      assert forall k :: 1 <= k < |items| ==> items[k] == items[1..][k - 1];
    }
    if m.Some? && rest.Some? { assert acc + [m.value] + rest.value == acc + ([m.value] + rest.value); }
  }

  lemma {:induction false} ParseItemsAt(b: seq<Byte>, i: nat, obj: bool, items: seq<Item>, depth: nat, acc: seq<Member>)
    requires LooseItems(obj, items) && items != [] && StartsWith(b, i, BodyText(items)) && i <= |b|
    requires Here(b, i + |BodyText(items)|, Close(obj))
    ensures ItemsRead(PItems(b, i, obj, depth, acc), obj, items, depth, acc, i + |BodyText(items)| + 1)
    decreases items, 0
  {
    hide StartsWith, PItem, ItemText, BodyText, Meaning, ItemMeaning, ItemsMeaning, Nests, Container, PItems;
    var it, rest, t := items[0], items[1..], ItemText(items[0]);
    var j := i + |t|;
    BodyFront(items);
    if rest != [] {
      StartsConcat(b, i, t + [COMMA], BodyText(rest));
      StartsConcat(b, i, t, [COMMA]);
      StartsByte(b, j, COMMA);
    }
    ParseItemAt(b, i, obj, it, depth);
    ItemsUnfold(b, i, obj, depth, acc);
    var m := ItemMeaning(obj, it);
    if rest != [] && m.Some? {
      ParseItemsAt(b, j + 1, obj, rest, depth, acc + [m.value]);
    }
    LastItem(obj, items, depth, acc, i + |BodyText(items)| + 1);
    ItemsReadFront(PItems(b, i, obj, depth, acc), obj, items, depth, acc, i + |BodyText(items)| + 1);
  }

  lemma LastItem(obj: bool, items: seq<Item>, depth: nat, acc: seq<Member>, end: nat)
    requires LooseItems(obj, items) && items != []
    ensures var m := ItemMeaning(obj, items[0]);
            items[1..] == [] && m.Some? ==>
            ItemsRead(Ok((Container(obj, acc + [m.value]), end)), obj, items[1..], depth, acc + [m.value], end)
  {
    hide Nests, Meaning, Container, ItemMeaning;
    var m := ItemMeaning(obj, items[0]);
    if m.Some? { assert acc + [m.value] + [] == acc + [m.value]; }
  }

  /** Whitespace before the first item does not matter. */
  lemma SkipFirst(b: seq<Byte>, i: nat, obj: bool, depth: nat, acc: seq<Member>)
    requires i <= |b|
    ensures PItems(b, SkipWs(b, i), obj, depth, acc) == PItems(b, i, obj, depth, acc)
  {
    hide PString, PNumber, PWord, PElems, PMembers;
    assert SkipWs(b, SkipWs(b, i)) == SkipWs(b, i);
    assert PItem(b, SkipWs(b, i), obj, depth) == PItem(b, i, obj, depth);
    ItemsUnfold(b, i, obj, depth, acc);
    ItemsUnfold(b, SkipWs(b, i), obj, depth, acc);
  }

  /** The first byte of an item after whitespace is not the closing byte. */
  lemma FirstOfItem(b: seq<Byte>, i: nat, obj: bool, it: Item)
    requires LooseItem(obj, it) && StartsWith(b, i, ItemText(it)) && i <= |b|
    ensures !Here(b, SkipWs(b, i), Close(obj))
  {
    hide StartsWith, Text, CharsText, Loose;
    ItemSplit(b, i, it);
    if obj {
      var s := StringText(it.head.name);
      StartsConcat(b, i, it.head.lead + s + it.head.gap, [COLON]);
      StartsConcat(b, i, it.head.lead + s, it.head.gap);
      StartsConcat(b, i, it.head.lead, s);
      StartsFirst(b, i + |it.head.lead|, s);
      SkipsExactly(b, i, it.head.lead);
    } else {
      SkipToValue(b, i, it.pre, it.val);
      FirstByte(it.val);
    }
  }

  lemma {:induction false} ParseBoxAt(b: seq<Byte>, k: nat, obj: bool, gap: seq<Byte>, items: seq<Item>, depth: nat)
    requires AllWs(gap) && LooseItems(obj, items) && StartsWith(b, k, Text(Box(obj, gap, items)))
    requires depth <= MAX_DEPTH && k < |b|
    ensures Reads(PBox(b, k, obj, depth), Box(obj, gap, items), depth, k + |Text(Box(obj, gap, items))|)
    decreases items, 1
  {
    hide StartsWith, BodyText, PItems, Meaning, ItemsMeaning, Nests, SkipWs, Container, AllWs, LooseItems;
    var body := if items == [] then gap else BodyText(items);
    Framed(b, k, Open(obj), body, Close(obj));
    if items == [] {
      SkipsExactly(b, k + 1, gap);
      EmptyBox(obj, gap, depth);
    } else {
      FirstItemOfBody(b, k + 1, obj, items);
      SkipFirst(b, k + 1, obj, depth, []);
      ParseItemsAt(b, k + 1, obj, items, depth, []);
      FullBox(PItems(b, k + 1, obj, depth, []), obj, gap, items, depth, k + |body| + 2);
    }
  }

  lemma Framed(b: seq<Byte>, k: nat, o: Byte, body: seq<Byte>, z: Byte)
    requires StartsWith(b, k, [o] + body + [z])
    ensures StartsWith(b, k + 1, body) && Here(b, k + 1 + |body|, z)
  {
    StartsConcat(b, k, [o] + body, [z]);
    StartsConcat(b, k, [o], body);
    StartsByte(b, k + 1 + |body|, z);
  }

  lemma EmptyBox(obj: bool, gap: seq<Byte>, depth: nat)
    requires AllWs(gap) && depth <= MAX_DEPTH
    ensures Readable(Box(obj, gap, []), depth) && Meaning(Box(obj, gap, [])).value == Container(obj, [])
  {
  }

  lemma FullBox(r: Parsed<Json>, obj: bool, gap: seq<Byte>, items: seq<Item>, depth: nat, end: nat)
    requires AllWs(gap) && LooseItems(obj, items) && depth <= MAX_DEPTH
    requires ItemsRead(r, obj, items, depth, [], end)
    ensures Reads(r, Box(obj, gap, items), depth, end)
  {
    hide ItemsMeaning;
    var m := ItemsMeaning(obj, items);
    if m.Some? { assert [] + m.value == m.value; }
    assert Nests(Box(obj, gap, items), depth) <==> ItemsNest(items, depth);
  }

  lemma FirstItemOfBody(b: seq<Byte>, i: nat, obj: bool, items: seq<Item>)
    requires LooseItems(obj, items) && items != [] && StartsWith(b, i, BodyText(items))
    ensures i <= |b| && !Here(b, SkipWs(b, i), Close(obj))
  {
    hide StartsWith, ItemText, BodyText;
    BodyFront(items);
    if |items| > 1 {
      StartsConcat(b, i, ItemText(items[0]) + [COMMA], BodyText(items[1..]));
      StartsConcat(b, i, ItemText(items[0]), [COMMA]);
    }
    ItemSplit(b, i, items[0]);
    FirstOfItem(b, i, obj, items[0]);
  }

  /** The parser on a JSON text: its value, exactly when the text is readable. */
  lemma ParseDoc(d: Doc)
    requires LooseDoc(d)
    ensures Readable(d.val, 0) ==> Parse(DocText(d)) == Ok(Meaning(d.val).value)
    ensures !Readable(d.val, 0) ==> Parse(DocText(d)).Err?
  {
    hide StartsWith, Text, PValue, Meaning, Nests, Loose;
    var b := DocText(d);
    WholeStarts(b);
    StartsConcat(b, 0, d.pre + Text(d.val), d.post);
    StartsConcat(b, 0, d.pre, Text(d.val));
    var k, z := |d.pre|, |d.pre| + |Text(d.val)|;
    assert z + |d.post| == |b|;
    SkipToValue(b, 0, d.pre, d.val);
    if d.post != [] { StartsFirst(b, z, d.post); }
    SkipsExactly(b, z, d.post);
    NothingStarts(b, k);
    ParseValueAt(b, k, [], d.val, 0);
  }

  lemma {:induction false} WholeStarts(b: seq<Byte>)
    ensures StartsWith(b, 0, b)
  {
    StartsSelf(b, 0);
    assert b[0..] == b;
  }

  lemma {:induction false} StartsSelf(b: seq<Byte>, i: nat)
    requires i <= |b|
    ensures StartsWith(b, i, b[i..])
    decreases |b| - i
  {
    if i < |b| {
      assert b[i..][1..] == b[i + 1..];
      StartsSelf(b, i + 1);
    }
  }

  lemma NothingStarts(b: seq<Byte>, i: nat)
    requires i <= |b|
    ensures StartsWith(b, i, [])
  {
  }

  // ---------------------------------------------------------------- what escapes and numerals are worth

  /** What the short escapes of section 7 stand for. */
  lemma EscapesStand(e: Byte)
    requires IsShort(e)
    ensures e in [0x22, 0x5C, 0x2F] ==> Unescape(e) == e
    ensures (e as char == 'b' ==> Unescape(e) == 8) && (e as char == 'f' ==> Unescape(e) == 12)
    ensures (e as char == 'n' ==> Unescape(e) == 10) && (e as char == 'r' ==> Unescape(e) == 13)
    ensures e as char == 't' ==> Unescape(e) == 9
  {
  }

  /** A code point beyond 0xFFFF from the two escapes UTF-16 writes it with. */
  lemma PairStands(cp: nat)
    requires 0x10000 <= cp <= 0x10FFFF
    ensures var hi, lo := 0xD800 + (cp - 0x10000) / 1024, 0xDC00 + (cp - 0x10000) % 1024;
            IsHigh(hi) && 0xDC00 <= lo <= 0xDFFF && Combine(hi, lo) == cp
  {
  }

  /** The high halves are the 16-bit numbers that begin with the bits 110110. */
  lemma HighsAre(u: nat)
    ensures IsHigh(u) <==> u / 1024 == 54
  {
  }

  /** A second escape that is no low half is taken all the same: the 32-bit sum wraps around to the plain one. */
  lemma PairIsSum(hi: nat, lo: nat)
    requires IsHigh(hi) && lo <= 0xFFFF
    ensures Combine(hi, lo) == 0x10000 + (hi - 0xD800) * 1024 + lo - 0xDC00
  {
  }

  /** Powers of ten, below zero too. */
  lemma {:induction false} PowersOfTen(e: int)
    ensures Pow10(0) == 1.0 && Pow10(e + 1) == 10.0 * Pow10(e)
  {
  }

  lemma DigitAfter(s: seq<Byte>, d: Byte)
    requires AllDigits(s) && IsDigit(d)
    ensures AllDigits(s + [d]) && DecValue(s + [d]) == 10 * DecValue(s) + (d - 0x30) && DecValue([]) == 0
  {
    assert (s + [d])[..|s|] == s;
  }

  /** An integer numeral is worth its digits. */
  lemma WholeIsWorth(neg: bool, whole: seq<Byte>)
    requires AllDigits(whole)
    ensures AllDigits(whole + []) && AllDigits([])
    ensures NumeralValue(neg, whole, [], false, [])
            == if neg then -(DecValue(whole) as real) else DecValue(whole) as real
  {
    assert whole + [] == whole;
  }

  lemma TenTimes(m: real, x: real)
    ensures m * (10.0 * x) == 10.0 * (m * x)
  {
  }

  /** A numeral as its digits times a power of ten. */
  lemma Scientific(neg: bool, whole: seq<Byte>, frac: seq<Byte>, expNeg: bool, exp: seq<Byte>, p: int)
    requires AllDigits(whole + frac) && AllDigits(exp)
    requires var e: int := DecValue(exp); p == (if expNeg then -e else e) - |frac|
    ensures var v := DecValue(whole + frac) as real * Pow10(p);
            NumeralValue(neg, whole, frac, expNeg, exp) == if neg then -v else v
  {
    hide Pow10, DecValue;
  }

  /** Moving a digit behind the point divides by ten. */
  lemma PointMoves(neg: bool, whole: seq<Byte>, d: Byte, frac: seq<Byte>, expNeg: bool, exp: seq<Byte>)
    requires AllDigits(whole + [d] + frac) && AllDigits(exp)
    ensures whole + ([d] + frac) == whole + [d] + frac
    ensures NumeralValue(neg, whole + [d], frac, expNeg, exp)
            == 10.0 * NumeralValue(neg, whole, [d] + frac, expNeg, exp)
  {
    hide Pow10, DecValue, NumeralValue, AllDigits;
    assert whole + ([d] + frac) == whole + [d] + frac;
    var e: int := DecValue(exp);
    var p := (if expNeg then -e else e) - |frac| - 1;
    Scientific(neg, whole + [d], frac, expNeg, exp, p + 1);
    Scientific(neg, whole, [d] + frac, expNeg, exp, p);
    PowersOfTen(p);
    TenTimes(DecValue(whole + [d] + frac) as real, Pow10(p));
  }

  /** An exponent of one more multiplies by ten, or divides if negative. */
  lemma ExponentGrows(neg: bool, whole: seq<Byte>, frac: seq<Byte>, expNeg: bool, exp: seq<Byte>, more: seq<Byte>)
    requires AllDigits(whole + frac) && AllDigits(exp) && AllDigits(more) && DecValue(more) == DecValue(exp) + 1
    ensures var a, b := NumeralValue(neg, whole, frac, expNeg, exp), NumeralValue(neg, whole, frac, expNeg, more);
            if expNeg then a == 10.0 * b else b == 10.0 * a
  {
    hide Pow10, DecValue, NumeralValue, AllDigits;
    var e: int := DecValue(exp);
    var p, q := (if expNeg then -e else e) - |frac|, (if expNeg then -e - 1 else e + 1) - |frac|;
    Scientific(neg, whole, frac, expNeg, exp, p);
    Scientific(neg, whole, frac, expNeg, more, q);
    var low := if expNeg then q else p;
    PowersOfTen(low);
    TenTimes(DecValue(whole + frac) as real, Pow10(low));
  }
}
