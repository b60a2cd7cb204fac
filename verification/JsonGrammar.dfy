/** The JSON grammar of RFC 8259 (sections 2 to 7) as concrete syntax trees over bytes.
    A tree keeps every byte of the text, so that a byte string is a JSON text exactly
    when it is `DocText(d)` of some `ValidDoc(d)`. Inside strings every byte from 0x20 on,
    except the quote and the backslash, stands for itself (UTF-8 is not decoded). */
module JsonGrammar {
  import opened Bytes

  datatype Word = NullWord | TrueWord | FalseWord

  function WordText(w: Word): seq<Byte> {
    match w
    case NullWord => [0x6E, 0x75, 0x6C, 0x6C]
    case TrueWord => [0x74, 0x72, 0x75, 0x65]
    case FalseWord => [0x66, 0x61, 0x6C, 0x73, 0x65]
  }

  /** Section 6: `number = [ minus ] int [ frac ] [ exp ]`, one field per part. */
  datatype Number = Number(neg: bool, whole: seq<Byte>, frac: seq<Byte>, exp: seq<Byte>)

  predicate Digits(s: seq<Byte>) { |s| > 0 && AllDigits(s) }

  predicate WholePart(s: seq<Byte>) { s == [ZERO] || (Digits(s) && s[0] != ZERO) }

  predicate FracPart(s: seq<Byte>) { s == [] || (s[0] == DOT && Digits(s[1..])) }

  predicate IsExpMark(b: Byte) { b == 0x65 || b == 0x45 }

  predicate IsSign(b: Byte) { b == PLUS || b == MINUS }

  predicate ExpPart(s: seq<Byte>) {
    s == [] || (IsExpMark(s[0]) && (Digits(s[1..]) || (|s| > 1 && IsSign(s[1]) && Digits(s[2..]))))
  }

  predicate ValidNumber(n: Number) { LooseNumber(n) && WholePart(n.whole) && FracPart(n.frac) && ExpPart(n.exp) }

  function FracDigits(f: seq<Byte>): seq<Byte> { if f == [] then [] else f[1..] }

  predicate LooseFrac(s: seq<Byte>) { s == [] || (s[0] == DOT && AllDigits(s[1..])) }

  /** A numeral as the parser takes it: leading zeros, and perhaps digits on one side of the point only,
      but in front of it unless there is a minus. */
  predicate LooseNumber(n: Number) {
    && AllDigits(n.whole) && LooseFrac(n.frac) && ExpPart(n.exp)
    && n.whole + FracDigits(n.frac) != [] && (n.neg || n.whole != [])
  }

  function SignText(neg: bool): seq<Byte> { if neg then [MINUS] else [] }

  function NumberText(n: Number): seq<Byte> { SignText(n.neg) + n.whole + n.frac + n.exp }

  /** Section 7: one character of a string body. */
  datatype Char = Plain(b: Byte) | Short(e: Byte) | Unicode(h: seq<Byte>)

  predicate IsPlain(b: Byte) { b >= 0x20 && b != QUOTE && b != BACKSLASH }

  /** The characters that may follow a backslash, `u` aside. */
  predicate IsShort(e: Byte) {
    e == QUOTE || e == BACKSLASH || e == SLASH || e == 0x62 || e == 0x66 || e == 0x6E || e == 0x72 || e == 0x74
  }

  predicate AllHex(h: seq<Byte>) { forall k :: 0 <= k < |h| ==> IsHex(h[k]) }

  predicate ValidChar(c: Char) {
    LooseChar(c)
    && match c
       case Plain(b) => IsPlain(b)
       case Short(e) => IsShort(e)
       case Unicode(h) => |h| == 4 && AllHex(h)
  }

  function CharText(c: Char): seq<Byte> {
    match c
    case Plain(b) => [b]
    case Short(e) => [BACKSLASH, e]
    case Unicode(h) => [BACKSLASH, 0x75] + h
  }

  predicate ValidChars(cs: seq<Char>) { LooseChars(cs) && forall k :: 0 <= k < |cs| ==> ValidChar(cs[k]) }

  /** Four hexadecimal digits, or three after a plus. */
  predicate LooseHex(h: seq<Byte>) { |h| == 4 && (AllHex(h) || (h[0] == PLUS && AllHex(h[1..]))) }

  /** A character as the parser takes it: control characters may stand as they are. */
  predicate LooseChar(c: Char) {
    match c
    case Plain(b) => b != QUOTE && b != BACKSLASH
    case Short(e) => IsShort(e)
    case Unicode(h) => LooseHex(h)
  }

  predicate LooseChars(cs: seq<Char>) { forall k :: 0 <= k < |cs| ==> LooseChar(cs[k]) }

  function CharsText(cs: seq<Char>): seq<Byte> {
    if cs == [] then [] else CharText(cs[0]) + CharsText(cs[1..])
  }

  function StringText(cs: seq<Char>): seq<Byte> { [QUOTE] + CharsText(cs) + [QUOTE] }

  /** Values. `Box` is an array or (`obj`) an object; `gap` is the whitespace of an empty one. */
  datatype Cst =
    | Lit(word: Word)
    | Num(num: Number)
    | Str(chars: seq<Char>)
    | Box(obj: bool, gap: seq<Byte>, items: seq<Item>)

  /** An element or a member with the whitespace around it. */
  datatype Item = Item(head: Head, pre: seq<Byte>, val: Cst, post: seq<Byte>)

  datatype Head = NoKey | Key(lead: seq<Byte>, name: seq<Char>, gap: seq<Byte>)

  predicate ValidHead(h: Head) {
    LooseHead(h) && (h.Key? ==> AllWs(h.lead) && ValidChars(h.name) && AllWs(h.gap))
  }

  predicate LooseHead(h: Head) { h.Key? ==> AllWs(h.lead) && LooseChars(h.name) && AllWs(h.gap) }

  function HeadText(h: Head): seq<Byte> {
    match h
    case NoKey => []
    case Key(lead, name, gap) => lead + StringText(name) + gap + [COLON]
  }

  function Open(obj: bool): Byte { if obj then LBRACE else LBRACKET }

  function Close(obj: bool): Byte { if obj then RBRACE else RBRACKET }

  predicate Valid(t: Cst)
    decreases t
  {
    Loose(t)
    && match t
       case Lit(_) => true
       case Num(n) => ValidNumber(n)
       case Str(cs) => ValidChars(cs)
       case Box(obj, gap, items) => AllWs(gap) && ValidItems(obj, items)
  }

  predicate ValidItems(obj: bool, items: seq<Item>)
    decreases items
  {
    LooseItems(obj, items) && forall k :: 0 <= k < |items| ==> ValidItem(obj, items[k])
  }

  predicate ValidItem(obj: bool, it: Item)
    decreases it
  {
    LooseItem(obj, it) && it.head.Key? == obj && ValidHead(it.head) && AllWs(it.pre) && Valid(it.val) && AllWs(it.post)
  }

  /** A value as the parser takes it: the liberties are in its numbers and strings. */
  predicate Loose(t: Cst)
    decreases t
  {
    match t
    case Lit(_) => true
    case Num(n) => LooseNumber(n)
    case Str(cs) => LooseChars(cs)
    case Box(obj, gap, items) => AllWs(gap) && LooseItems(obj, items)
  }

  predicate LooseItems(obj: bool, items: seq<Item>)
    decreases items
  {
    forall k :: 0 <= k < |items| ==> LooseItem(obj, items[k])
  }

  predicate LooseItem(obj: bool, it: Item)
    decreases it
  {
    it.head.Key? == obj && LooseHead(it.head) && AllWs(it.pre) && Loose(it.val) && AllWs(it.post)
  }

  /** JSON is among what the parser takes. */
  lemma ValidIsLoose(t: Cst)
    requires Valid(t)
    ensures Loose(t)
  {
  }

  lemma CharsAreLoose(cs: seq<Char>)
    requires ValidChars(cs)
    ensures LooseChars(cs)
  {
  }

  lemma ItemIsLoose(obj: bool, it: Item)
    requires ValidItem(obj, it)
    ensures LooseItem(obj, it)
  {
  }

  lemma ItemsAreLoose(obj: bool, items: seq<Item>)
    requires ValidItems(obj, items)
    ensures LooseItems(obj, items)
  {
  }

  function Text(t: Cst): seq<Byte>
    decreases t
  {
    match t
    case Lit(w) => WordText(w)
    case Num(n) => NumberText(n)
    case Str(cs) => StringText(cs)
    case Box(obj, gap, items) =>
      [Open(obj)] + (if items == [] then gap else BodyText(items)) + [Close(obj)]
  }

  function ItemText(it: Item): seq<Byte>
    decreases it
  {
    HeadText(it.head) + it.pre + Text(it.val) + it.post
  }

  /** Items separated by commas. */
  function BodyText(items: seq<Item>): seq<Byte>
    requires items != []
    decreases items, 1
  {
    assert items[|items| - 1] in items;
    DoneText(items[..|items| - 1]) + ItemText(items[|items| - 1])
  }

  /** Items each followed by its comma. */
  function DoneText(items: seq<Item>): seq<Byte>
    decreases items, 0
  {
    if items == [] then []
    else
      DoneText(items[..|items| - 1]) + ItemText(items[|items| - 1]) + [COMMA]
  }

  /** Section 2: `JSON-text = ws value ws`. */
  datatype Doc = Doc(pre: seq<Byte>, val: Cst, post: seq<Byte>)

  predicate ValidDoc(d: Doc) { LooseDoc(d) && AllWs(d.pre) && Valid(d.val) && AllWs(d.post) }

  predicate LooseDoc(d: Doc) { AllWs(d.pre) && Loose(d.val) && AllWs(d.post) }

  function DocText(d: Doc): seq<Byte> { d.pre + Text(d.val) + d.post }

  ghost predicate IsJsonText(w: seq<Byte>) { exists d :: ValidDoc(d) && DocText(d) == w }

  lemma {:induction false} CharsTextSnoc(cs: seq<Char>, c: Char)
    ensures CharsText(cs + [c]) == CharsText(cs) + CharText(c)
    decreases |cs|
  {
    hide CharText;
    if cs == [] {
      assert CharsText([c]) == CharText(c) + CharsText([]);
    } else {
      assert (cs + [c])[1..] == cs[1..] + [c] && (cs + [c])[0] == cs[0];
      CharsTextSnoc(cs[1..], c);
      Joins(CharText(cs[0]), CharsText(cs[1..]), CharText(c));
    }
  }

  lemma Joins(a: seq<Byte>, b: seq<Byte>, c: seq<Byte>)
    ensures a + (b + c) == a + b + c
  {
  }

  lemma DoneTextSnoc(items: seq<Item>, it: Item)
    ensures DoneText(items + [it]) == DoneText(items) + ItemText(it) + [COMMA]
    ensures BodyText(items + [it]) == DoneText(items) + ItemText(it)
  {
    assert (items + [it])[..|items|] == items;
  }

  /** The words and the characters of the grammar, spelled out. */
  lemma Spelled(b: Byte)
    ensures WordText(NullWord) == Ascii("null") && WordText(TrueWord) == Ascii("true")
    ensures WordText(FalseWord) == Ascii("false")
    ensures IsDigit(b) <==> '0' <= b as char <= '9'
    ensures IsHex(b) <==> '0' <= b as char <= '9' || 'a' <= b as char <= 'f' || 'A' <= b as char <= 'F'
    ensures IsWs(b) <==> b as char in {' ', '\t', '\r', '\n'}
    ensures IsShort(b) <==> b in [0x22, 0x5C] || b as char in {'/', 'b', 'f', 'n', 'r', 't'}
    ensures IsExpMark(b) <==> b as char in {'e', 'E'}
    ensures IsSign(b) <==> b as char in {'+', '-'}
    ensures [Open(true), Close(true), Open(false), Close(false)] == [0x7B, 0x7D, 0x5B, 0x5D]
    ensures [COMMA, COLON, QUOTE, DOT] == [0x2C, 0x3A, 0x22, 0x2E]
  {
  }
}
