/** Finding the end of the first brace-balanced object in a text, and why that is the end of the JSON
    object that starts there. */
module Braces {
  import opened Bytes
  import opened Search
  import opened JsonGrammar
  import opened JsonParser
  import P = JsonPrinter
  import A = JsonAgreement

  // ---------------------------------------------------------------- the scan

  /** Brace depth, and whether the scan is inside a string, after a backslash. */
  datatype Sc = Sc(depth: int, inStr: bool, esc: bool)

  function Out(depth: int): Sc { Sc(depth, false, false) }

  function In(depth: int): Sc { Sc(depth, true, false) }

  /** One byte; None when it closes the outermost brace. */
  function StepSc(s: Sc, c: Byte): Option<Sc> {
    if s.inStr then
      Some(if s.esc then s.(esc := false)
           else if c == BACKSLASH then s.(esc := true)
           else if c == QUOTE then s.(inStr := false)
           else s)
    else if c == QUOTE then Some(s.(inStr := true))
    else if c == LBRACE then Some(s.(depth := s.depth + 1))
    else if c == RBRACE then if s.depth == 1 then None else Some(s.(depth := s.depth - 1))
    else Some(s)
  }

  /** Position after the byte that closes the outermost brace, scanning from `i`. */
  function Scan(b: seq<Byte>, i: nat, s: Sc): (r: Option<nat>)
    ensures r.Some? ==> i < r.value <= |b|
    decreases |b| - i
  {
    if i >= |b| then None
    else
      match StepSc(s, b[i])
      case None => Some(i + 1)
      case Some(s') => Scan(b, i + 1, s')
  }

  function BalancedEnd(b: seq<Byte>): (r: Option<nat>)
    ensures r.Some? ==> 0 < r.value <= |b|
  {
    match Find(b, [LBRACE])
    case None => None
    case Some(k) => Scan(b, k, Out(0))
  }

  /** The loop: every byte from the first brace on, returning when the depth is back at zero. */
  method BalancedJsonEnd(b: seq<Byte>) returns (r: Option<nat>)
    ensures r == BalancedEnd(b)
  {
    var start := Find(b, [LBRACE]);
    if start.None? { return None; }
    var depth: int, inStr, esc := 0, false, false;
    for i := start.value to |b|
      invariant BalancedEnd(b) == Scan(b, i, Sc(depth, inStr, esc))
    {
      var c := b[i];
      if inStr {
        if esc {
          esc := false;
        } else if c == BACKSLASH {
          esc := true;
        } else if c == QUOTE {
          inStr := false;
        }
        continue;
      }
      if c == QUOTE {
        inStr := true;
      } else if c == LBRACE {
        depth := depth + 1;
      } else if c == RBRACE {
        depth := depth - 1;
        if depth == 0 { return Some(i + 1); }
      }
    }
    return None;
  }

  // ---------------------------------------------------------------- scanning a piece of text

  /** The state after a text; None if the outermost brace closes inside it. */
  function After(s: Sc, w: seq<Byte>): Option<Sc>
    decreases |w|
  {
    if w == [] then Some(s)
    else
      match StepSc(s, w[0])
      case None => None
      case Some(s') => After(s', w[1..])
  }

  lemma {:induction false} AfterConcat(s: Sc, a: seq<Byte>, b: seq<Byte>)
    requires After(s, a).Some?
    ensures After(s, a + b) == After(After(s, a).value, b)
    decreases |a|
  {
    hide StepSc;
    if a == [] {
      assert a + b == b;
    } else {
      assert (a + b)[1..] == a[1..] + b;
      AfterConcat(StepSc(s, a[0]).value, a[1..], b);
    }
  }

  lemma {:induction false} ScanOver(b: seq<Byte>, i: nat, s: Sc, w: seq<Byte>)
    requires i + |w| <= |b| && b[i..i + |w|] == w && After(s, w).Some?
    ensures Scan(b, i, s) == Scan(b, i + |w|, After(s, w).value)
    decreases |w|
  {
    hide StepSc;
    if w != [] {
      assert b[i] == w[0];
      assert b[i + 1..i + |w|] == w[1..];
      ScanOver(b, i + 1, StepSc(s, w[0]).value, w[1..]);
    }
  }

  /** Bytes that mean nothing to the scan, outside strings and inside. */
  predicate Quiet(c: Byte) { c != QUOTE && c != LBRACE && c != RBRACE }

  predicate AllQuiet(w: seq<Byte>) { forall k :: 0 <= k < |w| ==> Quiet(w[k]) }

  predicate StringQuiet(w: seq<Byte>) { forall k :: 0 <= k < |w| ==> w[k] != QUOTE && w[k] != BACKSLASH }

  lemma {:induction false} QuietAfter(d: int, w: seq<Byte>)
    ensures AllQuiet(w) ==> After(Out(d), w) == Some(Out(d))
    ensures StringQuiet(w) ==> After(In(d), w) == Some(In(d))
    decreases |w|
  {
    if w != [] { QuietAfter(d, w[1..]); }
  }

  // ---------------------------------------------------------------- JSON texts are balanced

  predicate Passes(s: Sc, w: seq<Byte>) { After(s, w) == Some(s) }

  lemma PassBoth(s: Sc, a: seq<Byte>, b: seq<Byte>)
    requires Passes(s, a) && Passes(s, b)
    ensures Passes(s, a + b)
  {
    AfterConcat(s, a, b);
  }

  lemma CharPasses(d: int, c: Char)
    requires ValidChar(c)
    ensures Passes(In(d), CharText(c))
  {
    match c
    case Plain(b) => QuietAfter(d, [b]);
    case Short(e) =>
      assert [BACKSLASH, e][1..] == [e];
      assert After(In(d), [e][1..]) == Some(In(d));
    case Unicode(h) =>
      QuietAfter(d, h);
      assert ([BACKSLASH, 0x75] + h)[1..] == [0x75] + h;
      assert ([0x75] + h)[1..] == h;
  }

  lemma {:induction false} CharsPass(d: int, cs: seq<Char>)
    requires ValidChars(cs)
    ensures Passes(In(d), CharsText(cs))
  {
    hide CharText, Passes;
    if cs == [] {
      QuietAfter(d, []);
      assert Passes(In(d), []) by { NothingPasses(In(d)); }
    } else {
      CharPasses(d, cs[0]);
      CharsPass(d, cs[1..]);
      PassBoth(In(d), CharText(cs[0]), CharsText(cs[1..]));
    }
  }

  lemma NothingPasses(s: Sc)
    ensures Passes(s, [])
  {
  }

  lemma StringPasses(d: int, cs: seq<Char>)
    requires ValidChars(cs)
    ensures Passes(Out(d), StringText(cs))
  {
    hide CharsText;
    CharsPass(d, cs);
    assert After(Out(d), [QUOTE]) == Some(In(d)) by { assert [QUOTE][1..] == []; }
    assert After(In(d), [QUOTE]) == Some(Out(d)) by { assert [QUOTE][1..] == []; }
    AfterConcat(Out(d), [QUOTE], CharsText(cs));
    AfterConcat(Out(d), [QUOTE] + CharsText(cs), [QUOTE]);
  }

  lemma WsQuiet(w: seq<Byte>)
    requires AllWs(w)
    ensures AllQuiet(w)
  {
  }

  lemma DigitsQuiet(w: seq<Byte>)
    requires AllDigits(w)
    ensures AllQuiet(w)
  {
  }

  lemma NumberQuiet(n: Number)
    requires ValidNumber(n)
    ensures AllQuiet(NumberText(n))
  {
    DigitsQuiet(n.whole);
    if n.frac != [] { DigitsQuiet(n.frac[1..]); TailQuiet(n.frac); }
    if n.exp != [] {
      if |n.exp| > 1 && IsSign(n.exp[1]) {
        if AllDigits(n.exp[2..]) {
          DigitsQuiet(n.exp[2..]);
          TailQuiet(n.exp[1..]);
          assert n.exp[1..][1..] == n.exp[2..];
        }
      } else {
        DigitsQuiet(n.exp[1..]);
      }
      TailQuiet(n.exp);
    }
  }

  lemma TailQuiet(w: seq<Byte>)
    requires w != [] && Quiet(w[0])
    ensures AllQuiet(w[1..]) ==> AllQuiet(w)
  {
    forall k | 1 <= k < |w| ensures w[k] == w[1..][k - 1] {}
  }

  lemma WordQuiet(w: Word)
    ensures AllQuiet(WordText(w))
  {
  }

  /** A value leaves the scan as it was. */
  lemma {:induction false} ValuePasses(d: int, t: Cst)
    requires Valid(t) && d >= 1
    ensures Passes(Out(d), Text(t))
    decreases t
  {
    hide Passes, BodyText, NumberText, StringText, AllQuiet, WordText;
    match t
    case Lit(w) =>
      WordQuiet(w);
      QuietPasses(d, WordText(w));
    case Num(n) =>
      NumberQuiet(n);
      QuietPasses(d, NumberText(n));
    case Str(cs) => StringPasses(d, cs);
    case Box(obj, gap, items) =>
      InsidePasses(if obj then d + 1 else d, obj, gap, items);
      var inner := if items == [] then gap else BodyText(items);
      if obj { BracePasses(d, inner); } else { BracketPasses(d, inner); }
  }

  lemma QuietPasses(d: int, w: seq<Byte>)
    requires AllQuiet(w)
    ensures Passes(Out(d), w)
  {
    QuietAfter(d, w);
  }

  lemma BracePasses(d: int, w: seq<Byte>)
    requires d >= 1 && Passes(Out(d + 1), w)
    ensures Passes(Out(d), [LBRACE] + w + [RBRACE])
  {
    assert After(Out(d), [LBRACE]) == Some(Out(d + 1)) by { assert [LBRACE][1..] == []; }
    assert After(Out(d + 1), [RBRACE]) == Some(Out(d)) by { assert [RBRACE][1..] == []; }
    AfterConcat(Out(d), [LBRACE], w);
    AfterConcat(Out(d), [LBRACE] + w, [RBRACE]);
  }

  lemma BracketPasses(d: int, w: seq<Byte>)
    requires Passes(Out(d), w)
    ensures Passes(Out(d), [LBRACKET] + w + [RBRACKET])
  {
    QuietAfter(d, [LBRACKET]);
    QuietAfter(d, [RBRACKET]);
    PassBoth(Out(d), [LBRACKET], w);
    PassBoth(Out(d), [LBRACKET] + w, [RBRACKET]);
  }

  /** What stands between the brackets of an array or the braces of an object. */
  lemma {:induction false} InsidePasses(d: int, obj: bool, gap: seq<Byte>, items: seq<Item>)
    requires AllWs(gap) && ValidItems(obj, items) && d >= 1
    ensures Passes(Out(d), if items == [] then gap else BodyText(items))
    decreases items, 2
  {
    hide Passes, ItemText, DoneText;
    if items == [] {
      WsQuiet(gap);
      QuietPasses(d, gap);
    } else {
      var last := items[|items| - 1];
      assert last in items;
      DonePasses(d, obj, items[..|items| - 1]);
      ItemPasses(d, obj, last);
      PassBoth(Out(d), DoneText(items[..|items| - 1]), ItemText(last));
    }
  }

  lemma {:induction false} DonePasses(d: int, obj: bool, items: seq<Item>)
    requires ValidItems(obj, items) && d >= 1
    ensures Passes(Out(d), DoneText(items))
    decreases items, 1
  {
    hide Passes, ItemText;
    if items == [] {
      NothingPasses(Out(d));
    } else {
      var front, last := items[..|items| - 1], items[|items| - 1];
      assert last in items;
      DonePasses(d, obj, front);
      ItemPasses(d, obj, last);
      PassBoth(Out(d), DoneText(front), ItemText(last));
      QuietPasses(d, [COMMA]);
      PassBoth(Out(d), DoneText(front) + ItemText(last), [COMMA]);
    }
  }

  lemma {:induction false} ItemPasses(d: int, obj: bool, it: Item)
    requires ValidItem(obj, it) && d >= 1
    ensures Passes(Out(d), ItemText(it))
    decreases it, 0
  {
    hide Passes, StringText, Text;
    HeadPasses(d, it.head);
    WsQuiet(it.pre);
    QuietPasses(d, it.pre);
    ValuePasses(d, it.val);
    WsQuiet(it.post);
    QuietPasses(d, it.post);
    PassBoth(Out(d), HeadText(it.head), it.pre);
    PassBoth(Out(d), HeadText(it.head) + it.pre, Text(it.val));
    PassBoth(Out(d), HeadText(it.head) + it.pre + Text(it.val), it.post);
  }

  lemma HeadPasses(d: int, h: Head)
    requires ValidHead(h)
    ensures Passes(Out(d), HeadText(h))
  {
    hide Passes, StringText;
    match h
    case NoKey => NothingPasses(Out(d));
    case Key(lead, name, gap) =>
      WsQuiet(lead);
      QuietPasses(d, lead);
      StringPasses(d, name);
      WsQuiet(gap);
      QuietPasses(d, gap);
      QuietPasses(d, [COLON]);
      PassBoth(Out(d), lead, StringText(name));
      PassBoth(Out(d), lead + StringText(name), gap);
      PassBoth(Out(d), lead + StringText(name) + gap, [COLON]);
  }

  predicate NoBrace(w: seq<Byte>) { forall k :: 0 <= k < |w| ==> w[k] != LBRACE }

  /** The end found in text without a brace, then an object, then anything, is the end of the object:
      any JSON object, however deep, with whatever whitespace. */
  lemma ObjectEnds(pre: seq<Byte>, t: Cst, tail: seq<Byte>)
    requires NoBrace(pre) && Valid(t) && t.Box? && t.obj
    ensures BalancedEnd(pre + Text(t) + tail) == Some(|pre| + |Text(t)|)
  {
    hide Passes, BodyText, ValidItems, Text;
    var w := Text(t);
    var inner := ObjectInside(t);
    FirstBrace(pre, w + tail);
    assert pre + (w + tail) == pre + w + tail;
    InsidePasses(1, true, t.gap, t.items);
    Passed(Out(1), inner);
    BracedEnds(pre, inner, tail);
  }

  lemma ObjectInside(t: Cst) returns (inner: seq<Byte>)
    requires t.Box? && t.obj
    ensures inner == (if t.items == [] then t.gap else BodyText(t.items)) && Text(t) == [LBRACE] + inner + [RBRACE]
  {
    inner := if t.items == [] then t.gap else BodyText(t.items);
  }

  lemma BracedEnds(pre: seq<Byte>, inner: seq<Byte>, tail: seq<Byte>)
    requires After(Out(1), inner) == Some(Out(1))
    ensures var w := [LBRACE] + inner + [RBRACE];
            Scan(pre + w + tail, |pre|, Out(0)) == Some(|pre| + |w|)
  {
    var b := pre + ([LBRACE] + inner + [RBRACE]) + tail;
    var k := |pre|;
    assert b[k] == LBRACE && b[k + 1..k + 1 + |inner|] == inner && b[k + 1 + |inner|] == RBRACE;
    ScanOver(b, k + 1, Out(1), inner);
  }

  lemma Passed(s: Sc, w: seq<Byte>)
    requires Passes(s, w)
    ensures After(s, w) == Some(s)
  {
  }

  lemma {:induction false} FirstBrace(pre: seq<Byte>, rest: seq<Byte>)
    requires NoBrace(pre) && rest != [] && rest[0] == LBRACE
    ensures Find(pre + rest, [LBRACE]) == Some(|pre|)
    decreases |pre|
  {
    if pre == [] {
      assert pre + rest == rest;
    } else {
      assert (pre + rest)[1..] == pre[1..] + rest;
      FirstBrace(pre[1..], rest);
    }
  }

  /** The end of a printed object is where its print ends, whatever follows. */
  lemma DumpEnds(j: Json, tail: seq<Byte>)
    requires P.Dumpable(j) && j.JObj?
    ensures BalancedEnd(P.Dump(j) + tail) == Some(|P.Dump(j)|)
  {
    hide Valid, P.Dumpable, BalancedEnd, P.DumpMembers, A.MemberItems;
    A.DumpDoc(j);
    ObjectEnds([], A.CstOf(j), tail);
    assert [] + Text(A.CstOf(j)) + [] == P.Dump(j);
    assert [] + Text(A.CstOf(j)) + tail == P.Dump(j) + tail;
  }

  // ---------------------------------------------------------------- whatever the parser accepts is balanced

  lemma ScanQuiet(b: seq<Byte>, i: nat, j: nat, d: int)
    requires i <= j <= |b|
    ensures AllQuiet(b[i..j]) ==> Scan(b, i, Out(d)) == Scan(b, j, Out(d))
    ensures StringQuiet(b[i..j]) ==> Scan(b, i, In(d)) == Scan(b, j, In(d))
  {
    hide Scan, StepSc;
    QuietAfter(d, b[i..j]);
    if AllQuiet(b[i..j]) { ScanOver(b, i, Out(d), b[i..j]); }
    if StringQuiet(b[i..j]) { ScanOver(b, i, In(d), b[i..j]); }
  }

  lemma ScanWs(b: seq<Byte>, i: nat, d: int)
    requires i <= |b|
    ensures Scan(b, i, Out(d)) == Scan(b, SkipWs(b, i), Out(d))
  {
    WsQuiet(b[i..SkipWs(b, i)]);
    ScanQuiet(b, i, SkipWs(b, i), d);
  }

  lemma HexQuiet(b: seq<Byte>, i: nat, d: int)
    requires PHex4(b, i).Ok?
    ensures i + 4 <= |b| && Scan(b, i, In(d)) == Scan(b, i + 4, In(d))
  {
    assert StringQuiet(b[i..i + 4]) by {
      if b[i] == PLUS {
        assert b[i..i + 4] == [PLUS] + b[i + 1..i + 4];
      } else {
        assert AllHex(b[i..i + 4]);
      }
    }
    ScanQuiet(b, i, i + 4, d);
  }

  lemma UnicodeScans(b: seq<Byte>, i: nat, d: int)
    requires PUnicode(b, i).Ok?
    ensures Scan(b, i, In(d)) == Scan(b, PUnicode(b, i).value.1, In(d))
  {
    hide Utf8, Combine, PHex4;
    HexQuiet(b, i, d);
    if IsHigh(PHex4(b, i).value.0) {
      assert Scan(b, i + 4, In(d)) == Scan(b, i + 6, In(d)) by {
        assert Scan(b, i + 5, Sc(d, true, true)) == Scan(b, i + 6, In(d));
      }
      HexQuiet(b, i + 6, d);
    }
  }

  /** The rest of a string, up to and including its closing quote. */
  lemma {:induction false} CharsScan(b: seq<Byte>, i: nat, acc: seq<Byte>, d: int)
    requires i <= |b| && PChars(b, i, acc).Ok?
    ensures Scan(b, i, In(d)) == Scan(b, PChars(b, i, acc).value.1, Out(d))
    decreases |b| - i
  {
    hide PUnicode, Unescape;
    if b[i] == BACKSLASH {
      var e := PEscape(b, i + 1);
      assert Scan(b, i + 1, Sc(d, true, true)) == Scan(b, i + 2, In(d));
      if !IsShort(b[i + 1]) { UnicodeScans(b, i + 2, d); }
      CharsScan(b, e.value.1, acc + e.value.0, d);
    } else if b[i] != QUOTE {
      CharsScan(b, i + 1, acc + [b[i]], d);
    }
  }

  lemma StringScans(b: seq<Byte>, i: nat, d: int)
    requires PString(b, i).Ok?
    ensures Scan(b, i, Out(d)) == Scan(b, PString(b, i).value.1, Out(d))
  {
    hide PChars;
    CharsScan(b, i + 1, [], d);
  }

  lemma NumberScans(b: seq<Byte>, i: nat, d: int)
    requires i <= |b|
    ensures Scan(b, i, Out(d)) == Scan(b, NumberExtent(b, i).end, Out(d))
  {
    hide ScanDigits, Scan;
    var x := NumberExtent(b, i);
    forall k | i <= k < x.end ensures Quiet(b[k]) {
      if x.whole <= k < x.wholeEnd { assert IsDigit(b[x.whole..x.wholeEnd][k - x.whole]); }
      if x.frac <= k < x.fracEnd { assert IsDigit(b[x.frac..x.fracEnd][k - x.frac]); }
      if x.exp <= k < x.end { assert IsDigit(b[x.exp..x.end][k - x.exp]); }
    }
    ScanQuiet(b, i, x.end, d);
  }

  lemma WordScans(b: seq<Byte>, i: nat, w: Word, d: int)
    requires PWord(b, i, w).Ok?
    ensures i + |WordText(w)| <= |b| && Scan(b, i, Out(d)) == Scan(b, i + |WordText(w)|, Out(d))
  {
    WordQuiet(w);
    Starts(b, i, WordText(w));
    ScanQuiet(b, i, i + |WordText(w)|, d);
  }

  lemma {:induction false} Starts(b: seq<Byte>, i: nat, w: seq<Byte>)
    requires StartsWith(b, i, w)
    ensures i + |w| <= |b| && b[i..i + |w|] == w
    decreases |w|
  {
    if w != [] {
      Starts(b, i + 1, w[1..]);
      assert b[i..i + |w|] == [b[i]] + b[i + 1..i + |w|];
    }
  }

  /** A literal, a number or a string. */
  lemma ScalarScans(b: seq<Byte>, k: nat, depth: nat, d: int)
    requires k < |b| && !IsWs(b[k]) && b[k] != LBRACE && b[k] != LBRACKET && PValue(b, k, depth).Ok?
    ensures Scan(b, k, Out(d)) == Scan(b, PValue(b, k, depth).value.1, Out(d))
  {
    hide PMembers, PElems, PString, PNumber, PWord, Scan;
    assert SkipWs(b, k) == k;
    if b[k] == QUOTE {
      StringScans(b, k, d);
    } else if b[k] == MINUS || IsDigit(b[k]) {
      NumberScans(b, k, d);
      NumberEnd(b, k);
    } else {
      var w := if b[k] == 0x74 then TrueWord else if b[k] == 0x66 then FalseWord else NullWord;
      WordScans(b, k, w, d);
      WordEnd(b, k, w);
    }
  }

  lemma AtValue(b: seq<Byte>, i: nat, depth: nat)
    requires i <= |b| && PValue(b, i, depth).Ok?
    ensures var k := SkipWs(b, i);
            k < |b| && !IsWs(b[k]) && SkipWs(b, k) == k && PValue(b, k, depth) == PValue(b, i, depth)
  {
    hide PMembers, PElems, PString, PNumber, PWord;
  }

  /** A parsed value is passed over. */
  lemma {:induction false} ValueScans(b: seq<Byte>, i: nat, depth: nat, d: int)
    requires i <= |b| && PValue(b, i, depth).Ok? && d >= 1
    ensures Scan(b, i, Out(d)) == Scan(b, PValue(b, i, depth).value.1, Out(d))
    decreases |b| - i, 4
  {
    hide PValue, SkipWs;
    ScanWs(b, i, d);
    AtValue(b, i, depth);
    var k := SkipWs(b, i);
    if b[k] == LBRACE {
      ObjectScans(b, k, depth, d);
      assert Scan(b, k, Out(d)) == Scan(b, k + 1, Out(d + 1));
    } else if b[k] == LBRACKET {
      ArrayScans(b, k, depth, d);
    } else {
      ScalarScans(b, k, depth, d);
    }
  }

  lemma {:induction false} ArrayScans(b: seq<Byte>, k: nat, depth: nat, d: int)
    requires k < |b| && b[k] == LBRACKET && d >= 1 && PValue(b, k, depth).Ok?
    ensures Scan(b, k, Out(d)) == Scan(b, PValue(b, k, depth).value.1, Out(d))
    decreases |b| - k, 3
  {
    hide PMembers, PElems, PString, PNumber, PWord;
    assert SkipWs(b, k) == k;
    ScanWs(b, k + 1, d);
    var j := SkipWs(b, k + 1);
    if !Here(b, j, RBRACKET) { ElemsScan(b, j, depth, [], d); }
  }

  lemma WordEnd(b: seq<Byte>, i: nat, w: Word)
    requires PWord(b, i, w).Ok?
    ensures PWord(b, i, w).value.1 == i + |WordText(w)|
  {
  }

  lemma NumberEnd(b: seq<Byte>, i: nat)
    requires i <= |b| && PNumber(b, i).Ok?
    ensures PNumber(b, i).value.1 == NumberExtent(b, i).end
  {
    hide NumberExtent, NumeralValue;
  }

  /** An object from its opening brace on; at the outermost level the scan ends where the object does. */
  lemma {:induction false} ObjectScans(b: seq<Byte>, k: nat, depth: nat, d: int)
    requires k < |b| && b[k] == LBRACE && d >= 0 && PValue(b, k, depth).Ok?
    ensures d >= 1 ==> Scan(b, k + 1, Out(d + 1)) == Scan(b, PValue(b, k, depth).value.1, Out(d))
    ensures d == 0 ==> Scan(b, k + 1, Out(1)) == Some(PValue(b, k, depth).value.1)
    decreases |b| - k, 3
  {
    hide PMembers, PElems, PString, PNumber, PWord;
    assert SkipWs(b, k) == k;
    ScanWs(b, k + 1, d + 1);
    var j := SkipWs(b, k + 1);
    if !Here(b, j, RBRACE) { MembersScan(b, j, depth, [], d); }
  }

  lemma {:induction false} ElemsScan(b: seq<Byte>, i: nat, depth: nat, acc: seq<Json>, d: int)
    requires i <= |b| && PElems(b, i, depth, acc).Ok? && d >= 1
    ensures Scan(b, i, Out(d)) == Scan(b, PElems(b, i, depth, acc).value.1, Out(d))
    decreases |b| - i, 5
  {
    hide PValue, SkipWs;
    ValueScans(b, i, depth + 1, d);
    var v := PValue(b, i, depth + 1);
    ScanWs(b, v.value.1, d);
    var j := SkipWs(b, v.value.1);
    if Here(b, j, COMMA) { ElemsScan(b, j + 1, depth, acc + [v.value.0], d); }
  }

  lemma {:induction false} MembersScan(b: seq<Byte>, i: nat, depth: nat, acc: seq<Member>, d: int)
    requires i <= |b| && PMembers(b, i, depth, acc).Ok? && d >= 0
    ensures d >= 1 ==> Scan(b, i, Out(d + 1)) == Scan(b, PMembers(b, i, depth, acc).value.1, Out(d))
    ensures d == 0 ==> Scan(b, i, Out(1)) == Some(PMembers(b, i, depth, acc).value.1)
    decreases |b| - i, 2
  {
    hide PMember, SkipWs;
    MemberScans(b, i, depth, d + 1);
    var m := PMember(b, i, depth);
    ScanWs(b, m.value.1, d + 1);
    var j := SkipWs(b, m.value.1);
    if Here(b, j, COMMA) { MembersScan(b, j + 1, depth, acc + [m.value.0], d); }
  }

  lemma {:induction false} MemberScans(b: seq<Byte>, i: nat, depth: nat, d: int)
    requires i <= |b| && PMember(b, i, depth).Ok? && d >= 1
    ensures Scan(b, i, Out(d)) == Scan(b, PMember(b, i, depth).value.1, Out(d))
    decreases |b| - i, 1
  {
    hide PValue, PString, SkipWs, Scan;
    ScanWs(b, i, d);
    var s := SkipWs(b, i);
    StringScans(b, s, d);
    var key := PString(b, s);
    ScanWs(b, key.value.1, d);
    var c := SkipWs(b, key.value.1);
    assert AllQuiet(b[c..c + 1]);
    ScanQuiet(b, c, c + 1, d);
    ValueScans(b, c + 1, depth + 1, d);
  }

  lemma {:induction false} ScanExtends(b: seq<Byte>, tail: seq<Byte>, i: nat, s: Sc)
    requires Scan(b, i, s).Some?
    ensures Scan(b + tail, i, s) == Scan(b, i, s)
    decreases |b| - i
  {
    hide StepSc;
    if StepSc(s, b[i]).Some? { ScanExtends(b, tail, i + 1, StepSc(s, b[i]).value); }
  }

  lemma {:induction false} ScanCut(b: seq<Byte>, p: nat, i: nat, s: Sc)
    requires p <= |b| && Scan(b[..p], i, s).Some?
    ensures Scan(b, i, s) == Scan(b[..p], i, s)
  {
    ScanExtends(b[..p], b[p..], i, s);
    assert b[..p] + b[p..] == b;
  }

  /** Text the parser accepts as an object, without space around it. */
  predicate ObjectText(w: seq<Byte>) { Parse(w).Ok? && w != [] && w[0] == LBRACE && !IsWs(w[|w| - 1]) }

  lemma WsToEnd(w: seq<Byte>, e: nat)
    requires e <= |w| && SkipWs(w, e) == |w|
    ensures e == |w| || IsWs(w[|w| - 1])
  {
    if e < |w| { assert w[|w| - 1] == w[e..SkipWs(w, e)][|w| - 1 - e]; }
  }

  lemma ObjectScanned(w: seq<Byte>)
    requires ObjectText(w)
    ensures Scan(w, 0, Out(0)) == Some(|w|)
  {
    hide PMembers, PElems, PString, PNumber, PWord, PValue;
    assert SkipWs(w, 0) == 0;
    var e := PValue(w, 0, 0).value.1;
    assert SkipWs(w, e) == |w|;
    WsToEnd(w, e);
    ObjectScans(w, 0, 0, 0);
  }

  /** For any text the parser accepts as an object, the end found is its end, whatever follows. */
  lemma ParsedEnds(pre: seq<Byte>, w: seq<Byte>, tail: seq<Byte>)
    requires NoBrace(pre) && ObjectText(w)
    ensures BalancedEnd(pre + w + tail) == Some(|pre| + |w|)
  {
    hide Parse;
    ObjectScanned(w);
    ScanExtends(w, tail, 0, Out(0));
    FirstBrace(pre, w + tail);
    assert pre + (w + tail) == pre + w + tail;
    ScanShifts(pre, w + tail, 0, Out(0));
  }

  lemma {:induction false} ScanShifts(pre: seq<Byte>, b: seq<Byte>, i: nat, s: Sc)
    requires i <= |b|
    ensures Scan(pre + b, |pre| + i, s)
            == match Scan(b, i, s) case None => None case Some(e) => Some(|pre| + e)
    decreases |b| - i
  {
    hide StepSc;
    if i < |b| && StepSc(s, b[i]).Some? { ScanShifts(pre, b, i + 1, StepSc(s, b[i]).value); }
  }

  /** No proper prefix of an object's text, trimmed or not, is accepted as JSON. */
  lemma PrefixIsNoObject(w: seq<Byte>, p: nat)
    requires ObjectText(w) && p < |w|
    ensures Parse(Trim(w[..p])).Err?
  {
    hide Parse;
    ObjectScanned(w);
    if p > 0 {
      var t := TrimmedPrefix(w, p);
      if Parse(w[..t]).Ok? {
        LastVisible(w, t);
        assert ObjectText(w[..t]);
        ObjectScanned(w[..t]);
        ScanCut(w, t, 0, Out(0));
        assert false;
      }
    } else {
      EmptyIsNoJson();
    }
  }

  lemma EmptyIsNoJson()
    ensures Trim([]) == [] && Parse([]).Err?
  {
  }

  lemma LastVisible(w: seq<Byte>, t: nat)
    requires 0 < t <= |w| && !IsSpace(w[t - 1])
    ensures w[..t][0] == w[0] && !IsWs(w[..t][|w[..t]| - 1])
  {
  }

  /** Trimming a text that starts with a visible byte only cuts its end. */
  lemma {:induction false} TrimmedPrefix(w: seq<Byte>, p: nat) returns (t: nat)
    requires 0 < p <= |w| && w[0] == LBRACE
    ensures 0 < t <= p && Trim(w[..p]) == w[..t] && !IsSpace(w[t - 1])
    decreases p
  {
    if IsSpace(w[p - 1]) {
      assert w[..p][..p - 1] == w[..p - 1];
      t := TrimmedPrefix(w, p - 1);
    } else {
      t := p;
    }
  }
}
