/** What the parser accepts, exactly: JSON texts, but for the liberties it takes inside numbers, strings
    and escapes; and the value it gives is the meaning of the text. */
module JsonLoose {
  import opened Bytes
  import opened JsonGrammar
  import opened JsonParser
  import opened JsonMeaning

  /** The text `b[i..j]` is a loose value that means `v`, nested no deeper than the limit allows. */
  ghost predicate Spells(b: seq<Byte>, i: nat, j: nat, t: Cst, v: Json, depth: nat) {
    && i <= j <= |b| && Loose(t) && b[i..j] == Text(t) && Meaning(t) == Some(v) && Nests(t, depth)
  }

  // ---------------------------------------------------------------- strings

  lemma Meets(b: seq<Byte>, i: nat, k: nat, j: nat)
    requires i <= k <= j <= |b|
    ensures b[i..j] == b[i..k] + b[k..j]
  {
  }

  lemma Hex4Is(b: seq<Byte>, i: nat)
    requires PHex4(b, i).Ok?
    ensures i + 4 <= |b| && LooseHex(b[i..i + 4]) && PHex4(b, i).value == (LooseHexValue(b[i..i + 4]), i + 4)
  {
    var h := b[i..i + 4];
    assert h[0] == b[i] && h[1..] == b[i + 1..i + 4];
  }

  lemma UnicodeIs(b: seq<Byte>, i: nat)
    requires i + 1 <= |b| && PUnicode(b, i + 1).Ok? && b[i] == 0x75
    ensures i + 5 <= |b| && LooseHex(b[i + 1..i + 5])
    ensures !IsHigh(LooseHexValue(b[i + 1..i + 5])) ==>
              PUnicode(b, i + 1).value == (Utf8(LooseHexValue(b[i + 1..i + 5])), i + 5)
    ensures IsHigh(LooseHexValue(b[i + 1..i + 5])) ==>
              i + 11 <= |b| && b[i + 5] == BACKSLASH && b[i + 6] == 0x75 && LooseHex(b[i + 7..i + 11])
              && PUnicode(b, i + 1).value
                 == (Utf8(Combine(LooseHexValue(b[i + 1..i + 5]), LooseHexValue(b[i + 7..i + 11]))), i + 11)
  {
    hide PHex4, LooseHex, LooseHexValue, Combine, Utf8;
    Hex4Is(b, i + 1);
    if IsHigh(LooseHexValue(b[i + 1..i + 5])) { Hex4Is(b, i + 7); }
  }

  /** `cs` is the body of a string from `i` on, up to and with the quote before `j`. */
  predicate IsBody(b: seq<Byte>, i: nat, j: nat, cs: seq<Char>) {
    i <= j <= |b| && LooseChars(cs) && b[i..j] == CharsText(cs) + [QUOTE]
  }

  lemma BodyCons(b: seq<Byte>, i: nat, k: nat, j: nat, c: Char, rest: seq<Char>)
    requires i <= k && IsBody(b, k, j, rest) && LooseChar(c) && b[i..k] == CharText(c)
    ensures IsBody(b, i, j, [c] + rest)
  {
    hide CharText, LooseChar;
    assert ([c] + rest)[1..] == rest;
    Meets(b, i, k, j);
    Assoc(CharText(c), CharsText(rest), [QUOTE]);
  }

  lemma OneMeaning(c: Char, rest: seq<Char>)
    requires LooseChar(c) && LooseChars(rest) && !(c.Unicode? && IsHigh(LooseHexValue(c.h)))
    requires CharsMeaning(rest).Some?
    ensures LooseChars([c] + rest)
    ensures CharsMeaning([c] + rest) == Some(CharMeaning(c) + CharsMeaning(rest).value)
  {
    hide LooseChar, LooseHexValue, CharMeaning;
    assert ([c] + rest)[1..] == rest;
  }

  lemma PairMeaning(c: Char, d: Char, rest: seq<Char>)
    requires LooseChar(c) && LooseChar(d) && LooseChars(rest) && c.Unicode? && d.Unicode?
    requires IsHigh(LooseHexValue(c.h)) && CharsMeaning(rest).Some?
    ensures LooseChars([c] + ([d] + rest))
    ensures CharsMeaning([c] + ([d] + rest))
            == Some(Utf8(Combine(LooseHexValue(c.h), LooseHexValue(d.h))) + CharsMeaning(rest).value)
  {
    hide LooseHexValue, Utf8, Combine;
    var cs := [c] + ([d] + rest);
    assert cs[1] == d && cs[2..] == rest;
  }

  lemma EscapeText(b: seq<Byte>, i: nat)
    requires i + 6 <= |b| && b[i] == BACKSLASH && b[i + 1] == 0x75
    ensures b[i..i + 6] == CharText(Unicode(b[i + 2..i + 6]))
  {
  }

  lemma {:induction false} CharsAccepted(b: seq<Byte>, i: nat, acc: seq<Byte>) returns (cs: seq<Char>)
    requires i <= |b| && PChars(b, i, acc).Ok?
    ensures IsBody(b, i, PChars(b, i, acc).value.1, cs) && CharsMeaning(cs).Some?
    ensures PChars(b, i, acc).value.0 == acc + CharsMeaning(cs).value
    decreases |b| - i
  {
    hide PUnicode, LooseHex, LooseHexValue, Utf8, Combine, IsBody, CharText;
    if b[i] == QUOTE {
      cs := [];
      EmptyBody(b, i);
      assert acc + [] == acc;
    } else if b[i] != BACKSLASH {
      var rest := CharsAccepted(b, i + 1, acc + [b[i]]);
      var c := Plain(b[i]);
      OneByteText(b, i);
      BodyCons(b, i, i + 1, PChars(b, i, acc).value.1, c, rest);
      BodyLoose(b, i + 1, PChars(b, i, acc).value.1, rest);
      OneMeaning(c, rest);
      Assoc(acc, [b[i]], CharsMeaning(rest).value);
      cs := [c] + rest;
    } else {
      cs := EscapeAccepted(b, i, acc);
    }
  }

  lemma EmptyBody(b: seq<Byte>, i: nat)
    requires i < |b| && b[i] == QUOTE
    ensures IsBody(b, i, i + 1, [])
  {
  }

  lemma OneByteText(b: seq<Byte>, i: nat)
    requires i < |b|
    ensures b[i..i + 1] == CharText(Plain(b[i]))
  {
  }

  lemma BodyLoose(b: seq<Byte>, i: nat, j: nat, cs: seq<Char>)
    requires IsBody(b, i, j, cs)
    ensures LooseChars(cs)
  {
  }

  lemma ShortText(b: seq<Byte>, i: nat)
    requires i + 1 < |b| && b[i] == BACKSLASH
    ensures b[i..i + 2] == CharText(Short(b[i + 1]))
  {
  }

  lemma {:induction false} EscapeAccepted(b: seq<Byte>, i: nat, acc: seq<Byte>) returns (cs: seq<Char>)
    requires i < |b| && b[i] == BACKSLASH && PChars(b, i, acc).Ok?
    ensures IsBody(b, i, PChars(b, i, acc).value.1, cs) && CharsMeaning(cs).Some?
    ensures PChars(b, i, acc).value.0 == acc + CharsMeaning(cs).value
    decreases |b| - i, -1
  {
    hide PUnicode, LooseHex, LooseHexValue, Utf8, Combine, IsBody, CharText;
    var e := PEscape(b, i + 1).value;
    var end := PChars(b, i, acc).value.1;
    var rest := CharsAccepted(b, e.1, acc + e.0);
    BodyLoose(b, e.1, end, rest);
    Assoc(acc, e.0, CharsMeaning(rest).value);
    if IsShort(b[i + 1]) {
      var c := Short(b[i + 1]);
      ShortText(b, i);
      BodyCons(b, i, i + 2, end, c, rest);
      OneMeaning(c, rest);
      cs := [c] + rest;
    } else {
      UnicodeIs(b, i + 1);
      EscapeText(b, i);
      var c := Unicode(b[i + 2..i + 6]);
      if IsHigh(LooseHexValue(c.h)) {
        EscapeText(b, i + 6);
        var d := Unicode(b[i + 8..i + 12]);
        BodyCons(b, i + 6, i + 12, end, d, rest);
        BodyCons(b, i, i + 6, end, c, [d] + rest);
        PairMeaning(c, d, rest);
        cs := [c] + ([d] + rest);
      } else {
        BodyCons(b, i, i + 6, end, c, rest);
        OneMeaning(c, rest);
        cs := [c] + rest;
      }
    }
  }

  lemma StringAccepted(b: seq<Byte>, i: nat) returns (cs: seq<Char>)
    requires PString(b, i).Ok?
    ensures i <= PString(b, i).value.1 <= |b| && LooseChars(cs)
    ensures b[i..PString(b, i).value.1] == StringText(cs)
    ensures CharsMeaning(cs) == Some(PString(b, i).value.0)
  {
    hide PChars;
    var end := PString(b, i).value.1;
    cs := CharsAccepted(b, i + 1, []);
    Meets(b, i, i + 1, end);
    Assoc([QUOTE], CharsText(cs), [QUOTE]);
    assert [] + CharsMeaning(cs).value == CharsMeaning(cs).value;
  }

  // ---------------------------------------------------------------- numbers

  /** The numeral between `i` and `j`. */
  function NumeralIn(b: seq<Byte>, i: nat, x: Extent): Number
    requires i <= x.whole <= x.wholeEnd <= x.frac <= x.fracEnd <= x.exp <= x.end <= |b|
  {
    Number(Here(b, i, MINUS), b[x.whole..x.wholeEnd], b[x.wholeEnd..x.fracEnd], b[x.fracEnd..x.end])
  }

  lemma FracIn(b: seq<Byte>, i: nat)
    requires i <= |b|
    ensures var x := FracExtent(b, i); LooseFrac(b[i..x.1]) && FracDigits(b[i..x.1]) == b[x.0..x.1]
  {
    var x := FracExtent(b, i);
    if Here(b, i, DOT) {
      assert b[i..x.1] == [b[i]] + b[i + 1..x.1];
    } else {
      assert b[i..x.1] == [];
    }
  }

  lemma ExpIn(b: seq<Byte>, i: nat)
    requires i <= |b| && (i < |b| && IsExpMark(b[i]) ==> ExpExtent(b, i).0 < ExpExtent(b, i).1)
    ensures var x := ExpExtent(b, i); var e := b[i..x.1];
            && ExpPart(e) && ExpDigits(e) == b[x.0..x.1]
            && ExpNegative(e) == (i < |b| && IsExpMark(b[i]) && b[x.0 - 1] == MINUS)
  {
    hide ScanDigits;
    var x := ExpExtent(b, i);
    var e := b[i..x.1];
    if i < |b| && IsExpMark(b[i]) {
      var ds := b[x.0..x.1];
      assert ds[0] == b[x.0];
      if x.0 == i + 1 {
        assert e[1..] == ds && e[0] == b[i] && e[1] == ds[0];
      } else {
        assert e[2..] == ds && e[0] == b[i] && e[1] == b[i + 1];
      }
    } else {
      assert e == [];
    }
  }

  lemma NumberAccepted(b: seq<Byte>, i: nat) returns (n: Number)
    requires i < |b| && (b[i] == MINUS || IsDigit(b[i])) && PNumber(b, i).Ok?
    ensures i <= PNumber(b, i).value.1 <= |b| && LooseNumber(n) && b[i..PNumber(b, i).value.1] == NumberText(n)
    ensures PNumber(b, i).value.0 == JNum(NumberMeaning(n))
  {
    hide ScanDigits, FracExtent, ExpExtent, NumeralValue, ExpPart, FracDigits, ExpDigits, ExpNegative, LooseFrac;
    var x := NumberExtent(b, i);
    n := NumeralIn(b, i, x);
    FracIn(b, x.wholeEnd);
    ExpIn(b, x.fracEnd);
    if IsDigit(b[i]) { WholeIn(b, i); }
    NumeralText(b, i, x);
  }

  /** A numeral without a minus has a digit in front. */
  lemma WholeIn(b: seq<Byte>, i: nat)
    requires i < |b| && IsDigit(b[i])
    ensures NumberExtent(b, i).whole == i && b[i..NumberExtent(b, i).wholeEnd] != []
  {
    hide FracExtent, ExpExtent;
  }

  lemma NumeralText(b: seq<Byte>, i: nat, x: Extent)
    requires i <= x.whole <= x.wholeEnd <= x.frac <= x.fracEnd <= x.exp <= x.end <= |b|
    requires b[i..x.whole] == SignText(Here(b, i, MINUS))
    ensures NumberText(NumeralIn(b, i, x)) == b[i..x.end]
  {
    Meets(b, i, x.whole, x.wholeEnd);
    Meets(b, i, x.wholeEnd, x.fracEnd);
    Meets(b, i, x.fracEnd, x.end);
  }

  // ---------------------------------------------------------------- values

  lemma {:induction false} WordAccepted(b: seq<Byte>, i: nat, w: Word)
    requires PWord(b, i, w).Ok?
    ensures var j := PWord(b, i, w).value.1;
            i <= j <= |b| && b[i..j] == Text(Lit(w)) && PWord(b, i, w).value.0 == WordValue(w)
  {
    hide StartsWith, WordText;
    StartsSlice(b, i, WordText(w));
    StartsInside(b, i, WordText(w));
    StartsWhole(b, i, WordText(w));
  }

  lemma {:induction false} StartsWhole(b: seq<Byte>, i: nat, w: seq<Byte>)
    requires StartsWith(b, i, w)
    ensures i + |w| <= |b|
  {
  }

  /** A scalar value at `k`. */
  lemma ScalarAccepted(b: seq<Byte>, i: nat, depth: nat) returns (t: Cst)
    requires i <= |b| && PValue(b, i, depth).Ok?
    requires var k := SkipWs(b, i); k < |b| && b[k] != LBRACE && b[k] != LBRACKET
    ensures Spells(b, SkipWs(b, i), PValue(b, i, depth).value.1, t, PValue(b, i, depth).value.0, depth)
  {
    hide SkipWs, PString, PWord, PNumber, LooseChars, LooseNumber, NumberText, WordText, CharsText;
    var k := SkipWs(b, i);
    if b[k] == QUOTE {
      var cs := StringAccepted(b, k);
      t := Str(cs);
    } else if b[k] == MINUS || IsDigit(b[k]) {
      var n := NumberAccepted(b, k);
      t := Num(n);
    } else {
      var w := if b[k] == 0x74 then TrueWord else if b[k] == 0x66 then FalseWord else NullWord;
      WordAccepted(b, k, w);
      t := Lit(w);
    }
  }

  /** A value with the whitespace in front of it. */
  lemma {:induction false} ValueAccepted(b: seq<Byte>, i: nat, depth: nat) returns (t: Cst)
    requires i <= |b| && PValue(b, i, depth).Ok?
    ensures Spells(b, SkipWs(b, i), PValue(b, i, depth).value.1, t, PValue(b, i, depth).value.0, depth)
    decreases |b| - i, 0
  {
    hide SkipWs, Spells, PBox;
    var k := SkipWs(b, i);
    if b[k] == LBRACE {
      BoxDispatch(b, i, true, depth);
      t := BoxAccepted(b, k, true, depth);
    } else if b[k] == LBRACKET {
      BoxDispatch(b, i, false, depth);
      t := BoxAccepted(b, k, false, depth);
    } else {
      t := ScalarAccepted(b, i, depth);
    }
  }

  /** Items between `i` and the closing bracket before `j`. */
  ghost predicate SpellsItems(b: seq<Byte>, i: nat, j: nat, obj: bool, items: seq<Item>, ms: seq<Member>, depth: nat) {
    && i <= j <= |b| && items != [] && LooseItems(obj, items) && b[i..j] == BodyText(items) + [Close(obj)]
    && ItemsMeaning(obj, items) == Some(ms) && ItemsNest(items, depth)
  }

  lemma EmptyBoxSpells(b: seq<Byte>, k: nat, j: nat, obj: bool, depth: nat)
    requires k < j < |b| && b[k] == Open(obj) && AllWs(b[k + 1..j]) && b[j] == Close(obj) && depth <= MAX_DEPTH
    ensures Spells(b, k, j + 1, Box(obj, b[k + 1..j], []), Container(obj, []), depth)
  {
    assert b[k..j + 1] == [b[k]] + b[k + 1..j] + [b[j]];
    assert ItemsMeaning(obj, []) == Some([]);
  }

  lemma FullBoxSpells(b: seq<Byte>, k: nat, j: nat, obj: bool, items: seq<Item>, ms: seq<Member>, depth: nat)
    requires k < |b| && b[k] == Open(obj) && SpellsItems(b, k + 1, j, obj, items, ms, depth) && depth <= MAX_DEPTH
    ensures Spells(b, k, j, Box(obj, [], items), Container(obj, ms), depth)
  {
    hide ItemsMeaning, LooseItems, BodyText;
    Meets(b, k, k + 1, j);
    assert b[k..k + 1] == [Open(obj)];
    Assoc([Open(obj)], BodyText(items), [Close(obj)]);
  }

  lemma Deepest(b: seq<Byte>, i: nat, depth: nat)
    requires i <= |b| && PValue(b, i, depth).Ok?
    ensures depth <= MAX_DEPTH
  {
  }

  lemma {:induction false} BoxAccepted(b: seq<Byte>, k: nat, obj: bool, depth: nat) returns (t: Cst)
    requires k < |b| && b[k] == Open(obj) && PBox(b, k, obj, depth).Ok? && depth <= MAX_DEPTH
    ensures Spells(b, k, PBox(b, k, obj, depth).value.1, t, PBox(b, k, obj, depth).value.0, depth)
    decreases |b| - k, -1
  {
    hide SkipWs, Spells, SpellsItems, PItems;
    var j := SkipWs(b, k + 1);
    if Here(b, j, Close(obj)) {
      EmptyBoxSpells(b, k, j, obj, depth);
      t := Box(obj, b[k + 1..j], []);
    } else {
      ItemsEnd(b, k + 1, obj, depth, []);
      var items, ms := ItemsAccepted(b, k + 1, obj, depth, []);
      FullBoxSpells(b, k, PItems(b, k + 1, obj, depth, []).value.1, obj, items, ms, depth);
      assert [] + ms == ms;
      t := Box(obj, [], items);
    }
  }

  /** Whitespace in front of the first item does not matter. */
  lemma ItemsEnd(b: seq<Byte>, i: nat, obj: bool, depth: nat, acc: seq<Member>)
    requires i <= |b|
    ensures PItems(b, SkipWs(b, i), obj, depth, acc) == PItems(b, i, obj, depth, acc)
  {
    SkipFirst(b, i, obj, depth, acc);
  }

  lemma {:induction false} ItemsAccepted(b: seq<Byte>, i: nat, obj: bool, depth: nat, acc: seq<Member>)
    returns (items: seq<Item>, ms: seq<Member>)
    requires i <= |b| && PItems(b, i, obj, depth, acc).Ok?
    ensures SpellsItems(b, i, PItems(b, i, obj, depth, acc).value.1, obj, items, ms, depth)
    ensures PItems(b, i, obj, depth, acc).value.0 == Container(obj, acc + ms)
    decreases |b| - i, 3
  {
    hide SkipWs, SpellsItems, SpellsItem, PItems, PItem, Container;
    ItemsUnfold(b, i, obj, depth, acc);
    var m := PItem(b, i, obj, depth).value;
    var j := SkipWs(b, m.1);
    var it := ItemAccepted(b, i, obj, depth);
    if Here(b, j, COMMA) {
      var rest, more := ItemsAccepted(b, j + 1, obj, depth, acc + [m.0]);
      var end := PItems(b, i, obj, depth, acc).value.1;
      ItemsCons(b, i, j, end, obj, it, m.0, rest, more, depth);
      items, ms := [it] + rest, [m.0] + more;
      assert acc + [m.0] + more == acc + ms;
    } else {
      ItemsLast(b, i, j, obj, it, m.0, depth);
      items, ms := [it], [m.0];
    }
  }

  /** One item with the whitespace around it. */
  ghost predicate SpellsItem(b: seq<Byte>, i: nat, j: nat, obj: bool, it: Item, m: Member, depth: nat) {
    && i <= j <= |b| && LooseItem(obj, it) && b[i..j] == ItemText(it)
    && ItemMeaning(obj, it) == Some(m) && Nests(it.val, depth + 1)
  }

  lemma ItemsLast(b: seq<Byte>, i: nat, j: nat, obj: bool, it: Item, m: Member, depth: nat)
    requires SpellsItem(b, i, j, obj, it, m, depth) && Here(b, j, Close(obj))
    ensures SpellsItems(b, i, j + 1, obj, [it], [m], depth)
  {
    hide LooseItem, ItemMeaning, ItemText, Nests, BodyText;
    BodyFront([it]);
    assert [it][1..] == [];
    assert ItemsMeaning(obj, []) == Some([]);
    assert [m] + [] == [m];
    assert b[i..j + 1] == b[i..j] + [b[j]];
  }

  lemma ItemsCons(b: seq<Byte>, i: nat, j: nat, end: nat, obj: bool, it: Item, m: Member, rest: seq<Item>,
                  ms: seq<Member>, depth: nat)
    requires SpellsItem(b, i, j, obj, it, m, depth) && Here(b, j, COMMA)
    requires SpellsItems(b, j + 1, end, obj, rest, ms, depth)
    ensures SpellsItems(b, i, end, obj, [it] + rest, [m] + ms, depth)
  {
    hide LooseItem, ItemMeaning, ItemText, Nests, BodyText;
    var items := [it] + rest;
    assert items[1..] == rest;
    BodyFront(items);
    Meets(b, i, j, end);
    Meets(b, j, j + 1, end);
    assert b[j..j + 1] == [COMMA];
    Regrouped(ItemText(it), [COMMA], BodyText(rest), [Close(obj)]);
  }

  lemma Regrouped(a: seq<Byte>, c: seq<Byte>, r: seq<Byte>, z: seq<Byte>)
    ensures a + (c + (r + z)) == (a + c + r) + z
  {
  }

  lemma {:induction false} ItemAccepted(b: seq<Byte>, i: nat, obj: bool, depth: nat) returns (it: Item)
    requires i <= |b| && PItem(b, i, obj, depth).Ok?
    ensures var m := PItem(b, i, obj, depth).value; SpellsItem(b, i, SkipWs(b, m.1), obj, it, m.0, depth)
    decreases |b| - i, 2
  {
    hide SkipWs, PValue, Spells, SpellsItem, PKey;
    var end := PItem(b, i, obj, depth).value.1;
    if obj {
      var k := PKey(b, i).value.1;
      var h := KeyAccepted(b, i);
      var t := ValueAccepted(b, k, depth + 1);
      it := Item(h, b[k..SkipWs(b, k)], t, b[end..SkipWs(b, end)]);
      ItemSpells(b, i, k, end, obj, it, PKey(b, i).value.0, PValue(b, k, depth + 1).value.0, depth);
    } else {
      var t := ValueAccepted(b, i, depth + 1);
      it := Item(NoKey, b[i..SkipWs(b, i)], t, b[end..SkipWs(b, end)]);
      assert b[i..i] == HeadText(NoKey);
      ItemSpells(b, i, i, end, obj, it, [], PValue(b, i, depth + 1).value.0, depth);
    }
  }

  lemma ItemSpells(b: seq<Byte>, i: nat, k: nat, end: nat, obj: bool, it: Item, key: seq<Byte>, v: Json, depth: nat)
    requires i <= k <= end <= |b| && Spells(b, SkipWs(b, k), end, it.val, v, depth + 1)
    requires it.head.Key? == obj && LooseHead(it.head) && b[i..k] == HeadText(it.head)
    requires if obj then CharsMeaning(it.head.name) == Some(key) else key == []
    requires it.pre == b[k..SkipWs(b, k)] && it.post == b[end..SkipWs(b, end)]
    ensures SpellsItem(b, i, SkipWs(b, end), obj, it, Member(key, v), depth)
  {
    hide SkipWs, Loose, Meaning, Text, HeadText, CharsMeaning, LooseHead, Nests;
    var s, z := SkipWs(b, k), SkipWs(b, end);
    Meets(b, i, k, s);
    Meets(b, i, s, end);
    Meets(b, i, end, z);
  }

  lemma KeyAccepted(b: seq<Byte>, i: nat) returns (h: Head)
    requires i <= |b| && PKey(b, i).Ok?
    ensures h.Key? && LooseHead(h) && i <= PKey(b, i).value.1 <= |b| && b[i..PKey(b, i).value.1] == HeadText(h)
    ensures CharsMeaning(h.name) == Some(PKey(b, i).value.0)
  {
    hide SkipWs, PString, StringText, CharsMeaning, LooseChars;
    var k := SkipWs(b, i);
    var cs := StringAccepted(b, k);
    var s := PString(b, k).value.1;
    var c := SkipWs(b, s);
    h := Key(b[i..k], cs, b[s..c]);
    Meets(b, i, k, s);
    Meets(b, i, s, c);
    assert b[i..c + 1] == b[i..c] + [b[c]];
  }

  // ---------------------------------------------------------------- whole texts

  /** Whatever the parser accepts is such a text, nested no deeper than the limit, and the value given is
      its meaning. */
  lemma ParsedIsLoose(b: seq<Byte>) returns (d: Doc)
    requires Parse(b).Ok?
    ensures LooseDoc(d) && DocText(d) == b && Nests(d.val, 0) && Meaning(d.val) == Some(Parse(b).value)
  {
    hide SkipWs, PValue, Loose, Meaning, Text, Nests;
    var i := SkipWs(b, 0);
    var t := ValueAccepted(b, i, 0);
    var k, e := SkipWs(b, i), PValue(b, i, 0).value.1;
    SkipTwice(b, 0);
    d := Doc(b[0..k], t, b[e..]);
    Meets(b, 0, k, e);
    Meets(b, 0, e, |b|);
    assert b[0..|b|] == b && b[e..|b|] == b[e..];
  }

  lemma SkipTwice(b: seq<Byte>, i: nat)
    requires i <= |b|
    ensures SkipWs(b, SkipWs(b, i)) == SkipWs(b, i)
  {
  }

  /** `b` is such a text, nested no deeper than the limit, and means `v`. */
  ghost predicate Means(b: seq<Byte>, v: Json) {
    exists d :: LooseDoc(d) && DocText(d) == b && Nests(d.val, 0) && Meaning(d.val) == Some(v)
  }

  /** The parser gives a value exactly for the texts that mean it; for all others it fails. */
  lemma ParsesExactly(b: seq<Byte>, v: Json)
    ensures Parse(b) == Ok(v) <==> Means(b, v)
  {
    hide Parse, Meaning, Nests, Loose, DocText;
    if Parse(b).Ok? { var d := ParsedIsLoose(b); }
    if Means(b, v) {
      var d :| LooseDoc(d) && DocText(d) == b && Nests(d.val, 0) && Meaning(d.val) == Some(v);
      ParseDoc(d);
    }
  }
}
