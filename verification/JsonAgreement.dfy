/** Printer, parser and guard agree: `dump` output is a JSON text meaning the printed value,
    so the guard calls it complete and the parser gives the value back; and every text the
    guard calls complete is parsed exactly when it is readable. */
module JsonAgreement {
  import opened Bytes
  import opened JsonGrammar
  import G = JsonGuard
  import JsonPrefix
  import opened JsonParser
  import opened JsonMeaning
  import opened JsonPrinter

  // ---------------------------------------------------------------- strings and integers

  function CharOf(b: Byte): Char {
    if b == QUOTE || b == BACKSLASH then Short(b)
    else if b == LF then Short(0x6E)
    else if b == CR then Short(0x72)
    else if b == TAB then Short(0x74)
    else if b < 0x20 then Unicode([ZERO, ZERO, HexLower(b / 16), HexLower(b % 16)])
    else Plain(b)
  }

  function CharsOf(s: seq<Byte>): seq<Char> { if s == [] then [] else [CharOf(s[0])] + CharsOf(s[1..]) }

  lemma CharOfByte(b: Byte)
    ensures ValidChar(CharOf(b)) && CharText(CharOf(b)) == EscapeByte(b)
    ensures CharMeaning(CharOf(b)) == [b]
    ensures CharOf(b).Unicode? ==> !IsHigh(HexValue(CharOf(b).h))
  {
    if b < 0x20 && CharOf(b).Unicode? {
      var h := CharOf(b).h;
      assert h[..3] == [ZERO, ZERO, HexLower(b / 16)] && h[..3][..2] == [ZERO, ZERO] && h[..3][..2][..1] == [ZERO];
      assert HexValue([ZERO]) == 0 by { assert [ZERO][..0] == []; }
      assert HexValue([ZERO, ZERO]) == 0;
      assert HexValue(h[..3]) == b / 16;
      assert HexValue(h) == b;
    }
  }

  lemma {:induction false} CharsOfBytes(s: seq<Byte>)
    ensures ValidChars(CharsOf(s)) && CharsText(CharsOf(s)) == EscapeBytes(s)
    ensures CharsMeaning(CharsOf(s)) == Some(s)
    decreases |s|
  {
    hide EscapeByte, CharText, CharOf, CharMeaning, HexValue;
    if s != [] {
      CharOfByte(s[0]);
      CharsOfBytes(s[1..]);
      assert CharsOf(s)[1..] == CharsOf(s[1..]);
      assert [s[0]] + s[1..] == s;
    }
  }

  lemma {:induction false} DecimalReads(n: nat)
    ensures AllDigits(Decimal(n)) && DecValue(Decimal(n)) == n
    ensures WholePart(Decimal(n))
  {
    if n < 10 {
      assert Decimal(n)[..0] == [];
      assert DecValue([]) == 0;
    } else {
      DecimalReads(n / 10);
      assert Decimal(n)[..|Decimal(n)| - 1] == Decimal(n / 10);
    }
  }

  function NumberOf(n: int): Number { Number(n < 0, Decimal(if n < 0 then -n else n), [], []) }

  lemma NumberOfInt(n: int)
    ensures ValidNumber(NumberOf(n)) && NumberText(NumberOf(n)) == IntText(n)
    ensures NumberMeaning(NumberOf(n)) == n as real
  {
    hide Decimal;
    var a := if n < 0 then -n else n;
    DecimalReads(a);
    assert Decimal(a) + [] == Decimal(a);
    assert DecValue([]) == 0;
  }

  // ---------------------------------------------------------------- trees of printed values

  function CstOf(j: Json): Cst
    requires Dumpable(j)
    decreases j
  {
    match j
    case JNull => Lit(NullWord)
    case JBool(b) => Lit(if b then TrueWord else FalseWord)
    case JNum(v) => Num(NumberOf(v.Floor))
    case JStr(s) => Str(CharsOf(s))
    case JArr(a) => Box(false, [], ElemItems(a, 0))
    case JObj(m) => Box(true, [], MemberItems(m, 0))
  }

  function ElemItems(a: seq<Json>, i: nat): seq<Item>
    requires i <= |a| && forall k :: 0 <= k < |a| ==> Dumpable(a[k])
    decreases a, |a| - i
  {
    if i == |a| then [] else [Item(NoKey, [], CstOf(a[i]), [])] + ElemItems(a, i + 1)
  }

  function MemberItem(m: Member): Item
    requires DumpableMember(m)
    decreases m
  {
    Item(Key([], CharsOf(m.key), []), [], CstOf(m.val), [])
  }

  function MemberItems(m: seq<Member>, i: nat): seq<Item>
    requires i <= |m| && forall k :: 0 <= k < |m| ==> DumpableMember(m[k])
    decreases m, |m| - i
  {
    if i == |m| then [] else [MemberItem(m[i])] + MemberItems(m, i + 1)
  }

  /** A value and its tree: the tree is grammatical, spells the dump, and means the value. */
  ghost predicate Spells(j: Json)
    requires Dumpable(j)
  {
    var t := CstOf(j);
    Valid(t) && Text(t) == Dump(j) && Meaning(t) == Some(j)
  }

  lemma {:induction false} DumpSpells(j: Json)
    requires Dumpable(j)
    ensures Spells(j)
    decreases j
  {
    hide CharsMeaning, NumberMeaning, IntText, NumberOf, CharsOf, EscapeBytes, ItemsMeaning, DumpElems, DumpMembers,
         ElemItems, MemberItems, BodyText, ListSpells, ValidItems;
    match j
    case JNull =>
    case JBool(b) =>
    case JNum(v) => NumberOfInt(v.Floor);
    case JStr(s) => CharsOfBytes(s);
    case JArr(a) =>
      ElemsSpell(a, 0);
      BoxSpells(false, ElemItems(a, 0), DumpElems(a, 0), Keyless(a[0..]));
      ArrayMeaning(a);
    case JObj(m) =>
      MembersSpell(m, 0);
      BoxSpells(true, MemberItems(m, 0), DumpMembers(m, 0), m[0..]);
      assert m[0..] == m;
  }

  lemma BoxSpells(obj: bool, items: seq<Item>, dumped: seq<Byte>, ms: seq<Member>)
    requires ListSpells(items, obj, dumped, 0, ms)
    ensures var t := Box(obj, [], items);
            Valid(t) && Text(t) == [Open(obj)] + dumped + [Close(obj)] && Meaning(t) == Some(Container(obj, ms))
  {
    hide BodyText, ItemsMeaning, ValidItems, Container;
    ItemsAreLoose(obj, items);
    if items != [] { assert [] + BodyText(items) == BodyText(items); }
  }

  function Keyless(a: seq<Json>): seq<Member> { seq(|a|, k requires 0 <= k < |a| => Member([], a[k])) }

  lemma ArrayMeaning(a: seq<Json>)
    ensures Container(false, Keyless(a[0..])) == JArr(a)
  {
    assert Vals(Keyless(a[0..])) == a;
  }

  /** Items from `i` on, printed: nothing, or a comma (unless first) and the separated items. */
  ghost predicate ListSpells(items: seq<Item>, obj: bool, dumped: seq<Byte>, i: nat, ms: seq<Member>) {
    && ValidItems(obj, items)
    && dumped == (if items == [] then [] else Comma(i) + BodyText(items))
    && ItemsMeaning(obj, items) == Some(ms)
  }

  lemma ListGrows(it: Item, rest: seq<Item>, obj: bool, first: seq<Byte>, dumped: seq<Byte>, i: nat,
                  m: Member, ms: seq<Member>)
    requires ValidItem(obj, it) && ItemText(it) == first && ItemMeaning(obj, it) == Some(m)
    requires ListSpells(rest, obj, dumped, i + 1, ms)
    ensures ListSpells([it] + rest, obj, Comma(i) + first + dumped, i, [m] + ms)
  {
    hide ItemText, ItemMeaning, ValidItem, BodyText;
    ItemIsLoose(obj, it);
    var items := [it] + rest;
    assert items[1..] == rest;
    BodyFront(items);
    if rest == [] {
      assert Comma(i) + first + [] == Comma(i) + first;
    } else {
      Assoc(Comma(i), first, [COMMA] + BodyText(rest));
      Assoc(first, [COMMA], BodyText(rest));
    }
  }

  lemma {:induction false} ElemsSpell(a: seq<Json>, i: nat)
    requires i <= |a| && forall k :: 0 <= k < |a| ==> Dumpable(a[k])
    ensures ListSpells(ElemItems(a, i), false, DumpElems(a, i), i, Keyless(a[i..]))
    decreases a, |a| - i
  {
    hide ListSpells, CstOf, Dump, Text, Meaning, Valid;
    if i == |a| {
      assert Keyless(a[i..]) == [];
      EmptyList(false, i);
    } else {
      var it := Item(NoKey, [], CstOf(a[i]), []);
      DumpSpells(a[i]);
      ElemsSpell(a, i + 1);
      assert Keyless(a[i..]) == [Member([], a[i])] + Keyless(a[i + 1..]);
      ItemSpells(a[i], NoKey);
      ListGrows(it, ElemItems(a, i + 1), false, Dump(a[i]), DumpElems(a, i + 1), i,
                Member([], a[i]), Keyless(a[i + 1..]));
    }
  }

  lemma EmptyList(obj: bool, i: nat)
    ensures ListSpells([], obj, [], i, [])
  {
  }

  lemma ItemSpells(j: Json, h: Head)
    requires Dumpable(j) && Spells(j) && ValidHead(h) && KeyMeaning(h).Some?
    ensures var it := Item(h, [], CstOf(j), []);
            ValidItem(h.Key?, it) && ItemText(it) == HeadText(h) + Dump(j)
            && (h.NoKey? ==> ItemText(it) == Dump(j))
            && ItemMeaning(h.Key?, it) == Some(Member(KeyMeaning(h).value, j))
  {
    hide CstOf, Dump, Text, Meaning, Valid, CharsMeaning;
    ValidIsLoose(CstOf(j));
  }

  lemma KeySpells(key: seq<Byte>)
    ensures var h := Key([], CharsOf(key), []);
            ValidHead(h) && HeadText(h) == Escaped(key) + [COLON] && KeyMeaning(h) == Some(key)
  {
    hide CharsOf, CharsText, CharsMeaning, EscapeBytes, ValidChars;
    CharsOfBytes(key);
    CharsAreLoose(CharsOf(key));
  }

  lemma {:induction false} MembersSpell(m: seq<Member>, i: nat)
    requires i <= |m| && forall k :: 0 <= k < |m| ==> DumpableMember(m[k])
    ensures ListSpells(MemberItems(m, i), true, DumpMembers(m, i), i, m[i..])
    decreases m, |m| - i
  {
    hide ListSpells, CstOf, Dump, Text, Meaning, Valid, HeadText, KeyMeaning, Escaped;
    if i == |m| {
      EmptyList(true, i);
    } else {
      DumpSpells(m[i].val);
      KeySpells(m[i].key);
      MembersSpell(m, i + 1);
      assert m[i..] == [m[i]] + m[i + 1..];
      ItemSpells(m[i].val, Key([], CharsOf(m[i].key), []));
      ListGrows(MemberItem(m[i]), MemberItems(m, i + 1), true, DumpMember(m[i]), DumpMembers(m, i + 1), i,
                m[i], m[i + 1..]);
    }
  }

  // ---------------------------------------------------------------- nesting

  /** Nesting of a value: the number of containers above its deepest inner value. */
  function Height(j: Json): nat
    decreases j
  {
    match j
    case JArr(a) => ElemsHeight(a, 0)
    case JObj(m) => MembersHeight(m, 0)
    case _ => 0
  }

  function ElemsHeight(a: seq<Json>, i: nat): nat
    requires i <= |a|
    decreases a, |a| - i
  {
    if i == |a| then 0 else Max(1 + Height(a[i]), ElemsHeight(a, i + 1))
  }

  function MembersHeight(m: seq<Member>, i: nat): nat
    requires i <= |m|
    decreases m, |m| - i
  {
    if i == |m| then 0 else Max(1 + Height(m[i].val), MembersHeight(m, i + 1))
  }

  function Max(a: nat, b: nat): nat { if a < b then b else a }

  lemma {:induction false} HeightNests(j: Json, depth: nat)
    requires Dumpable(j)
    ensures Nests(CstOf(j), depth) <==> depth + Height(j) <= MAX_DEPTH
    decreases j
  {
    hide NumberOf, CharsOf, ElemItems, MemberItems;
    match j
    case JArr(a) =>
      ElemsNest(a, 0, depth);
      BoxNests(false, ElemItems(a, 0), depth);
    case JObj(m) =>
      MembersNest(m, 0, depth);
      BoxNests(true, MemberItems(m, 0), depth);
    case _ =>
  }

  lemma BoxNests(obj: bool, items: seq<Item>, depth: nat)
    ensures Nests(Box(obj, [], items), depth) <==> depth <= MAX_DEPTH && ItemsNest(items, depth)
  {
  }

  lemma NestFront(it: Item, rest: seq<Item>, depth: nat)
    ensures ItemsNest([it] + rest, depth) <==> Nests(it.val, depth + 1) && ItemsNest(rest, depth)
  {
    hide Nests;
    var items := [it] + rest;
    if ItemsNest(items, depth) {
      assert items[0] == it;
      assert forall k :: 0 <= k < |rest| ==> rest[k] == items[k + 1];
    }
  }

  lemma {:induction false} ElemsNest(a: seq<Json>, i: nat, depth: nat)
    requires i <= |a| && forall k :: 0 <= k < |a| ==> Dumpable(a[k])
    ensures ItemsNest(ElemItems(a, i), depth) <==> depth + ElemsHeight(a, i) <= MAX_DEPTH || i == |a|
    decreases a, |a| - i
  {
    hide Nests, CstOf;
    if i < |a| {
      HeightNests(a[i], depth + 1);
      ElemsNest(a, i + 1, depth);
      NestFront(Item(NoKey, [], CstOf(a[i]), []), ElemItems(a, i + 1), depth);
    }
  }

  lemma {:induction false} MembersNest(m: seq<Member>, i: nat, depth: nat)
    requires i <= |m| && forall k :: 0 <= k < |m| ==> DumpableMember(m[k])
    ensures ItemsNest(MemberItems(m, i), depth)
            <==> depth + MembersHeight(m, i) <= MAX_DEPTH || i == |m|
    decreases m, |m| - i
  {
    hide Nests, CstOf;
    if i < |m| {
      HeightNests(m[i].val, depth + 1);
      MembersNest(m, i + 1, depth);
      NestFront(MemberItem(m[i]), MemberItems(m, i + 1), depth);
    }
  }

  // ---------------------------------------------------------------- the agreement

  /** The document a dump is. */
  lemma DumpDoc(j: Json)
    requires Dumpable(j)
    ensures ValidDoc(Doc([], CstOf(j), [])) && DocText(Doc([], CstOf(j), [])) == Dump(j)
  {
    hide CstOf, Valid, Text, Meaning, Dump;
    DumpSpells(j);
    ValidIsLoose(CstOf(j));
    assert [] + Dump(j) + [] == Dump(j);
  }

  /** Round trip: parsing a dump gives the value back exactly when its height is within the limit. */
  lemma RoundTrip(j: Json)
    requires Dumpable(j)
    ensures Height(j) <= MAX_DEPTH ==> Parse(Dump(j)) == Ok(j)
    ensures Height(j) > MAX_DEPTH ==> Parse(Dump(j)).Err?
  {
    hide CstOf, Parse, Dump, Nests, Valid, Meaning, Text;
    DumpSpells(j);
    DumpDoc(j);
    HeightNests(j, 0);
    ParseDoc(Doc([], CstOf(j), []));
  }

  /** The guard accepts every dump and calls it complete. */
  lemma DumpIsComplete(j: Json)
    requires Dumpable(j)
    ensures JsonPrefix.IsJsonPrefix(Dump(j)) && IsJsonText(Dump(j))
    ensures var c := G.Run(Some(G.START), Dump(j)); c.Some? && G.CompleteConf(c.value)
  {
    DumpDoc(j);
    JsonPrefix.CompleteExactlyTexts(Dump(j));
    JsonPrefix.AcceptsExactlyPrefixes(Dump(j));
  }

  /** Every text the guard calls complete is the text of a document, and is parsed exactly
      when that document is readable. */
  lemma CompleteIsParsed(w: seq<Byte>) returns (d: Doc)
    requires G.Run(Some(G.START), w).Some? && G.CompleteConf(G.Run(Some(G.START), w).value)
    ensures ValidDoc(d) && DocText(d) == w
    ensures Parse(w).Ok? <==> Nests(d.val, 0) && Meaning(d.val).Some?
    ensures Parse(w).Ok? ==> Some(Parse(w).value) == Meaning(d.val)
  {
    JsonPrefix.CompleteExactlyTexts(w);
    d :| ValidDoc(d) && DocText(d) == w;
    ParseDoc(d);
  }

  /** The surrogate condition alone: a tree has a meaning exactly when no string in it has a
      high-surrogate escape that another `\u` escape does not follow. */
  predicate Paired(cs: seq<Char>)
    requires ValidChars(cs)
    decreases |cs|
  {
    if cs == [] then true
    else if cs[0].Unicode? && IsHigh(HexValue(cs[0].h)) then |cs| > 1 && cs[1].Unicode? && Paired(cs[2..])
    else Paired(cs[1..])
  }

  lemma {:induction false} PairedMeans(cs: seq<Char>)
    requires ValidChars(cs)
    ensures CharsMeaning(cs).Some? <==> Paired(cs)
    decreases |cs|
  {
    hide Utf8, Combine, HexValue;
    if cs != [] {
      PairedMeans(cs[1..]);
      if |cs| > 1 { PairedMeans(cs[2..]); }
    }
  }

  predicate AllPaired(t: Cst)
    requires Valid(t)
    decreases t
  {
    match t
    case Lit(_) => true
    case Num(_) => true
    case Str(cs) => Paired(cs)
    case Box(obj, _, items) => ItemsPaired(obj, items)
  }

  predicate ItemsPaired(obj: bool, items: seq<Item>)
    requires ValidItems(obj, items)
    decreases items
  {
    items == [] || (ItemPaired(obj, items[0]) && ItemsPaired(obj, items[1..]))
  }

  predicate ItemPaired(obj: bool, it: Item)
    requires ValidItem(obj, it)
    decreases it
  {
    (it.head.Key? ==> Paired(it.head.name)) && AllPaired(it.val)
  }

  lemma {:induction false} PairedHasMeaning(t: Cst)
    requires Valid(t)
    ensures Meaning(t).Some? <==> AllPaired(t)
    decreases t
  {
    hide Utf8, Combine, HexValue, NumberMeaning;
    match t
    case Lit(_) =>
    case Num(_) =>
    case Str(cs) => PairedMeans(cs);
    case Box(obj, _, items) => PairedItems(obj, items);
  }

  lemma {:induction false} PairedItems(obj: bool, items: seq<Item>)
    requires ValidItems(obj, items)
    ensures ItemsMeaning(obj, items).Some? <==> ItemsPaired(obj, items)
    decreases items
  {
    if items != [] {
      PairedItem(obj, items[0]);
      PairedItems(obj, items[1..]);
    }
  }

  lemma {:induction false} PairedItem(obj: bool, it: Item)
    requires ValidItem(obj, it)
    ensures ItemMeaning(obj, it).Some? <==> ItemPaired(obj, it)
    decreases it
  {
    if it.head.Key? { PairedMeans(it.head.name); }
    PairedHasMeaning(it.val);
  }

  /** What the guard calls complete is parsed exactly when nothing is nested deeper than the
      limit and every high-surrogate escape is followed by another escape. */
  lemma GuardAndParserAgree(w: seq<Byte>) returns (d: Doc)
    requires IsJsonText(w)
    ensures ValidDoc(d) && DocText(d) == w
    ensures Parse(w).Ok? <==> Nests(d.val, 0) && AllPaired(d.val)
  {
    JsonPrefix.CompleteExactlyTexts(w);
    d := CompleteIsParsed(w);
    PairedHasMeaning(d.val);
  }

  // ---------------------------------------------------------------- printed bytes

  /** No control character ever appears in a dump, a line feed in particular. */
  predicate Visible(s: seq<Byte>) { forall k :: 0 <= k < |s| ==> s[k] >= 0x20 }

  lemma VisibleConcat(s: seq<Byte>, t: seq<Byte>)
    requires Visible(s) && Visible(t)
    ensures Visible(s + t)
  {
  }

  lemma {:induction false} EscapeVisible(s: seq<Byte>)
    ensures Visible(EscapeBytes(s))
    decreases |s|
  {
    if s != [] {
      EscapeVisible(s[1..]);
      assert Visible(EscapeByte(s[0]));
      VisibleConcat(EscapeByte(s[0]), EscapeBytes(s[1..]));
    }
  }

  lemma EscapedVisible(s: seq<Byte>)
    ensures Visible(Escaped(s))
  {
    EscapeVisible(s);
    VisibleConcat([QUOTE], EscapeBytes(s));
    VisibleConcat([QUOTE] + EscapeBytes(s), [QUOTE]);
  }

  lemma IntVisible(n: int)
    ensures Visible(IntText(n))
  {
    DecimalReads(if n < 0 then -n else n);
  }

  lemma {:induction false} DumpVisible(j: Json)
    requires Dumpable(j)
    ensures Visible(Dump(j))
    decreases j
  {
    hide Escaped, IntText;
    match j
    case JNull =>
    case JBool(b) =>
    case JNum(v) => IntVisible(v.Floor);
    case JStr(s) => EscapedVisible(s);
    case JArr(a) =>
      ElemsVisible(a, 0);
      VisibleConcat([LBRACKET], DumpElems(a, 0));
      VisibleConcat([LBRACKET] + DumpElems(a, 0), [RBRACKET]);
    case JObj(m) =>
      MembersVisible(m, 0);
      VisibleConcat([LBRACE], DumpMembers(m, 0));
      VisibleConcat([LBRACE] + DumpMembers(m, 0), [RBRACE]);
  }

  lemma {:induction false} ElemsVisible(a: seq<Json>, i: nat)
    requires i <= |a| && forall k :: 0 <= k < |a| ==> Dumpable(a[k])
    ensures Visible(DumpElems(a, i))
    decreases a, |a| - i
  {
    if i < |a| {
      DumpVisible(a[i]);
      ElemsVisible(a, i + 1);
      VisibleConcat(Comma(i), Dump(a[i]));
      VisibleConcat(Comma(i) + Dump(a[i]), DumpElems(a, i + 1));
    }
  }

  lemma {:induction false} MembersVisible(m: seq<Member>, i: nat)
    requires i <= |m| && forall k :: 0 <= k < |m| ==> DumpableMember(m[k])
    ensures Visible(DumpMembers(m, i))
    decreases m, |m| - i
  {
    if i < |m| {
      EscapedVisible(m[i].key);
      DumpVisible(m[i].val);
      VisibleConcat(Escaped(m[i].key), [COLON]);
      VisibleConcat(Escaped(m[i].key) + [COLON], Dump(m[i].val));
      MembersVisible(m, i + 1);
      VisibleConcat(Comma(i), DumpMember(m[i]));
      VisibleConcat(Comma(i) + DumpMember(m[i]), DumpMembers(m, i + 1));
    }
  }
}
