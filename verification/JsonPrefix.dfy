/** The guard accepts exactly the prefixes of JSON texts, and reports `complete` exactly on
    JSON texts. Soundness carries a partial syntax tree along the run; completeness runs the
    guard over a finished tree; a closing string for every partial tree joins the two. */
module JsonPrefix {
  import opened Bytes
  import opened JsonGrammar
  import opened JsonGuard

  // ---------------------------------------------------------------- partial trees

  /** Where a value sits: at top level, or inside an open container after the items
      `done` (each with its comma) and the head of the item under construction. */
  datatype Slot = Top | In(outer: Slot, pre: seq<Byte>, obj: bool, done: seq<Item>, head: Head)

  datatype Focus =
    | Expect                                                  // value not begun
    | KeyGap                                                  // whitespace before a key
    | InKey(lead: seq<Byte>, chars: seq<Char>, pend: seq<Byte>)
    | AfterKey(lead: seq<Byte>, chars: seq<Char>)
    | Chars(chars: seq<Char>, pend: seq<Byte>)
    | Numeral(n: NumS, num: Number)
    | Literal(word: Word, i: nat)
    | After(val: Cst)

  /** A partial text: the slot, the whitespace before the focus, the focus, and the
      whitespace that follows it so far. */
  datatype Partial = Partial(slot: Slot, pre: seq<Byte>, focus: Focus, post: seq<Byte>)

  function SlotText(s: Slot): seq<Byte> {
    match s
    case Top => []
    case In(outer, pre, obj, done, head) =>
      SlotText(outer) + pre + [Open(obj)] + DoneText(done) + HeadText(head)
  }

  function SlotStack(s: Slot): seq<Byte> {
    match s
    case Top => []
    case In(outer, _, obj, _, _) => SlotStack(outer) + [Open(obj)]
  }

  predicate ValidSlot(s: Slot) {
    match s
    case Top => true
    case In(outer, pre, obj, done, head) =>
      ValidSlot(outer) && ValueSlot(outer) && AllWs(pre) && ValidItems(obj, done) && ValidHead(head)
      && (head.Key? ==> obj)
  }

  /** A slot where a value may stand: in an object the key has been read. */
  predicate ValueSlot(s: Slot) { s.In? && s.obj ==> s.head.Key? }

  predicate PendOk(pend: seq<Byte>) {
    || pend == []
    || pend == [BACKSLASH]
    || (2 <= |pend| < 6 && pend[0] == BACKSLASH && pend[1] == 0x75 && AllHex(pend[2..]))
  }

  predicate NumeralOk(n: NumS, p: Number) {
    match n
    case Sign => p.neg && p.whole == [] && p.frac == [] && p.exp == []
    case IntZero => p.whole == [ZERO] && p.frac == [] && p.exp == []
    case Int => Digits(p.whole) && p.whole[0] != ZERO && p.frac == [] && p.exp == []
    case DotFirst => WholePart(p.whole) && p.frac == [DOT] && p.exp == []
    case Frac => WholePart(p.whole) && p.frac != [] && FracPart(p.frac) && p.exp == []
    case ExpSign => WholePart(p.whole) && FracPart(p.frac) && |p.exp| == 1 && IsExpMark(p.exp[0])
    case ExpFirst =>
      WholePart(p.whole) && FracPart(p.frac) && |p.exp| == 2 && IsExpMark(p.exp[0]) && IsSign(p.exp[1])
    case Exp => WholePart(p.whole) && p.exp != [] && FracPart(p.frac) && ExpPart(p.exp)
  }

  predicate ValidFocus(s: Slot, f: Focus) {
    match f
    case Expect => ValueSlot(s)
    case KeyGap => s.In? && s.obj && s.head.NoKey?
    case InKey(lead, cs, pend) =>
      s.In? && s.obj && s.head.NoKey? && AllWs(lead) && ValidChars(cs) && PendOk(pend)
    case AfterKey(lead, cs) => s.In? && s.obj && s.head.NoKey? && AllWs(lead) && ValidChars(cs)
    case Chars(cs, pend) => ValueSlot(s) && ValidChars(cs) && PendOk(pend)
    case Numeral(n, p) => ValueSlot(s) && NumeralOk(n, p)
    case Literal(w, i) => ValueSlot(s) && i + 1 < |WordText(w)|
    case After(t) => ValueSlot(s) && Valid(t)
  }

  predicate ValidPartial(p: Partial) {
    && ValidSlot(p.slot)
    && AllWs(p.pre)
    && AllWs(p.post)
    && ValidFocus(p.slot, p.focus)
    && (p.focus.After? || p.focus.AfterKey? || p.post == [])
    && (p.focus.InKey? || p.focus.AfterKey? ==> p.pre == [])
  }

  function FocusText(f: Focus): seq<Byte> {
    match f
    case Expect => []
    case KeyGap => []
    case InKey(lead, cs, pend) => lead + [QUOTE] + CharsText(cs) + pend
    case AfterKey(lead, cs) => lead + StringText(cs)
    case Chars(cs, pend) => [QUOTE] + CharsText(cs) + pend
    case Numeral(_, p) => NumberText(p)
    case Literal(w, i) => WordText(w)[..if i + 1 <= |WordText(w)| then i + 1 else 0]
    case After(t) => Text(t)
  }

  function PartialText(p: Partial): seq<Byte> {
    SlotText(p.slot) + p.pre + FocusText(p.focus) + p.post
  }

  function PendState(key: bool, pend: seq<Byte>): State {
    if pend == [] then InStr(key, false, 0)
    else if |pend| == 1 then InStr(key, true, 0)
    else InStr(key, false, if |pend| < 6 then 6 - |pend| else 0)
  }

  /** The guard's view of a partial text. */
  function Erase(p: Partial): Conf {
    var s := p.slot;
    Conf(SlotStack(s),
         match p.focus
         case Expect => if s.In? && !s.obj && s.done == [] then ArrValOrEnd else Value
         case KeyGap => if s.In? && s.done == [] then ObjKeyOrEnd else ObjKeyStart
         case InKey(_, _, pend) => PendState(true, pend)
         case AfterKey(_, _) => ObjColon
         case Chars(_, pend) => PendState(false, pend)
         case Numeral(n, _) => InNum(n)
         case Literal(w, i) => InLit(WordText(w)[1..], i)
         case After(_) => DoneState(SlotStack(s)))
  }

  /** `q` is the partial text reached from `p` by the byte `b`. */
  ghost predicate Advances(p: Partial, b: Byte, q: Partial) {
    ValidPartial(q) && PartialText(q) == PartialText(p) + [b] && Step(Erase(p), b) == Some(Erase(q))
  }

  // ---------------------------------------------------------------- soundness

  /** Whitespace extends the gap the partial text ends in. */
  lemma AdvanceWs(p: Partial, b: Byte) returns (q: Partial)
    requires ValidPartial(p) && IsWs(b)
    requires p.focus.Expect? || p.focus.KeyGap? || p.focus.AfterKey? || p.focus.After?
    ensures Advances(p, b, q)
  {
    hide SlotText, SlotStack, FocusText, ValidSlot, ValidFocus;
    if p.focus.AfterKey? || p.focus.After? {
      q := p.(post := p.post + [b]);
    } else {
      q := p.(pre := p.pre + [b]);
      NoText(p.focus);
    }
    assert PartialText(q) == PartialText(p) + [b];
  }

  lemma NoText(f: Focus)
    ensures f.Expect? || f.KeyGap? ==> FocusText(f) == []
  {
  }

  /** Only the focus grew. */
  lemma FocusGrows(p: Partial, b: Byte, f: Focus)
    requires ValidPartial(p) && p.post == [] && FocusText(f) == FocusText(p.focus) + [b]
    ensures PartialText(p.(focus := f)) == PartialText(p) + [b]
  {
    Regroup(SlotText(p.slot) + p.pre, FocusText(p.focus), [b]);
  }

  lemma Regroup(a: seq<Byte>, m: seq<Byte>, z: seq<Byte>)
    ensures a + (m + z) + [] == a + m + [] + z
  {
  }

  lemma AdvanceOpen(p: Partial, obj: bool) returns (q: Partial)
    requires ValidPartial(p) && p.focus.Expect?
    requires Step(Erase(p), Open(obj)) == Begin(SlotStack(p.slot), Open(obj))
    ensures Advances(p, Open(obj), q)
  {
    q := Partial(In(p.slot, p.pre, obj, [], NoKey), [], if obj then KeyGap else Expect, []);
    var t := SlotText(p.slot) + p.pre;
    assert PartialText(p) == t;
    assert PartialText(q) == t + [Open(obj)];
  }

  function BeginFocus(b: Byte): Focus {
    if b == QUOTE then Chars([], [])
    else if b == MINUS then Numeral(Sign, Number(true, [], [], []))
    else if b == ZERO then Numeral(IntZero, Number(false, [ZERO], [], []))
    else if IsDigit(b) then Numeral(Int, Number(false, [b], [], []))
    else if b == 0x74 then Literal(TrueWord, 0)
    else if b == 0x66 then Literal(FalseWord, 0)
    else Literal(NullWord, 0)
  }

  lemma BeginFocusText(b: Byte)
    requires Begin([], b).Some? && b != LBRACE && b != LBRACKET
    ensures FocusText(BeginFocus(b)) == [b]
  {
  }

  lemma AdvanceBegin(p: Partial, b: Byte) returns (q: Partial)
    requires ValidPartial(p) && p.focus.Expect? && Begin(SlotStack(p.slot), b).Some?
    requires Step(Erase(p), b) == Begin(SlotStack(p.slot), b)
    ensures Advances(p, b, q)
  {
    if b == LBRACE || b == LBRACKET {
      q := AdvanceOpen(p, b == LBRACE);
    } else {
      BeginFocusText(b);
      FocusGrows(p, b, BeginFocus(b));
      q := p.(focus := BeginFocus(b));
    }
  }

  function Begun(pend: seq<Byte>): nat { if pend == [] then 0 else 1 }

  /** One more byte of a string body: the characters so far and the escape in progress. */
  lemma GrowChars(cs: seq<Char>, pend: seq<Byte>, key: bool, stack: seq<Byte>, b: Byte)
    returns (cs': seq<Char>, pend': seq<Byte>)
    requires ValidChars(cs) && PendOk(pend)
    requires pend != [] || b != QUOTE
    requires Step(Conf(stack, PendState(key, pend)), b).Some?
    ensures ValidChars(cs') && PendOk(pend')
    ensures |cs'| + Begun(pend') == |cs| + if pend == [] then 1 else Begun(pend)
    ensures CharsText(cs') + pend' == CharsText(cs) + pend + [b]
    ensures Step(Conf(stack, PendState(key, pend)), b) == Some(Conf(stack, PendState(key, pend')))
  {
    hide CharsText;
    if pend == [] && b == BACKSLASH {
      cs', pend' := cs, [BACKSLASH];
    } else if pend == [] {
      CharsTextSnoc(cs, Plain(b));
      cs', pend' := cs + [Plain(b)], [];
    } else if |pend| == 1 && b == 0x75 {
      cs', pend' := cs, pend + [b];
    } else if |pend| == 1 {
      CharsTextSnoc(cs, Short(b));
      cs', pend' := cs + [Short(b)], [];
    } else if |pend| < 5 {
      cs', pend' := cs, pend + [b];
    } else {
      var h := pend[2..] + [b];
      CharsTextSnoc(cs, Unicode(h));
      assert CharText(Unicode(h)) == pend + [b];
      cs', pend' := cs + [Unicode(h)], [];
    }
  }

  lemma AdvanceQuote(p: Partial) returns (q: Partial)
    requires ValidPartial(p) && (p.focus.Chars? || p.focus.InKey?) && p.focus.pend == []
    ensures Advances(p, QUOTE, q)
  {
    var f := p.focus;
    if f.Chars? {
      q := p.(focus := After(Str(f.chars)));
      assert FocusText(q.focus) == FocusText(f) + [QUOTE];
    } else {
      q := p.(focus := AfterKey(f.lead, f.chars));
      assert FocusText(q.focus) == FocusText(f) + [QUOTE];
    }
    FocusGrows(p, QUOTE, q.focus);
  }

  lemma AdvanceChars(p: Partial, b: Byte) returns (q: Partial)
    requires ValidPartial(p) && (p.focus.Chars? || p.focus.InKey?) && Step(Erase(p), b).Some?
    ensures Advances(p, b, q)
  {
    var f := p.focus;
    if f.pend == [] && b == QUOTE {
      q := AdvanceQuote(p);
    } else {
      var cs, pend := GrowChars(f.chars, f.pend, f.InKey?, SlotStack(p.slot), b);
      var open := if f.Chars? then [QUOTE] else f.lead + [QUOTE];
      q := p.(focus := if f.Chars? then Chars(cs, pend) else InKey(f.lead, cs, pend));
      Middle(open, CharsText(f.chars), f.pend, [b], CharsText(cs), pend);
      FocusGrows(p, b, q.focus);
    }
  }

  lemma Middle(a: seq<Byte>, m: seq<Byte>, n: seq<Byte>, z: seq<Byte>, m': seq<Byte>, n': seq<Byte>)
    requires m' + n' == m + n + z
    ensures a + m' + n' == a + m + n + z
  {
    assert a + m' + n' == a + (m' + n');
    assert a + m + n + z == a + (m + n + z);
  }

  function GrowNumber(p: Number, next: NumS, b: Byte): Number {
    match next
    case Sign => p
    case IntZero => p.(whole := p.whole + [b])
    case Int => p.(whole := p.whole + [b])
    case DotFirst => p.(frac := p.frac + [b])
    case Frac => p.(frac := p.frac + [b])
    case ExpSign => p.(exp := p.exp + [b])
    case ExpFirst => p.(exp := p.exp + [b])
    case Exp => p.(exp := p.exp + [b])
  }

  lemma GrowDigits(s: seq<Byte>, k: nat, b: Byte)
    requires k <= |s| && AllDigits(s[k..]) && IsDigit(b)
    ensures Digits((s + [b])[k..])
  {
    assert (s + [b])[k..] == s[k..] + [b];
  }

  lemma GrowNumberOk(n: NumS, p: Number, b: Byte)
    requires NumeralOk(n, p) && NumNext(n, b).Some?
    ensures NumeralOk(NumNext(n, b).value, GrowNumber(p, NumNext(n, b).value, b))
  {
    match n
    case Sign =>
    case IntZero =>
    case Int => if IsDigit(b) { GrowDigits(p.whole, 0, b); }
    case DotFirst => GrowDigits(p.frac, 1, b);
    case Frac => if IsDigit(b) { GrowDigits(p.frac, 1, b); }
    case ExpSign => if IsDigit(b) { GrowDigits(p.exp, 1, b); }
    case ExpFirst => GrowDigits(p.exp, 2, b);
    case Exp =>
      if Digits(p.exp[1..]) { GrowDigits(p.exp, 1, b); } else { GrowDigits(p.exp, 2, b); }
  }

  lemma GrowNumberText(n: NumS, p: Number, b: Byte)
    requires NumeralOk(n, p) && NumNext(n, b).Some?
    ensures NumberText(GrowNumber(p, NumNext(n, b).value, b)) == NumberText(p) + [b]
  {
    hide WholePart, FracPart, ExpPart, Digits, SignText;
    GrowPart(SignText(p.neg), p.whole, p.frac, p.exp, [b]);
  }

  lemma GrowPart(m: seq<Byte>, i: seq<Byte>, f: seq<Byte>, e: seq<Byte>, z: seq<Byte>)
    ensures f == [] && e == [] ==> m + (i + z) + f + e == m + i + f + e + z
    ensures e == [] ==> m + i + (f + z) + e == m + i + f + e + z
    ensures m + i + f + (e + z) == m + i + f + e + z
  {
  }

  lemma AdvanceNumeral(p: Partial, b: Byte) returns (q: Partial)
    requires ValidPartial(p) && p.focus.Numeral? && NumNext(p.focus.n, b).Some?
    ensures Advances(p, b, q)
  {
    var next := NumNext(p.focus.n, b).value;
    GrowNumberOk(p.focus.n, p.focus.num, b);
    GrowNumberText(p.focus.n, p.focus.num, b);
    q := p.(focus := Numeral(next, GrowNumber(p.focus.num, next, b)));
    FocusGrows(p, b, q.focus);
  }

  lemma LiteralText(w: Word, i: nat)
    requires i + 1 < |WordText(w)|
    ensures WordText(w)[..i + 2] == WordText(w)[..i + 1] + [WordText(w)[1..][i]]
  {
  }

  function NextLetter(w: Word, i: nat): Focus {
    if i + 2 == |WordText(w)| then After(Lit(w)) else Literal(w, i + 1)
  }

  lemma NextLetterText(w: Word, i: nat)
    requires i + 1 < |WordText(w)|
    ensures FocusText(NextLetter(w, i)) == FocusText(Literal(w, i)) + [WordText(w)[1..][i]]
  {
    hide WordText;
    LiteralText(w, i);
    assert WordText(w)[..|WordText(w)|] == WordText(w);
  }

  lemma AdvanceLiteral(p: Partial, b: Byte) returns (q: Partial)
    requires ValidPartial(p) && p.focus.Literal? && Step(Erase(p), b).Some?
    ensures Advances(p, b, q)
  {
    hide FocusText, WordText, SlotText, SlotStack;
    var f := NextLetter(p.focus.word, p.focus.i);
    NextLetterText(p.focus.word, p.focus.i);
    FocusGrows(p, b, f);
    q := p.(focus := f);
  }

  /** Leaving a container: the box built from the finished items becomes the focus. */
  lemma CloseBox(p: Partial, box: Cst) returns (q: Partial)
    requires ValidPartial(p) && p.slot.In? && box.Box? && box.obj == p.slot.obj && Valid(box)
    requires PartialText(p) + [Close(box.obj)] == SlotText(p.slot.outer) + p.slot.pre + Text(box)
    requires Step(Erase(p), Close(box.obj)) == Some(Done(Pop(SlotStack(p.slot))))
    ensures Advances(p, Close(box.obj), q)
  {
    q := Partial(p.slot.outer, p.slot.pre, After(box), []);
    assert Pop(SlotStack(p.slot)) == SlotStack(p.slot.outer);
  }

  /** The focus is at the start of a container that has no item yet. */
  predicate AtEmpty(p: Partial) {
    && p.slot.In? && p.slot.done == [] && p.slot.head.NoKey? && (p.focus.Expect? || p.focus.KeyGap?)
    && (p.slot.obj <==> p.focus.KeyGap?)
  }

  lemma EmptyFocus(p: Partial, b: Byte)
    requires ValidPartial(p)
    requires (Erase(p).state.ObjKeyOrEnd? && b == RBRACE) || (Erase(p).state.ArrValOrEnd? && b == RBRACKET)
    ensures AtEmpty(p) && b == Close(p.slot.obj) && Step(Erase(p), b) == Some(Done(Pop(SlotStack(p.slot))))
  {
  }

  lemma AdvanceCloseEmpty(p: Partial, b: Byte) returns (q: Partial)
    requires ValidPartial(p) && AtEmpty(p) && b == Close(p.slot.obj)
    requires Step(Erase(p), b) == Some(Done(Pop(SlotStack(p.slot))))
    ensures Advances(p, b, q)
  {
    hide Erase, Step, SlotStack;
    var s := p.slot;
    var box := Box(s.obj, p.pre, []);
    assert SlotText(s) == SlotText(s.outer) + s.pre + [Open(s.obj)];
    assert PartialText(p) == SlotText(s) + p.pre;
    Enclose(SlotText(s.outer) + s.pre, [Open(s.obj)], [], p.pre, [b]);
    q := CloseBox(p, box);
  }

  lemma Enclose(a: seq<Byte>, o: seq<Byte>, d: seq<Byte>, m: seq<Byte>, z: seq<Byte>)
    ensures a + o + d + m + z == a + (o + (d + m) + z)
    ensures a + o + m + z == a + (o + m + z)
  {
  }

  /** The text of a slot whose item has just been completed. */
  lemma ItemCompletes(p: Partial)
    requires ValidPartial(p) && p.focus.After? && p.slot.In?
    ensures var it := Item(p.slot.head, p.pre, p.focus.val, p.post);
            PartialText(p) == SlotText(p.slot.outer) + p.slot.pre + [Open(p.slot.obj)]
                              + DoneText(p.slot.done) + ItemText(it)
  {
    var s := p.slot;
    var a := SlotText(s.outer) + s.pre + [Open(s.obj)] + DoneText(s.done);
    Glue(a, HeadText(s.head), p.pre, Text(p.focus.val), p.post);
  }

  lemma Glue(a: seq<Byte>, h: seq<Byte>, p: seq<Byte>, t: seq<Byte>, z: seq<Byte>)
    ensures a + h + p + t + z == a + (h + p + t + z)
  {
  }

  function NewItem(p: Partial): Item
    requires p.focus.After? && p.slot.In?
  {
    Item(p.slot.head, p.pre, p.focus.val, p.post)
  }

  lemma NewItemsValid(p: Partial)
    requires ValidPartial(p) && p.focus.After? && p.slot.In?
    ensures ValidItems(p.slot.obj, p.slot.done + [NewItem(p)])
  {
    assert ValidItem(p.slot.obj, NewItem(p));
  }

  lemma BoxText(p: Partial)
    requires ValidPartial(p) && p.focus.After? && p.slot.In?
    ensures PartialText(p) + [Close(p.slot.obj)]
            == SlotText(p.slot.outer) + p.slot.pre + Text(Box(p.slot.obj, [], p.slot.done + [NewItem(p)]))
  {
    var s, it := p.slot, NewItem(p);
    DoneTextSnoc(s.done, it);
    ItemCompletes(p);
    Enclose(SlotText(s.outer) + s.pre, [Open(s.obj)], DoneText(s.done), ItemText(it), [Close(s.obj)]);
    assert Text(Box(s.obj, [], s.done + [it])) == [Open(s.obj)] + BodyText(s.done + [it]) + [Close(s.obj)];
  }

  lemma AdvanceClose(p: Partial, b: Byte) returns (q: Partial)
    requires ValidPartial(p) && p.focus.After? && p.slot.In? && b == Close(p.slot.obj)
    ensures Advances(p, b, q)
  {
    NewItemsValid(p);
    BoxText(p);
    CanClose(p);
    q := CloseBox(p, Box(p.slot.obj, [], p.slot.done + [NewItem(p)]));
  }

  lemma CanClose(p: Partial)
    requires ValidPartial(p) && p.focus.After? && p.slot.In?
    ensures Step(Erase(p), Close(p.slot.obj)) == Some(Done(Pop(SlotStack(p.slot))))
    ensures Step(Erase(p), COMMA) == Some(Conf(SlotStack(p.slot), if p.slot.obj then ObjKeyStart else Value))
  {
    hide SlotStack;
    OpenSlotStack(p.slot);
  }

  /** After a comma: the next item of the same container. */
  function NextItem(p: Partial): Partial
    requires p.focus.After? && p.slot.In?
  {
    Partial(p.slot.(done := p.slot.done + [NewItem(p)], head := NoKey), [],
            if p.slot.obj then KeyGap else Expect, [])
  }

  lemma NextItemValid(p: Partial)
    requires ValidPartial(p) && p.focus.After? && p.slot.In?
    ensures ValidPartial(NextItem(p))
  {
    hide ValidItems, ValidItem, NewItem, Valid;
    NewItemsValid(p);
  }

  lemma NextItemState(p: Partial)
    requires p.focus.After? && p.slot.In?
    ensures Erase(NextItem(p)) == Conf(SlotStack(p.slot), if p.slot.obj then ObjKeyStart else Value)
  {
    hide NewItem;
  }

  lemma AdvanceComma(p: Partial) returns (q: Partial)
    requires ValidPartial(p) && p.focus.After? && p.slot.In?
    ensures Advances(p, COMMA, q)
  {
    hide SlotText, FocusText, Step, Erase, ValidPartial, NewItem;
    q := NextItem(p);
    NextItemValid(p);
    NextItemState(p);
    CanClose(p);
    CommaText(p);
    assert SlotText(q.slot) + [] + [] + [] == SlotText(q.slot);
    NoText(q.focus);
  }

  lemma CommaText(p: Partial)
    requires ValidPartial(p) && p.focus.After? && p.slot.In?
    ensures SlotText(p.slot.(done := p.slot.done + [NewItem(p)], head := NoKey)) == PartialText(p) + [COMMA]
  {
    var s, it := p.slot, NewItem(p);
    DoneTextSnoc(s.done, it);
    ItemCompletes(p);
    Enclose(SlotText(s.outer) + s.pre, [Open(s.obj)], DoneText(s.done), ItemText(it), [COMMA]);
    Flatten(SlotText(s.outer) + s.pre, [Open(s.obj)], DoneText(s.done), ItemText(it), [COMMA]);
  }

  lemma Flatten(a: seq<Byte>, o: seq<Byte>, d: seq<Byte>, m: seq<Byte>, z: seq<Byte>)
    ensures a + o + (d + m + z) + [] == a + o + d + m + z
  {
  }

  lemma AdvanceColon(p: Partial) returns (q: Partial)
    requires ValidPartial(p) && p.focus.AfterKey?
    ensures Advances(p, COLON, q)
  {
    var s := p.slot;
    var h := Key(p.focus.lead, p.focus.chars, p.post);
    q := Partial(s.(head := h), [], Expect, []);
    var a := SlotText(s.outer) + s.pre + [Open(s.obj)] + DoneText(s.done);
    assert PartialText(p) == a + FocusText(p.focus) + p.post;
    assert HeadText(h) == FocusText(p.focus) + p.post + [COLON];
    assert PartialText(q) == a + HeadText(h);
  }

  lemma AdvanceKey(p: Partial) returns (q: Partial)
    requires ValidPartial(p) && p.focus.KeyGap?
    ensures Advances(p, QUOTE, q)
  {
    q := Partial(p.slot, [], InKey(p.pre, [], []), []);
    assert PartialText(q) == PartialText(p) + [QUOTE];
  }

  /** A numeral that may end reads on as the finished value. */
  function Settle(p: Partial): Partial {
    if p.focus.Numeral? && p.focus.n.CanEnd() then p.(focus := After(Num(p.focus.num))) else p
  }

  lemma SettleKeeps(p: Partial)
    requires ValidPartial(p) && p.focus.Numeral? && p.focus.n.CanEnd()
    ensures ValidPartial(Settle(p)) && PartialText(Settle(p)) == PartialText(p)
    ensures Erase(Settle(p)) == Done(SlotStack(p.slot))
  {
  }

  lemma AdvanceAfter(p: Partial, b: Byte) returns (q: Partial)
    requires ValidPartial(p) && p.focus.After? && Step(Erase(p), b).Some?
    ensures Advances(p, b, q)
  {
    if IsWs(b) {
      q := AdvanceWs(p, b);
    } else {
      assert p.slot.In?;
      assert Erase(p).stack[|Erase(p).stack| - 1] == Open(p.slot.obj);
      if b == COMMA { q := AdvanceComma(p); } else { q := AdvanceClose(p, b); }
    }
  }

  /** Every accepted byte extends some partial text. */
  lemma Advance(p: Partial, b: Byte) returns (q: Partial)
    requires ValidPartial(p) && Step(Erase(p), b).Some?
    ensures Advances(p, b, q)
  {
    match p.focus
    case Expect =>
      if IsWs(b) { q := AdvanceWs(p, b); }
      else if Erase(p).state.ArrValOrEnd? && b == RBRACKET {
        EmptyFocus(p, b);
        q := AdvanceCloseEmpty(p, b);
      }
      else { q := AdvanceBegin(p, b); }
    case KeyGap =>
      if IsWs(b) { q := AdvanceWs(p, b); }
      else if b == QUOTE { q := AdvanceKey(p); }
      else {
        EmptyFocus(p, b);
        q := AdvanceCloseEmpty(p, b);
      }
    case InKey(_, _, _) => q := AdvanceChars(p, b);
    case Chars(_, _) => q := AdvanceChars(p, b);
    case AfterKey(_, _) =>
      if IsWs(b) { q := AdvanceWs(p, b); } else { q := AdvanceColon(p); }
    case Literal(_, _) => q := AdvanceLiteral(p, b);
    case After(_) => q := AdvanceAfter(p, b);
    case Numeral(n, _) =>
      if NumNext(n, b).Some? {
        q := AdvanceNumeral(p, b);
      } else {
        SettleKeeps(p);
        q := AdvanceAfter(Settle(p), b);
      }
  }

  const EMPTY := Partial(Top, [], Expect, [])

  lemma {:induction false} RunIsPartial(w: seq<Byte>) returns (p: Partial)
    requires Run(Some(START), w).Some?
    ensures ValidPartial(p) && PartialText(p) == w && Erase(p) == Run(Some(START), w).value
    decreases |w|
  {
    if w == [] {
      p := EMPTY;
    } else {
      var u, b := w[..|w| - 1], w[|w| - 1];
      assert w == u + [b];
      RunSnoc(Some(START), u, b);
      var m := RunIsPartial(u);
      p := Advance(m, b);
    }
  }

  lemma TopIsText(q: Partial)
    requires ValidPartial(q) && q.slot.Top? && q.focus.After?
    ensures IsJsonText(PartialText(q))
  {
    var d := Doc(q.pre, q.focus.val, q.post);
    assert ValidDoc(d) && DocText(d) == PartialText(q);
  }

  lemma OpenSlotStack(s: Slot)
    requires s.In?
    ensures SlotStack(s) != [] && SlotStack(s)[|SlotStack(s)| - 1] == Open(s.obj)
  {
  }

  lemma EndedIsTop(q: Partial)
    requires ValidPartial(q) && (Erase(q).state.End? || Erase(q).stack == [])
    ensures q.slot.Top?
  {
    if q.slot.In? { OpenSlotStack(q.slot); }
  }

  /** Soundness: what the guard calls complete is a JSON text. */
  lemma CompleteIsText(w: seq<Byte>)
    requires Run(Some(START), w).Some? && CompleteConf(Run(Some(START), w).value)
    ensures IsJsonText(w)
  {
    var p := RunIsPartial(w);
    if p.focus.Numeral? { SettleKeeps(p); }
    EndedIsTop(p);
    TopIsText(Settle(p));
  }

  // ---------------------------------------------------------------- completeness

  /** The guard has read a whole value: either the container state, or a numeral that may end. */
  predicate Settled(c: Option<Conf>, stack: seq<Byte>) {
    c.Some? && c.value.stack == stack
    && (c.value.state == DoneState(stack) || (c.value.state.InNum? && c.value.state.n.CanEnd()))
  }

  lemma SettledStep(c: Conf, stack: seq<Byte>, b: Byte)
    requires Settled(Some(c), stack) && (IsWs(b) || b == COMMA || b == RBRACE || b == RBRACKET)
    ensures Step(c, b) == Step(Done(stack), b)
  {
  }

  lemma {:induction false} SettledWs(c: Option<Conf>, stack: seq<Byte>, w: seq<Byte>)
    requires Settled(c, stack) && AllWs(w)
    ensures Settled(Run(c, w), stack)
    decreases |w|
  {
    if w != [] {
      SettledStep(c.value, stack, w[0]);
      assert Step(Done(stack), w[0]) == Some(Done(stack));
      SettledWs(Step(c.value, w[0]), stack, w[1..]);
    }
  }

  predicate SkipsWs(s: State) {
    s.Value? || s.ObjKeyOrEnd? || s.ObjKeyStart? || s.ObjColon? || s.ArrValOrEnd?
  }

  lemma {:induction false} RunWs(c: Conf, w: seq<Byte>)
    requires AllWs(w) && SkipsWs(c.state)
    ensures Run(Some(c), w) == Some(c)
    decreases |w|
  {
    if w != [] { RunWs(c, w[1..]); }
  }

  lemma {:induction false} RunDigits(stack: seq<Byte>, n: NumS, w: seq<Byte>)
    requires AllDigits(w) && (n.Int? || n.Frac? || n.Exp?)
    ensures Run(Some(Conf(stack, InNum(n))), w) == Some(Conf(stack, InNum(n)))
    decreases |w|
  {
    if w != [] { RunDigits(stack, n, w[1..]); }
  }

  lemma RunWhole(c: Conf, n: Number)
    requires ValidNumber(n) && (c.state.Value? || c.state.ArrValOrEnd?)
    ensures Run(Some(c), SignText(n.neg) + n.whole)
            == Some(Conf(c.stack, InNum(if n.whole == [ZERO] then IntZero else Int)))
  {
    var m := if n.neg then Some(Conf(c.stack, InNum(Sign))) else Some(c);
    RunConcat(Some(c), SignText(n.neg), n.whole);
    assert Run(Some(c), SignText(n.neg)) == m;
    if n.whole != [ZERO] { RunDigits(c.stack, Int, n.whole[1..]); }
  }

  lemma RunFrac(stack: seq<Byte>, n: NumS, f: seq<Byte>)
    requires FracPart(f) && (n.IntZero? || n.Int?)
    ensures Run(Some(Conf(stack, InNum(n))), f) == Some(Conf(stack, InNum(if f == [] then n else Frac)))
  {
    if f != [] {
      assert Step(Conf(stack, InNum(n)), f[0]) == Some(Conf(stack, InNum(DotFirst)));
      var d := f[1..];
      assert Step(Conf(stack, InNum(DotFirst)), d[0]) == Some(Conf(stack, InNum(Frac)));
      RunDigits(stack, Frac, d[1..]);
    }
  }

  lemma RunExp(stack: seq<Byte>, n: NumS, e: seq<Byte>)
    requires ExpPart(e) && (n.IntZero? || n.Int? || n.Frac?)
    ensures Run(Some(Conf(stack, InNum(n))), e) == Some(Conf(stack, InNum(if e == [] then n else Exp)))
  {
    if e != [] {
      var c1 := Conf(stack, InNum(ExpSign));
      assert Step(Conf(stack, InNum(n)), e[0]) == Some(c1);
      var d := e[1..];
      if Digits(d) {
        assert Step(c1, d[0]) == Some(Conf(stack, InNum(Exp)));
        RunDigits(stack, Exp, d[1..]);
      } else {
        var c2 := Conf(stack, InNum(ExpFirst));
        assert Step(c1, d[0]) == Some(c2);
        assert d[1..] == e[2..];
        assert Run(Some(c1), d) == Run(Some(c2), d[1..]);
        var f := e[2..];
        assert Step(c2, f[0]) == Some(Conf(stack, InNum(Exp)));
        RunDigits(stack, Exp, f[1..]);
      }
    }
  }

  lemma RunNumber(c: Conf, n: Number)
    requires ValidNumber(n) && (c.state.Value? || c.state.ArrValOrEnd?)
    ensures Settled(Run(Some(c), NumberText(n)), c.stack) && Run(Some(c), NumberText(n)).value.state.InNum?
  {
    RunWhole(c, n);
    var k := if n.whole == [ZERO] then IntZero else Int;
    RunFrac(c.stack, k, n.frac);
    RunExp(c.stack, if n.frac == [] then k else Frac, n.exp);
    RunConcat(Some(c), SignText(n.neg) + n.whole, n.frac);
    RunConcat(Some(c), SignText(n.neg) + n.whole + n.frac, n.exp);
  }

  lemma RunHex(stack: seq<Byte>, key: bool, h: seq<Byte>)
    requires AllHex(h)
    ensures Run(Some(Conf(stack, InStr(key, false, |h|))), h) == Some(Conf(stack, InStr(key, false, 0)))
    decreases |h|
  {
    if h != [] { RunHex(stack, key, h[1..]); }
  }

  lemma RunChar(stack: seq<Byte>, key: bool, c: Char)
    requires ValidChar(c)
    ensures Run(Some(Conf(stack, InStr(key, false, 0))), CharText(c)) == Some(Conf(stack, InStr(key, false, 0)))
  {
    var s0 := Conf(stack, InStr(key, false, 0));
    if c.Unicode? {
      var s1 := Conf(stack, InStr(key, true, 0));
      assert Step(s0, BACKSLASH) == Some(s1);
      assert Step(s1, 0x75) == Some(Conf(stack, InStr(key, false, 4)));
      RunSnoc(Some(s0), [BACKSLASH], 0x75);
      assert [BACKSLASH] + [0x75] == [BACKSLASH, 0x75] && Run(Some(s0), [BACKSLASH]) == Some(s1);
      RunConcat(Some(s0), [BACKSLASH, 0x75], c.h);
      RunHex(stack, key, c.h);
    } else if c.Short? {
      RunSnoc(Some(s0), [BACKSLASH], c.e);
      assert [BACKSLASH] + [c.e] == CharText(c);
      assert Run(Some(s0), [BACKSLASH]) == Some(Conf(stack, InStr(key, true, 0)));
    }
  }

  lemma {:induction false} RunChars(stack: seq<Byte>, key: bool, cs: seq<Char>)
    requires ValidChars(cs)
    ensures Run(Some(Conf(stack, InStr(key, false, 0))), CharsText(cs)) == Some(Conf(stack, InStr(key, false, 0)))
    decreases |cs|
  {
    if cs != [] {
      RunChar(stack, key, cs[0]);
      RunChars(stack, key, cs[1..]);
      RunConcat(Some(Conf(stack, InStr(key, false, 0))), CharText(cs[0]), CharsText(cs[1..]));
    }
  }

  lemma RunString(c: Conf, key: bool, cs: seq<Char>)
    requires ValidChars(cs)
    requires if key then c.state.ObjKeyOrEnd? || c.state.ObjKeyStart? else c.state.Value? || c.state.ArrValOrEnd?
    ensures Run(Some(c), StringText(cs)) == Some(if key then Conf(c.stack, ObjColon) else Done(c.stack))
  {
    var m := Conf(c.stack, InStr(key, false, 0));
    assert Step(c, QUOTE) == Some(m);
    assert StringText(cs)[1..] == CharsText(cs) + [QUOTE];
    RunChars(c.stack, key, cs);
    RunSnoc(Some(m), CharsText(cs), QUOTE);
  }

  /** Before an item: the states the guard is in after `[` or `{`, or after a comma. */
  predicate AtItem(c: Option<Conf>, stack: seq<Byte>, obj: bool, first: bool) {
    c == Some(Conf(stack + [Open(obj)],
                   if obj then (if first then ObjKeyOrEnd else ObjKeyStart)
                   else if first then ArrValOrEnd else Value))
  }

  lemma RunHead(c: Conf, stack: seq<Byte>, obj: bool, first: bool, h: Head) returns (d: Conf)
    requires AtItem(Some(c), stack, obj, first) && ValidHead(h) && h.Key? == obj
    ensures Run(Some(c), HeadText(h)) == Some(d)
    ensures d.stack == c.stack && (d.state.Value? || d.state.ArrValOrEnd?)
  {
    d := c;
    if h.Key? {
      RunWs(c, h.lead);
      RunString(c, true, h.name);
      var m := Conf(c.stack, ObjColon);
      RunWs(m, h.gap);
      RunConcat(Some(c), h.lead, StringText(h.name));
      RunConcat(Some(c), h.lead + StringText(h.name), h.gap);
      RunSnoc(Some(c), h.lead + StringText(h.name) + h.gap, COLON);
      d := Conf(c.stack, Value);
    }
  }

  lemma {:induction false} RunItem(c: Option<Conf>, stack: seq<Byte>, obj: bool, first: bool, it: Item)
    requires ValidItem(obj, it) && AtItem(c, stack, obj, first)
    ensures Settled(Run(c, ItemText(it)), stack + [Open(obj)])
    decreases it
  {
    var d := RunHead(c.value, stack, obj, first, it.head);
    RunWs(d, it.pre);
    RunText(d, it.val);
    var h := HeadText(it.head);
    RunConcat(c, h, it.pre);
    RunConcat(c, h + it.pre, Text(it.val));
    RunConcat(c, h + it.pre + Text(it.val), it.post);
    SettledWs(Run(c, h + it.pre + Text(it.val)), d.stack, it.post);
  }

  lemma {:induction false} RunDone(c: Option<Conf>, stack: seq<Byte>, obj: bool, items: seq<Item>)
    requires ValidItems(obj, items) && AtItem(c, stack, obj, true)
    ensures AtItem(Run(c, DoneText(items)), stack, obj, items == [])
    decreases items, 0
  {
    if items == [] {
      NothingDone();
      RunNothing(c);
    } else {
      hide Run, DoneText, ItemText, ValidItem, AtItem, Step, Settled;
      var n := |items| - 1;
      var u := DoneText(items[..n]);
      LastDone(items);
      ValidFront(obj, items);
      RunDone(c, stack, obj, items[..n]);
      RunItem(Run(c, u), stack, obj, n == 0, items[n]);
      RunConcat(c, u, ItemText(items[n]));
      RunSnoc(c, u + ItemText(items[n]), COMMA);
      AfterComma(Run(c, u + ItemText(items[n])), stack, obj);
    }
  }

  lemma RunNothing(c: Option<Conf>)
    ensures Run(c, []) == c
  {
  }

  lemma NothingDone()
    ensures DoneText([]) == []
  {
  }

  lemma LastDone(items: seq<Item>)
    requires items != []
    ensures DoneText(items) == DoneText(items[..|items| - 1]) + ItemText(items[|items| - 1]) + [COMMA]
  {
    hide ItemText;
  }

  lemma ValidFront(obj: bool, items: seq<Item>)
    requires ValidItems(obj, items) && items != []
    ensures ValidItems(obj, items[..|items| - 1]) && ValidItem(obj, items[|items| - 1])
  {
    hide ValidItem;
  }

  lemma AfterComma(c: Option<Conf>, stack: seq<Byte>, obj: bool)
    requires Settled(c, stack + [Open(obj)])
    ensures c.Some? && AtItem(Step(c.value, COMMA), stack, obj, false)
  {
    SettledStep(c.value, stack + [Open(obj)], COMMA);
  }

  lemma {:induction false} RunBody(c: Option<Conf>, stack: seq<Byte>, obj: bool, items: seq<Item>)
    requires ValidItems(obj, items) && items != [] && AtItem(c, stack, obj, true)
    ensures Settled(Run(c, BodyText(items)), stack + [Open(obj)])
    decreases items, 1
  {
    var n := |items| - 1;
    RunDone(c, stack, obj, items[..n]);
    RunItem(Run(c, DoneText(items[..n])), stack, obj, n == 0, items[n]);
    RunConcat(c, DoneText(items[..n]), ItemText(items[n]));
  }

  /** The guard reads every value it is ready for, and settles. */
  lemma {:induction false} RunText(c: Conf, t: Cst)
    requires Valid(t) && (c.state.Value? || c.state.ArrValOrEnd?)
    ensures Settled(Run(Some(c), Text(t)), c.stack) && (Run(Some(c), Text(t)).value.state.InNum? <==> t.Num?)
    decreases t
  {
    match t
    case Lit(w) => RunWord(c, w);
    case Num(n) => RunNumber(c, n);
    case Str(cs) => RunString(c, false, cs);
    case Box(obj, gap, items) => RunBox(c, obj, gap, items);
  }

  lemma RunWord(c: Conf, w: Word)
    requires c.state.Value? || c.state.ArrValOrEnd?
    ensures Run(Some(c), WordText(w)) == Some(Done(c.stack))
  {
    hide Step, WordText;
    WordBegins(c, w);
    var p := WordText(w)[1..];
    RunSuffix(c.stack, p, 0);
    assert p[0..] == p;
  }

  lemma WordBegins(c: Conf, w: Word)
    requires c.state.Value? || c.state.ArrValOrEnd?
    ensures |WordText(w)| > 1 && Step(c, WordText(w)[0]) == Some(Conf(c.stack, InLit(WordText(w)[1..], 0)))
  {
  }

  lemma RunSuffix(stack: seq<Byte>, p: seq<Byte>, i: nat)
    requires i < |p|
    ensures Run(Some(Conf(stack, InLit(p, i))), p[i..]) == Some(Done(stack))
    decreases |p| - i
  {
    assert p[i..][1..] == p[i + 1..];
    if i + 1 < |p| { RunSuffix(stack, p, i + 1); }
  }

  lemma {:induction false} RunBox(c: Conf, obj: bool, gap: seq<Byte>, items: seq<Item>)
    requires AllWs(gap) && ValidItems(obj, items) && (c.state.Value? || c.state.ArrValOrEnd?)
    ensures Run(Some(c), Text(Box(obj, gap, items))) == Some(Done(c.stack))
    decreases items, 2
  {
    var m := Step(c, Open(obj));
    var inner := c.stack + [Open(obj)];
    assert AtItem(m, c.stack, obj, true);
    assert Pop(inner) == c.stack;
    var body := if items == [] then gap else BodyText(items);
    assert Text(Box(obj, gap, items))[1..] == body + [Close(obj)];
    if items == [] {
      RunWs(m.value, gap);
    } else {
      RunBody(m, c.stack, obj, items);
      SettledStep(Run(m, body).value, inner, Close(obj));
    }
    RunSnoc(m, body, Close(obj));
  }

  /** Where the guard is after the value of a text. */
  lemma AfterValue(d: Doc)
    requires ValidDoc(d)
    ensures var m := Run(Some(START), d.pre + Text(d.val));
            Settled(m, []) && (m.value.state.InNum? <==> d.val.Num?) && Run(Some(START), DocText(d)) == Run(m, d.post)
  {
    hide Text, Valid;
    RunWs(START, d.pre);
    RunText(START, d.val);
    RunConcat(Some(START), d.pre, Text(d.val));
    RunConcat(Some(START), d.pre + Text(d.val), d.post);
  }

  /** After the end nothing changes any more. */
  lemma {:induction false} EndStays(c: Conf, w: seq<Byte>)
    requires c.state.End? && Run(Some(c), w).Some?
    ensures Run(Some(c), w) == Some(c) && AllWs(w)
    decreases |w|
  {
    if w != [] { EndStays(c, w[1..]); }
  }

  /** A text whose end the guard has not yet seen is a number and ends with it. */
  lemma NotYetEnded(d: Doc)
    requires ValidDoc(d) && Run(Some(START), DocText(d)).Some? && !Run(Some(START), DocText(d)).value.state.End?
    ensures d.post == [] && d.val.Num?
  {
    hide Text, Valid, DocText;
    AfterValue(d);
    var m := Run(Some(START), d.pre + Text(d.val)).value;
    SettledWs(Some(m), [], d.post);
    if d.post != [] {
      SettledStep(m, [], d.post[0]);
      assert Step(m, d.post[0]) == Some(Done([]));
      SettledWs(Step(m, d.post[0]), [], d.post[1..]);
      EndStays(Done([]), d.post[1..]);
    }
  }

  /** Completeness: the guard accepts every JSON text and calls it complete. */
  lemma TextIsComplete(w: seq<Byte>)
    requires IsJsonText(w)
    ensures Run(Some(START), w).Some? && CompleteConf(Run(Some(START), w).value)
  {
    var d :| ValidDoc(d) && DocText(d) == w;
    RunWs(START, d.pre);
    RunText(START, d.val);
    RunConcat(Some(START), d.pre, Text(d.val));
    RunConcat(Some(START), d.pre + Text(d.val), d.post);
    SettledWs(Run(Some(START), d.pre + Text(d.val)), [], d.post);
  }

  // ---------------------------------------------------------------- viability

  /** A byte string that turns a string body in progress into a whole string. */
  function CloseChars(pend: seq<Byte>): seq<Byte> {
    if pend == [] then [QUOTE]
    else if |pend| == 1 then [0x6E, QUOTE]
    else if |pend| <= 6 then Zeros(6 - |pend|) + [QUOTE]
    else []
  }

  function Zeros(n: nat): seq<Byte> { seq(n, _ => ZERO) }

  function CloseNumber(n: NumS): seq<Byte> { if n.CanEnd() then [] else [ZERO] }

  function CloseFocus(f: Focus): seq<Byte> {
    match f
    case Expect => [ZERO]
    case KeyGap => [QUOTE, QUOTE, COLON, ZERO]
    case InKey(_, _, pend) => CloseChars(pend) + [COLON, ZERO]
    case AfterKey(_, _) => [COLON, ZERO]
    case Chars(_, pend) => CloseChars(pend)
    case Numeral(n, _) => CloseNumber(n)
    case Literal(w, i) => WordText(w)[1..][if i < |WordText(w)| then i else 0..]
    case After(_) => []
  }

  function CloseStack(stack: seq<Byte>): seq<Byte> {
    if stack == [] then []
    else [Close(stack[|stack| - 1] == LBRACE)] + CloseStack(stack[..|stack| - 1])
  }

  lemma RunCloseChars(stack: seq<Byte>, key: bool, pend: seq<Byte>)
    requires PendOk(pend)
    ensures Run(Some(Conf(stack, PendState(key, pend))), CloseChars(pend))
            == Some(if key then Conf(stack, ObjColon) else Done(stack))
  {
    var c, plain := Conf(stack, PendState(key, pend)), Conf(stack, InStr(key, false, 0));
    if |pend| == 1 {
      RunSnoc(Some(c), [0x6E], QUOTE);
      assert [0x6E] + [QUOTE] == CloseChars(pend);
      assert Run(Some(c), [0x6E]) == Some(plain);
    } else if pend != [] {
      RunHex(stack, key, Zeros(6 - |pend|));
      RunSnoc(Some(c), Zeros(6 - |pend|), QUOTE);
    }
  }

  lemma RunColonZero(stack: seq<Byte>)
    ensures Settled(Run(Some(Conf(stack, ObjColon)), [COLON, ZERO]), stack)
  {
    RunSnoc(Some(Conf(stack, ObjColon)), [COLON], ZERO);
    assert [COLON] + [ZERO] == [COLON, ZERO];
    assert Run(Some(Conf(stack, ObjColon)), [COLON]) == Some(Conf(stack, Value));
  }

  lemma RunEmptyKey(c: Conf)
    requires c.state.ObjKeyOrEnd? || c.state.ObjKeyStart?
    ensures Run(Some(c), [QUOTE, QUOTE, COLON, ZERO]) == Run(Some(Conf(c.stack, ObjColon)), [COLON, ZERO])
  {
    RunString(c, true, []);
    assert StringText([]) == [QUOTE, QUOTE];
    RunConcat(Some(c), [QUOTE, QUOTE], [COLON, ZERO]);
    assert [QUOTE, QUOTE] + [COLON, ZERO] == [QUOTE, QUOTE, COLON, ZERO];
  }

  lemma RunCloseFocus(p: Partial)
    requires ValidPartial(p)
    ensures Settled(Run(Some(Erase(p)), CloseFocus(p.focus)), SlotStack(p.slot))
  {
    var c, stack := Erase(p), SlotStack(p.slot);
    match p.focus
    case Expect =>
    case KeyGap => RunEmptyKey(c); RunColonZero(stack);
    case InKey(_, _, pend) =>
      RunCloseChars(stack, true, pend);
      RunConcat(Some(c), CloseChars(pend), [COLON, ZERO]);
      RunColonZero(stack);
    case AfterKey(_, _) => RunColonZero(stack);
    case Chars(_, pend) => RunCloseChars(stack, false, pend);
    case Numeral(n, _) => RunCloseNumber(stack, n);
    case Literal(w, i) => RunSuffix(stack, WordText(w)[1..], i);
    case After(_) =>
  }

  lemma RunCloseNumber(stack: seq<Byte>, n: NumS)
    ensures Settled(Run(Some(Conf(stack, InNum(n))), CloseNumber(n)), stack)
  {
  }

  lemma {:induction false} RunCloseStack(c: Option<Conf>, stack: seq<Byte>)
    requires Settled(c, stack)
    requires forall k :: 0 <= k < |stack| ==> stack[k] == LBRACE || stack[k] == LBRACKET
    ensures Settled(Run(c, CloseStack(stack)), [])
    decreases |stack|
  {
    if stack != [] {
      var b := Close(stack[|stack| - 1] == LBRACE);
      SettledStep(c.value, stack, b);
      assert CloseStack(stack)[1..] == CloseStack(Pop(stack));
      RunCloseStack(Step(c.value, b), Pop(stack));
    }
  }

  lemma {:induction false} SlotStackShape(s: Slot)
    ensures forall k :: 0 <= k < |SlotStack(s)| ==> SlotStack(s)[k] == LBRACE || SlotStack(s)[k] == LBRACKET
  {
    if s.In? { SlotStackShape(s.outer); }
  }

  /** The guard never strands the sampler: every accepted prefix has a completion. */
  lemma Completion(w: seq<Byte>) returns (v: seq<Byte>)
    requires Run(Some(START), w).Some?
    ensures IsJsonText(w + v)
  {
    hide Run, Erase, SlotStack, CloseFocus, CloseStack, ValidPartial, IsJsonText;
    var p := RunIsPartial(w);
    var f, z := CloseFocus(p.focus), CloseStack(SlotStack(p.slot));
    RunCloseFocus(p);
    SlotStackShape(p.slot);
    RunCloseStack(Run(Some(Erase(p)), f), SlotStack(p.slot));
    RunConcat(Some(START), w, f);
    RunConcat(Some(START), w + f, z);
    Joins(w, f, z);
    v := f + z;
    CompleteIsText(w + v);
  }

  ghost predicate IsJsonPrefix(w: seq<Byte>) { exists v :: IsJsonText(w + v) }

  /** Acceptance is exactly being a prefix of some JSON text. */
  lemma AcceptsExactlyPrefixes(w: seq<Byte>)
    ensures Run(Some(START), w).Some? <==> IsJsonPrefix(w)
  {
    if Run(Some(START), w).Some? {
      var v := Completion(w);
    }
    if IsJsonPrefix(w) {
      var v :| IsJsonText(w + v);
      TextIsComplete(w + v);
      RunConcat(Some(START), w, v);
    }
  }

  /** Completeness of the guard is exactly being a JSON text. */
  lemma CompleteExactlyTexts(w: seq<Byte>)
    ensures (Run(Some(START), w).Some? && CompleteConf(Run(Some(START), w).value)) <==> IsJsonText(w)
  {
    if Run(Some(START), w).Some? && CompleteConf(Run(Some(START), w).value) { CompleteIsText(w); }
    if IsJsonText(w) { TextIsComplete(w); }
  }

  /** The two facts about the running guard object. */
  method Accept(w: seq<Byte>) returns (accepted: bool, complete: bool)
    ensures accepted <==> IsJsonPrefix(w)
    ensures complete <==> IsJsonText(w)
  {
    var g := new JsonGuard();
    accepted := g.PushBytes(w);
    AcceptsExactlyPrefixes(w);
    CompleteExactlyTexts(w);
    complete := false;
    if accepted { complete := g.Complete(); }
  }
}
