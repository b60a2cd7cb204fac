/** The guarantee of schema-constrained decoding: a finished text is a JSON text exactly when no
    integer hole was given leading zeros and no number hole more than one minus, and then it is
    an object with exactly the selected keys, in schema order, with values of the declared kinds. */
module SchemaText {
  import opened Bytes
  import opened JsonAccess
  import opened JsonGrammar
  import opened JsonParser
  import opened JsonMeaning
  import G = JsonGuard
  import P = JsonPrefix
  import JsonPrinter
  import A = JsonAgreement
  import opened SchemaPlan
  import S = SchemaGuard
  import opened SchemaFill

  /** What the guard does not enforce. */
  predicate Canonical(f: Fill) {
    (f.FInt? ==> WholePart(f.digits)) && (f.FNum? ==> f.minuses <= 1)
  }

  predicate AllCanonical(fills: seq<Fill>) { forall k :: 0 <= k < |fills| ==> Canonical(fills[k]) }

  /** The value has the shape the schema declares. */
  predicate Conforms(sch: Json, t: Cst)
    decreases t
  {
    var ty := StrOf(sch, TYPE);
    if ty == Some(OBJECT) then
      var keys := Selected(sch);
      t.Box? && t.obj && |t.items| == |keys|
      && forall k :: 0 <= k < |t.items| ==> Named(keys[k].key, t.items[k]) && Conforms(keys[k].val, t.items[k].val)
    else if ty == Some(INTEGER) then t.Num? && t.num.frac == [] && t.num.exp == []
    else if ty == Some(NUMBER) then t.Num?
    else if ty == Some(BOOLEAN) then t == Lit(TrueWord) || t == Lit(FalseWord)
    else ty == Some(STRING) ==> t.Str?
  }

  predicate Named(key: seq<Byte>, it: Item) {
    it.head.Key? && ValidChars(it.head.name) && CharsMeaning(it.head.name) == Some(key)
  }

  // ---------------------------------------------------------------- fills and merged plans

  lemma {:induction false} FillsConcat(a: seq<Fill>, b: seq<Fill>)
    ensures FillsText(a + b) == FillsText(a) + FillsText(b)
    decreases |b|
  {
    hide FillText;
    if b == [] {
      assert a + b == a;
    } else {
      var n := |b| - 1;
      assert (a + b)[..|a| + n] == a + b[..n];
      FillsConcat(a, b[..n]);
      Assoc(FillsText(a), FillsText(b[..n]), FillText(b[n]));
    }
  }

  lemma FillsOne(f: Fill)
    ensures FillsText([f]) == FillText(f)
  {
    assert [f][..0] == [];
    assert FillsText([]) == [];
  }

  /** Filling the merged plan is filling the plan before merging. */
  lemma {:induction false} Unmerge(segs: seq<Seg>, fills: seq<Fill>) returns (apart: seq<Fill>)
    requires AllFit(Merge(segs), fills)
    ensures AllFit(segs, apart) && FillsText(apart) == FillsText(fills)
    ensures AllCanonical(apart) <==> AllCanonical(fills)
    decreases |segs|
  {
    hide Fits, FillText, Canonical, FillsText, AllCanonical;
    if segs == [] {
      apart := [];
    } else {
      var n := |segs| - 1;
      var m, s := Merge(segs[..n]), segs[n];
      var init, last := Unpush(m, s, fills);
      var rest := Unmerge(segs[..n], init);
      apart := rest + [last];
      FillsSnoc(rest, last);
      FillsSnoc(init, last);
      CanonicalSnoc(rest, last);
      CanonicalSnoc(init, last);
    }
  }

  /** Undoing one appended segment. */
  lemma Unpush(m: seq<Seg>, s: Seg, fills: seq<Fill>) returns (init: seq<Fill>, last: Fill)
    requires AllFit(Push(m, s), fills)
    ensures AllFit(m, init) && Fits(s, last) && FillsText(init + [last]) == FillsText(fills)
    ensures AllCanonical(init + [last]) <==> AllCanonical(fills)
  {
    hide Fits, FillText, Canonical, FillsText, AllCanonical;
    var k := |fills| - 1;
    assert fills == fills[..k] + [fills[k]];
    if m != [] && m[|m| - 1].Fixed? && s.Fixed? {
      var a := m[|m| - 1].text;
      JoinedFill(a, s.text, fills[k]);
      init, last := fills[..k] + [FFixed(a)], FFixed(s.text);
      FillsSnoc(init, last);
      FillsSnoc(fills[..k], FFixed(a));
      FillsSnoc(fills[..k], fills[k]);
      Assoc(FillsText(fills[..k]), a, s.text);
      CanonicalSnoc(init, last);
      CanonicalSnoc(fills[..k], FFixed(a));
      CanonicalSnoc(fills[..k], fills[k]);
    } else {
      init, last := fills[..k], fills[k];
    }
  }

  lemma JoinedFill(a: seq<Byte>, b: seq<Byte>, f: Fill)
    requires Fits(Fixed(a + b), f)
    ensures f == FFixed(a + b) && FillText(f) == a + b && Canonical(f)
    ensures Fits(Fixed(a), FFixed(a)) && FillText(FFixed(a)) == a && Canonical(FFixed(a))
    ensures Fits(Fixed(b), FFixed(b)) && FillText(FFixed(b)) == b && Canonical(FFixed(b))
  {
  }

  lemma CanonicalSnoc(fills: seq<Fill>, f: Fill)
    ensures AllCanonical(fills + [f]) <==> AllCanonical(fills) && Canonical(f)
  {
    hide Canonical;
    if AllCanonical(fills + [f]) {
      assert (fills + [f])[|fills|] == f;
      assert forall k :: 0 <= k < |fills| ==> fills[k] == (fills + [f])[k];
    }
  }

  lemma CanonicalConcat(a: seq<Fill>, b: seq<Fill>)
    ensures AllCanonical(a + b) <==> AllCanonical(a) && AllCanonical(b)
  {
    hide Canonical;
    if AllCanonical(a + b) {
      assert forall k :: 0 <= k < |a| ==> a[k] == (a + b)[k];
      assert forall k :: 0 <= k < |b| ==> b[k] == (a + b)[|a| + k];
    }
  }

  lemma SplitFit(a: seq<Seg>, b: seq<Seg>, fills: seq<Fill>)
    requires AllFit(a + b, fills)
    ensures AllFit(a, fills[..|a|]) && AllFit(b, fills[|a|..]) && fills == fills[..|a|] + fills[|a|..]
    ensures FillsText(fills) == FillsText(fills[..|a|]) + FillsText(fills[|a|..])
    ensures AllCanonical(fills) <==> AllCanonical(fills[..|a|]) && AllCanonical(fills[|a|..])
  {
    hide Fits, FillText, Canonical, FillsText;
    assert fills == fills[..|a|] + fills[|a|..];
    FillsConcat(fills[..|a|], fills[|a|..]);
    CanonicalConcat(fills[..|a|], fills[|a|..]);
    forall k | 0 <= k < |a| ensures Fits(a[k], fills[..|a|][k]) { assert (a + b)[k] == a[k]; }
    forall k | 0 <= k < |b| ensures Fits(b[k], fills[|a|..][k]) { assert (a + b)[|a| + k] == b[k]; }
  }

  lemma FitLength(segs: seq<Seg>, fills: seq<Fill>)
    requires AllFit(segs, fills)
    ensures |segs| == |fills|
  {
  }

  lemma OneFixed(t: seq<Byte>, fills: seq<Fill>)
    requires AllFit([Fixed(t)], fills)
    ensures FillsText(fills) == t && AllCanonical(fills)
  {
    assert fills == [FFixed(t)];
    FillsOne(FFixed(t));
  }

  /** The parts of a filled object. */
  lemma SplitObject(m: seq<Seg>, fills: seq<Fill>) returns (inner: seq<Fill>)
    requires AllFit([Fixed([LBRACE])] + m + [Fixed([RBRACE])], fills)
    ensures AllFit(m, inner) && FillsText(fills) == [LBRACE] + FillsText(inner) + [RBRACE]
    ensures AllCanonical(fills) <==> AllCanonical(inner)
  {
    hide AllFit, AllCanonical, FillsText;
    var a := [Fixed([LBRACE])] + m;
    FitLength(a + [Fixed([RBRACE])], fills);
    SplitFit(a, [Fixed([RBRACE])], fills);
    SplitFit([Fixed([LBRACE])], m, fills[..|a|]);
    OneFixed([LBRACE], fills[..|a|][..1]);
    OneFixed([RBRACE], fills[|a|..]);
    inner := fills[..|a|][1..];
  }

  /** The parts of the fill of one property and the properties after it. */
  lemma SplitMember(t: seq<Byte>, v: seq<Seg>, rest: seq<Seg>, fills: seq<Fill>)
    returns (mine: seq<Fill>, others: seq<Fill>)
    requires AllFit([Fixed(t)] + v + rest, fills)
    ensures AllFit(v, mine) && AllFit(rest, others) && FillsText(fills) == t + FillsText(mine) + FillsText(others)
    ensures AllCanonical(fills) <==> AllCanonical(mine) && AllCanonical(others)
  {
    hide AllFit, AllCanonical, FillsText;
    var a := [Fixed(t)] + v;
    FitLength(a + rest, fills);
    SplitFit(a, rest, fills);
    SplitFit([Fixed(t)], v, fills[..|a|]);
    OneFixed(t, fills[..|a|][..1]);
    mine, others := fills[..|a|][1..], fills[|a|..];
  }

  // ---------------------------------------------------------------- canonical fills make a document

  lemma ScalarDoc(sch: Json, depth: nat, fills: seq<Fill>) returns (d: Doc)
    requires CompileValue(sch, depth).Some? && StrOf(sch, TYPE) != Some(OBJECT)
    requires AllFit(CompileValue(sch, depth).value, fills) && AllCanonical(fills)
    ensures ValidDoc(d) && DocText(d) == FillsText(fills) && Conforms(sch, d.val)
  {
    hide StrOf;
    var kind := ScalarKind(StrOf(sch, TYPE));
    if kind == KStr {
      var f := fills[1];
      assert fills == [FFixed([QUOTE])] + [f];
      FillsConcat([FFixed([QUOTE])], [f]);
      FillsOne(FFixed([QUOTE]));
      FillsOne(f);
      d := Doc([], Str(f.chars), []);
      Assoc([QUOTE], CharsText(f.chars), [QUOTE]);
    } else {
      var f := fills[0];
      assert fills == [f];
      FillsOne(f);
      d := HoleDoc(kind, f);
    }
  }

  lemma HoleDoc(kind: ValKind, f: Fill) returns (d: Doc)
    requires kind != KStr && Fits(Hole(kind), f) && Canonical(f)
    ensures ValidDoc(d) && DocText(d) == FillText(f)
    ensures match kind
            case KInt => d.val.Num? && d.val.num.frac == [] && d.val.num.exp == []
            case KNum => d.val.Num?
            case KBool => d.val == Lit(TrueWord) || d.val == Lit(FalseWord)
            case KStr => true
            case KAny => true
  {
    match f
    case FInt(neg, ds) => d := Doc([], Num(Number(neg, ds, [], [])), []);
    case FNum(k, n) =>
      d := Doc([], Num(n.(neg := k == 1)), []);
      assert Minuses(0) == [] && Minuses(1) == [MINUS];
      SignedText(n, k == 1);
    case FBool(w) => d := Doc([], Lit(w), []);
    case FAny(doc) => d := doc;
  }

  lemma SignedText(n: Number, neg: bool)
    requires !n.neg
    ensures NumberText(n.(neg := neg)) == SignText(neg) + NumberText(n)
  {
    Assoc(SignText(neg), n.whole, n.frac);
    Assoc(SignText(neg), n.whole + n.frac, n.exp);
    assert [] + n.whole == n.whole;
  }

  function MemberOf(i: nat, key: seq<Byte>, d: Doc): Item {
    Item(Key(if i == 0 then [] else [SPACE], A.CharsOf(key), []), [SPACE] + d.pre, d.val, d.post)
  }

  lemma MemberText(i: nat, key: seq<Byte>, d: Doc)
    requires ValidDoc(d)
    ensures ValidItem(true, MemberOf(i, key, d)) && Named(key, MemberOf(i, key, d))
    ensures Lead(i, key) + DocText(d) == JsonPrinter.Comma(i) + ItemText(MemberOf(i, key, d))
  {
    hide A.CharsOf, CharsText, ValidChars, CharsMeaning, Text, Valid, JsonPrinter.EscapeBytes;
    A.CharsOfBytes(key);
    CharsAreLoose(A.CharsOf(key));
    ValidIsLoose(d.val);
    var ws := if i == 0 then [] else [SPACE];
    var s := StringText(A.CharsOf(key));
    assert Lead(i, key) == JsonPrinter.Comma(i) + ws + s + [COLON] + [SPACE];
    Regroup(JsonPrinter.Comma(i), ws, s, [COLON], [SPACE], d.pre, Text(d.val), d.post);
  }

  lemma Regroup(c: seq<Byte>, w: seq<Byte>, s: seq<Byte>, n: seq<Byte>, p: seq<Byte>,
                d: seq<Byte>, t: seq<Byte>, z: seq<Byte>)
    ensures c + w + s + n + p + (d + t + z) == c + ((w + s + [] + n) + (p + d) + t + z)
  {
  }

  /** The items of an object's properties from index `i` on. */
  ghost predicate ItemsOf(keys: seq<Member>, i: nat, items: seq<Item>, text: seq<Byte>) {
    && i <= |keys| && |items| == |keys| - i && ValidItems(true, items)
    && text == (if items == [] then [] else JsonPrinter.Comma(i) + BodyText(items))
    && forall k :: 0 <= k < |items| ==> Named(keys[i + k].key, items[k]) && Conforms(keys[i + k].val, items[k].val)
  }

  lemma ItemsGrow(keys: seq<Member>, i: nat, it: Item, rest: seq<Item>, text: seq<Byte>)
    requires i < |keys| && ItemsOf(keys, i + 1, rest, text) && ValidItem(true, it)
    requires Named(keys[i].key, it) && Conforms(keys[i].val, it.val)
    ensures ItemsOf(keys, i, [it] + rest, JsonPrinter.Comma(i) + ItemText(it) + text)
  {
    hide ItemText, ValidItem, BodyText, Conforms, Named;
    ItemIsLoose(true, it);
    var items := [it] + rest;
    assert items[1..] == rest;
    BodyFront(items);
    if rest == [] {
      assert JsonPrinter.Comma(i) + ItemText(it) + [] == JsonPrinter.Comma(i) + ItemText(it);
    } else {
      Assoc(JsonPrinter.Comma(i), ItemText(it), [COMMA] + BodyText(rest));
      Assoc(ItemText(it), [COMMA], BodyText(rest));
    }
    forall k | 0 <= k < |items| ensures Named(keys[i + k].key, items[k]) && Conforms(keys[i + k].val, items[k].val) {
      if k > 0 { assert items[k] == rest[k - 1] && keys[i + k] == keys[i + 1 + (k - 1)]; }
    }
  }

  lemma {:induction false} MembersDoc(keys: seq<Member>, i: nat, depth: nat, fills: seq<Fill>)
    returns (items: seq<Item>)
    requires i <= |keys| && depth <= MAX_SCHEMA_DEPTH && CompileMembers(keys, i, depth).Some?
    requires AllFit(CompileMembers(keys, i, depth).value, fills) && AllCanonical(fills)
    ensures ItemsOf(keys, i, items, FillsText(fills))
    decreases MAX_SCHEMA_DEPTH - depth, 1, |keys| - i
  {
    hide CompileValue, Fits, FillText, Canonical, Lead, ItemText, Conforms, Named, ValidItem, DocText, AllCanonical;
    if i == |keys| {
      items := [];
    } else {
      var v := CompileValue(keys[i].val, depth + 1).value;
      var mine, others := SplitMember(Lead(i, keys[i].key), v, CompileMembers(keys, i + 1, depth).value, fills);
      var d := SchemaDoc(keys[i].val, depth + 1, mine);
      var rest := MembersDoc(keys, i + 1, depth, others);
      var it := MemberOf(i, keys[i].key, d);
      MemberText(i, keys[i].key, d);
      ItemsGrow(keys, i, it, rest, FillsText(others));
      items := [it] + rest;
    }
  }

  lemma {:induction false} SchemaDoc(sch: Json, depth: nat, fills: seq<Fill>) returns (d: Doc)
    requires CompileValue(sch, depth).Some?
    requires AllFit(CompileValue(sch, depth).value, fills) && AllCanonical(fills)
    ensures ValidDoc(d) && DocText(d) == FillsText(fills) && Conforms(sch, d.val)
    decreases MAX_SCHEMA_DEPTH + 1 - depth, 0, 0
  {
    hide StrOf, Selected, CompileMembers, AllFit, AllCanonical, FillsText, ScalarKind;
    if StrOf(sch, TYPE) == Some(OBJECT) {
      var inner := SplitObject(CompileMembers(Selected(sch), 0, depth).value, fills);
      var items := MembersDoc(Selected(sch), 0, depth, inner);
      d := ObjectDoc(sch, items, FillsText(inner));
    } else {
      d := ScalarDoc(sch, depth, fills);
    }
  }

  lemma ObjectDoc(sch: Json, items: seq<Item>, text: seq<Byte>) returns (d: Doc)
    requires StrOf(sch, TYPE) == Some(OBJECT) && Selected(sch) != [] && ItemsOf(Selected(sch), 0, items, text)
    ensures ValidDoc(d) && DocText(d) == [LBRACE] + text + [RBRACE] && Conforms(sch, d.val)
  {
    hide StrOf, Selected, BodyText, Named;
    d := Doc([], Box(true, [], items), []);
    assert [] + BodyText(items) == BodyText(items);
    assert DocText(d) == Text(d.val);
  }

  // ---------------------------------------------------------------- other fills do not

  lemma BadScalarFails(sch: Json, depth: nat, fills: seq<Fill>, c: G.Conf)
    requires CompileValue(sch, depth).Some? && StrOf(sch, TYPE) != Some(OBJECT) && c.state.Value?
    requires AllFit(CompileValue(sch, depth).value, fills) && !AllCanonical(fills)
    ensures G.Run(Some(c), FillsText(fills)) == None
  {
    hide StrOf, G.Run, FillText;
    assert forall k :: 0 <= k < |fills| && fills[k].FFixed? ==> Canonical(fills[k]);
    assert forall k :: 0 <= k < |fills| && fills[k].FStr? ==> Canonical(fills[k]);
    var f := fills[0];
    assert fills == [f] && !Canonical(f);
    FillsOne(f);
    BadHoleFails(f, c);
  }

  lemma BadHoleFails(f: Fill, c: G.Conf)
    requires !Canonical(f) && (f.FInt? ==> Digits(f.digits)) && c.state.Value?
    ensures G.Run(Some(c), FillText(f)) == None
  {
    hide G.Run, NumberText, Digits;
    match f
    case FInt(neg, ds) => LeadingZeroFails(neg, ds, c);
    case FNum(k, n) => TwoMinusesFail(k, NumberText(n), c);
    case _ =>
  }

  lemma LeadingZeroFails(neg: bool, ds: seq<Byte>, c: G.Conf)
    requires Digits(ds) && !WholePart(ds) && c.state.Value?
    ensures G.Run(Some(c), SignText(neg) + ds) == None
  {
    var m := G.Conf(c.stack, if neg then G.InNum(G.Sign) else G.Value);
    var z := G.Conf(c.stack, G.InNum(G.IntZero));
    assert G.Run(Some(c), SignText(neg)) == Some(m);
    assert ds[0] == ZERO && |ds| > 1;
    RunTwo(m, ds, z);
    G.RunConcat(Some(c), SignText(neg), ds);
  }

  lemma TwoMinusesFail(k: nat, rest: seq<Byte>, c: G.Conf)
    requires k > 1 && c.state.Value?
    ensures G.Run(Some(c), Minuses(k) + rest) == None
  {
    var w := Minuses(k) + rest;
    assert w[0] == MINUS && w[1..][0] == MINUS;
    RunTwo(c, w, G.Conf(c.stack, G.InNum(G.Sign)));
  }

  lemma RunTwo(c: G.Conf, w: seq<Byte>, z: G.Conf)
    requires |w| > 1 && G.Step(c, w[0]) == Some(z) && G.Step(z, w[1..][0]) == None
    ensures G.Run(Some(c), w) == None
  {
    hide G.Step;
    assert G.Run(Some(c), w) == G.Run(Some(z), w[1..]);
    assert G.Run(Some(z), w[1..]) == G.Run(None, w[1..][1..]);
  }

  lemma RunNone(w: seq<Byte>)
    ensures G.Run(None, w) == None
  {
  }

  /** Before a property's scaffold: after the brace, or after the value before it. */
  predicate AtLead(c: G.Conf, stack: seq<Byte>, i: nat) {
    if i == 0 then P.AtItem(Some(c), stack, true, true) else P.Settled(Some(c), stack + [LBRACE])
  }

  lemma RunLead(c: G.Conf, stack: seq<Byte>, i: nat, key: seq<Byte>)
    requires AtLead(c, stack, i)
    ensures G.Run(Some(c), Lead(i, key)) == Some(G.Conf(stack + [LBRACE], G.Value))
  {
    hide A.CharsOf, CharsText, ValidChars, JsonPrinter.EscapeBytes, G.Run, StringText, HeadText;
    A.CharsOfBytes(key);
    var ws, cs := if i == 0 then [] else [SPACE], A.CharsOf(key);
    var h := Key(ws, cs, []);
    LeadParts(i, key);
    var inner := stack + [LBRACE];
    var before := if i == 0 then c else G.Conf(inner, G.ObjKeyStart);
    RunComma(c, inner, i);
    var d := P.RunHead(before, stack, true, i == 0, h);
    RunHeadEndsInValue(before, h);
    G.RunConcat(Some(c), JsonPrinter.Comma(i), HeadText(h));
    G.RunSnoc(Some(c), JsonPrinter.Comma(i) + HeadText(h), SPACE);
  }

  lemma RunComma(c: G.Conf, inner: seq<Byte>, i: nat)
    requires i > 0 ==> P.Settled(Some(c), inner) && inner != [] && inner[|inner| - 1] == LBRACE
    ensures G.Run(Some(c), JsonPrinter.Comma(i)) == Some(if i == 0 then c else G.Conf(inner, G.ObjKeyStart))
  {
    if i > 0 { P.SettledStep(c, inner, COMMA); }
  }

  lemma RunHeadEndsInValue(c: G.Conf, h: Head)
    requires h.Key? && G.Run(Some(c), HeadText(h)).Some?
    requires G.Run(Some(c), HeadText(h)).value.state.Value? || G.Run(Some(c), HeadText(h)).value.state.ArrValOrEnd?
    ensures G.Run(Some(c), HeadText(h)).value.state.Value?
  {
    hide G.Run;
    var u := h.lead + StringText(h.name) + h.gap;
    G.RunSnoc(Some(c), u, COLON);
  }

  lemma LeadParts(i: nat, key: seq<Byte>)
    ensures var h := Key(if i == 0 then [] else [SPACE], A.CharsOf(key), []);
            ValidHead(h) && Lead(i, key) == JsonPrinter.Comma(i) + HeadText(h) + [SPACE]
  {
    hide A.CharsOf, CharsText, ValidChars, JsonPrinter.EscapeBytes;
    A.CharsOfBytes(key);
    CharsAreLoose(A.CharsOf(key));
  }

  lemma {:induction false} BadMembersFail(keys: seq<Member>, i: nat, depth: nat, fills: seq<Fill>, c: G.Conf,
                                         stack: seq<Byte>)
    requires i <= |keys| && depth <= MAX_SCHEMA_DEPTH && CompileMembers(keys, i, depth).Some?
    requires AllFit(CompileMembers(keys, i, depth).value, fills) && !AllCanonical(fills)
    requires AtLead(c, stack, i)
    ensures G.Run(Some(c), FillsText(fills)) == None
    decreases MAX_SCHEMA_DEPTH - depth, 1, |keys| - i
  {
    hide CompileValue, Fits, FillText, Canonical, Lead, G.Run, FillsText, AllCanonical, DocText, Conforms, ValidDoc,
         AtLead, P.Settled;
    if i == |keys| {
      NoFills(fills);
    } else {
      var v := CompileValue(keys[i].val, depth + 1).value;
      var mine, others := SplitMember(Lead(i, keys[i].key), v, CompileMembers(keys, i + 1, depth).value, fills);
      var z := G.Conf(stack + [LBRACE], G.Value);
      RunLead(c, stack, i, keys[i].key);
      G.RunConcat(Some(c), Lead(i, keys[i].key), FillsText(mine));
      G.RunConcat(Some(c), Lead(i, keys[i].key) + FillsText(mine), FillsText(others));
      if AllCanonical(mine) {
        var d := SchemaDoc(keys[i].val, depth + 1, mine);
        RunDoc(z, d);
        SettledLead(G.Run(Some(z), FillsText(mine)), stack, i + 1);
        BadMembersFail(keys, i + 1, depth, others, G.Run(Some(z), FillsText(mine)).value, stack);
      } else {
        BadFillsFail(keys[i].val, depth + 1, mine, z);
        RunNone(FillsText(others));
      }
    }
  }

  lemma NoFills(fills: seq<Fill>)
    requires AllFit([], fills)
    ensures AllCanonical(fills)
  {
  }

  lemma SettledLead(c: Option<G.Conf>, stack: seq<Byte>, i: nat)
    requires P.Settled(c, stack + [LBRACE]) && i > 0
    ensures c.Some? && AtLead(c.value, stack, i)
  {
  }

  lemma RunDoc(c: G.Conf, d: Doc)
    requires ValidDoc(d) && c.state.Value?
    ensures P.Settled(G.Run(Some(c), DocText(d)), c.stack)
  {
    hide G.Run, Text, Valid;
    P.RunWs(c, d.pre);
    P.RunText(c, d.val);
    G.RunConcat(Some(c), d.pre, Text(d.val));
    G.RunConcat(Some(c), d.pre + Text(d.val), d.post);
    P.SettledWs(G.Run(Some(c), d.pre + Text(d.val)), c.stack, d.post);
  }

  lemma {:induction false} BadFillsFail(sch: Json, depth: nat, fills: seq<Fill>, c: G.Conf)
    requires CompileValue(sch, depth).Some? && c.state.Value?
    requires AllFit(CompileValue(sch, depth).value, fills) && !AllCanonical(fills)
    ensures G.Run(Some(c), FillsText(fills)) == None
    decreases MAX_SCHEMA_DEPTH + 1 - depth, 0, 0
  {
    hide StrOf, Selected, CompileMembers, AllFit, AllCanonical, FillsText, ScalarKind, G.Run;
    if StrOf(sch, TYPE) == Some(OBJECT) {
      var inner := SplitObject(CompileMembers(Selected(sch), 0, depth).value, fills);
      var z := G.Conf(c.stack + [LBRACE], G.ObjKeyOrEnd);
      RunBrace(c);
      assert AtLead(z, c.stack, 0);
      BadMembersFail(Selected(sch), 0, depth, inner, z, c.stack);
      G.RunConcat(Some(c), [LBRACE], FillsText(inner));
      G.RunConcat(Some(c), [LBRACE] + FillsText(inner), [RBRACE]);
      RunNone([RBRACE]);
    } else {
      BadScalarFails(sch, depth, fills, c);
    }
  }

  lemma RunBrace(c: G.Conf)
    requires c.state.Value?
    ensures G.Run(Some(c), [LBRACE]) == Some(G.Conf(c.stack + [LBRACE], G.ObjKeyOrEnd))
  {
  }

  // ---------------------------------------------------------------- the guarantee

  /** A text at which generation may stop fills the plan; it is a JSON text exactly when the
      fills are canonical, and then it conforms to the schema. */
  lemma SchemaGuarantee(sch: Json, w: seq<Byte>) returns (fills: seq<Fill>, d: Doc)
    requires CompileSchema(sch).Some?
    requires var plan := CompileSchema(sch).value;
             var p := S.Run(plan, Some(S.Enter(plan, 0)), w);
             p.Some? && S.Complete(plan, p.value)
    ensures AllFit(CompileSchema(sch).value, fills) && FillsText(fills) == w
    ensures IsJsonText(w) <==> AllCanonical(fills)
    ensures AllCanonical(fills) ==> ValidDoc(d) && DocText(d) == w && Conforms(sch, d.val)
  {
    hide S.Run, S.Enter, S.Complete, CompileValue, Merge, AllFit, FillsText, AllCanonical, Conforms, G.Run, Alternates;
    var plan := CompileSchema(sch).value;
    assert NoEmptyText(plan) by { PlanText(sch); }
    fills := CompleteIsFilled(plan, w);
    var apart := Unmerge(CompileValue(sch, 0).value, fills);
    d := Doc([], Lit(NullWord), []);
    if AllCanonical(fills) {
      d := SchemaDoc(sch, 0, apart);
      assert IsJsonText(w);
    } else {
      BadFillsFail(sch, 0, apart, G.START);
      P.CompleteExactlyTexts(w);
    }
  }

  lemma PlanText(sch: Json)
    requires CompileSchema(sch).Some?
    ensures NoEmptyText(CompileSchema(sch).value)
  {
    PlansAlternate(sch);
  }

  // ---------------------------------------------------------------- texts that are no JSON

  /** A schema that only names a type. */
  function TypeSchema(t: seq<Byte>): Json { JObj([Member(TYPE, JStr(t))]) }

  lemma ScalarPlan(t: seq<Byte>)
    requires t == INTEGER || t == NUMBER
    ensures CompileSchema(TypeSchema(t)) == Some([Hole(if t == INTEGER then KInt else KNum)])
  {
    var sch := TypeSchema(t);
    assert StrOf(sch, TYPE) == Some(t);
    OneHole(if t == INTEGER then KInt else KNum);
  }

  lemma OneHole(k: ValKind)
    ensures Merge([Hole(k)]) == [Hole(k)]
  {
    assert [Hole(k)][..0] == [] && Merge([]) == [];
  }

  lemma {:induction false} DigitsCount(neg: bool, n: nat, s: seq<Byte>)
    requires AllDigits(s) && n + |s| <= S.MAX_DIGITS
    ensures S.Run([Hole(KInt)], Some(S.Pos(0, 0, Some(S.VInt(neg, n)))), s)
            == Some(S.Pos(0, 0, Some(S.VInt(neg, n + |s|))))
    decreases |s|
  {
    if s != [] {
      assert S.Step([Hole(KInt)], S.Pos(0, 0, Some(S.VInt(neg, n))), s[0])
          == Some(S.Pos(0, 0, Some(S.VInt(neg, n + 1))));
      DigitsCount(neg, n + 1, s[1..]);
    }
  }

  lemma ZeroThenDigit(s: seq<Byte>)
    requires |s| >= 2 && s[0] == ZERO && IsDigit(s[1])
    ensures G.Run(Some(G.START), s) == None && !IsJsonText(s)
  {
    assert G.Step(G.START, s[0]) == Some(G.Conf([], G.InNum(G.IntZero)));
    assert s[1..][0] == s[1] && G.Step(G.Conf([], G.InNum(G.IntZero)), s[1]) == None;
    assert G.Run(None, s[1..][1..]) == None;
    assert G.Run(Some(G.Conf([], G.InNum(G.IntZero))), s[1..]) == None;
    P.CompleteExactlyTexts(s);
  }

  /** For an integer schema every text of two to nineteen digits with a leading zero is accepted as
      complete, and none is a JSON text. */
  lemma LeadingZeros(s: seq<Byte>)
    requires 2 <= |s| <= S.MAX_DIGITS && AllDigits(s) && s[0] == ZERO
    ensures CompileSchema(TypeSchema(INTEGER)) == Some([Hole(KInt)])
    ensures var p := S.Run([Hole(KInt)], Some(S.Enter([Hole(KInt)], 0)), s);
            p.Some? && S.Complete([Hole(KInt)], p.value)
    ensures !IsJsonText(s)
  {
    hide S.Run, S.Step, CompileSchema, G.Run, IsJsonText;
    ScalarPlan(INTEGER);
    DigitsCount(false, 0, s);
    ZeroThenDigit(s);
  }

  function Minuses(k: nat): seq<Byte> { seq(k, _ => MINUS) }

  lemma {:induction false} MinusesCount(n: nat, k: nat)
    requires n + k <= S.MAX_NUMBER
    ensures S.Run([Hole(KNum)], Some(S.Pos(0, 0, Some(S.VNum(G.Sign, n)))), Minuses(k))
            == Some(S.Pos(0, 0, Some(S.VNum(G.Sign, n + k))))
    decreases k
  {
    if k > 0 {
      assert Minuses(k)[1..] == Minuses(k - 1);
      assert S.Step([Hole(KNum)], S.Pos(0, 0, Some(S.VNum(G.Sign, n))), MINUS)
          == Some(S.Pos(0, 0, Some(S.VNum(G.Sign, n + 1))));
      MinusesCount(n + 1, k - 1);
    }
  }

  lemma TwoMinuses(s: seq<Byte>)
    requires |s| >= 2 && s[0] == s[1] == MINUS
    ensures G.Run(Some(G.START), s) == None && !IsJsonText(s)
  {
    assert G.Step(G.START, s[0]) == Some(G.Conf([], G.InNum(G.Sign)));
    assert s[1..][0] == s[1] && G.Step(G.Conf([], G.InNum(G.Sign)), s[1]) == None;
    assert G.Run(None, s[1..][1..]) == None;
    assert G.Run(Some(G.Conf([], G.InNum(G.Sign))), s[1..]) == None;
    P.CompleteExactlyTexts(s);
  }

  /** For a number schema every digit after two to thirty-nine minus signs is accepted as complete, and
      none of these texts is a JSON text. */
  lemma ManyMinuses(k: nat, d: Byte)
    requires 2 <= k < S.MAX_NUMBER && IsDigit(d)
    ensures CompileSchema(TypeSchema(NUMBER)) == Some([Hole(KNum)])
    ensures var p := S.Run([Hole(KNum)], Some(S.Enter([Hole(KNum)], 0)), Minuses(k) + [d]);
            p.Some? && S.Complete([Hole(KNum)], p.value)
    ensures !IsJsonText(Minuses(k) + [d])
  {
    hide S.Run, CompileSchema, G.Run, IsJsonText;
    ScalarPlan(NUMBER);
    MinusesCount(0, k);
    S.RunSnoc([Hole(KNum)], Some(S.Enter([Hole(KNum)], 0)), Minuses(k), d);
    TwoMinuses(Minuses(k) + [d]);
  }
}
