/** What the schema guard accepts, segment by segment: every accepted byte string is the plan
    with each hole filled by a text of its kind. */
module SchemaFill {
  import opened Bytes
  import opened JsonGrammar
  import G = JsonGuard
  import JsonPrefix
  import opened SchemaPlan
  import opened SchemaGuard

  /** The text that fills one segment. */
  datatype Fill =
    | FFixed(text: seq<Byte>)
    | FInt(neg: bool, digits: seq<Byte>)
    | FNum(minuses: nat, num: Number)
    | FBool(word: Word)
    | FStr(chars: seq<Char>)
    | FAny(doc: Doc)

  function Minuses(k: nat): seq<Byte> { seq(k, _ => MINUS) }

  function FillText(f: Fill): seq<Byte> {
    match f
    case FFixed(t) => t
    case FInt(neg, ds) => SignText(neg) + ds
    case FNum(k, n) => Minuses(k) + NumberText(n)
    case FBool(w) => WordText(w)
    case FStr(cs) => CharsText(cs) + [QUOTE]
    case FAny(d) => DocText(d)
  }

  /** A fill of the right sort. Integers may have leading zeros and numbers several minuses:
      the guard lets them through. */
  predicate Fits(s: Seg, f: Fill) {
    match f
    case FFixed(t) => s == Fixed(t)
    case FInt(_, ds) => s == Hole(KInt) && Digits(ds)
    case FNum(_, n) => s == Hole(KNum) && ValidNumber(n) && !n.neg
    case FBool(w) => s == Hole(KBool) && w != NullWord
    case FStr(cs) => s == Hole(KStr) && ValidChars(cs)
    case FAny(d) => s == Hole(KAny) && ValidDoc(d)
  }

  /** What the guard lets a hole hold at most: nineteen digits, forty bytes of a number, 4097 characters
      of a string, and after a free-form value nothing, or one whitespace byte to end a number. */
  predicate Within(f: Fill) {
    match f
    case FInt(_, ds) => |ds| <= 19
    case FNum(k, n) => k + |NumberText(n)| <= 40
    case FStr(cs) => |cs| <= 4097
    case FAny(d) => |d.post| <= if d.val.Num? then 1 else 0
    case _ => true
  }

  predicate AllWithin(fills: seq<Fill>) { forall k :: 0 <= k < |fills| ==> Within(fills[k]) }

  predicate AllFit(segs: seq<Seg>, fills: seq<Fill>) {
    |segs| == |fills| && forall k :: 0 <= k < |segs| ==> Fits(segs[k], fills[k])
  }

  function FillsText(fills: seq<Fill>): seq<Byte>
    decreases |fills|
  {
    if fills == [] then [] else FillsText(fills[..|fills| - 1]) + FillText(fills[|fills| - 1])
  }

  // ---------------------------------------------------------------- one hole

  /** What has been read of a hole, against its automaton state. */
  ghost predicate Partly(k: ValKind, v: ValState, cur: seq<Byte>) {
    match k
    case KInt => v.VInt? && exists ds :: IntPartly(v, ds, cur)
    case KNum => v.VNum? && v.len == |cur| <= 40 && exists m: nat, n :: NumPartly(v.st, m, n, cur)
    case KBool => v.VBool? && ((v == VBool([], 0) && cur == []) || exists w :: WordPartly(v, w, cur))
    case KStr => v.VStr? && exists cs, pend :: StrPartly(v, cs, pend, cur)
    case KAny => v.VAny? && G.Run(Some(G.START), cur) == Some(v.conf) && !v.conf.state.End?
  }

  predicate IntPartly(v: ValState, ds: seq<Byte>, cur: seq<Byte>)
    requires v.VInt?
  {
    cur == SignText(v.neg) + ds && |ds| == v.digits <= 19 && AllDigits(ds)
  }

  predicate NumPartly(st: G.NumS, m: nat, n: Number, cur: seq<Byte>) {
    if st.Sign? then cur == Minuses(m)
    else cur == Minuses(m) + NumberText(n) && !n.neg && JsonPrefix.NumeralOk(st, n)
  }

  predicate WordPartly(v: ValState, w: Word, cur: seq<Byte>)
    requires v.VBool?
  {
    w != NullWord && v.i + 1 < |WordText(w)| && v.pat == WordText(w)[1..] && cur == WordText(w)[..v.i + 1]
  }

  predicate StrPartly(v: ValState, cs: seq<Char>, pend: seq<Byte>, cur: seq<Byte>)
    requires v.VStr?
  {
    && ValidChars(cs) && JsonPrefix.PendOk(pend) && cur == CharsText(cs) + pend
    && JsonPrefix.PendState(false, pend) == G.InStr(false, v.esc, v.uni)
    && v.len == |cs| + JsonPrefix.Begun(pend) <= 4097
  }

  lemma StartsPartly(k: ValKind)
    ensures Partly(k, Start(k), [])
  {
    match k
    case KInt => assert IntPartly(Start(k), [], []);
    case KNum => assert NumPartly(G.Sign, 0, Number(false, [], [], []), []);
    case KBool =>
    case KStr => assert StrPartly(Start(k), [], [], []);
    case KAny =>
  }

  lemma IntGrows(v: ValState, cur: seq<Byte>, b: Byte)
    requires v.VInt? && Partly(KInt, v, cur) && HoleStep(v, b).More?
    ensures Partly(KInt, HoleStep(v, b).v, cur + [b])
  {
    var ds :| IntPartly(v, ds, cur);
    var v' := HoleStep(v, b).v;
    var ds' := if v'.neg == v.neg then ds + [b] else ds;
    assert IntPartly(v', ds', cur + [b]);
  }

  lemma MinusesGrow(m: nat)
    ensures Minuses(m) + [MINUS] == Minuses(m + 1)
  {
  }

  lemma NumGrows(v: ValState, cur: seq<Byte>, b: Byte)
    requires v.VNum? && Partly(KNum, v, cur) && HoleStep(v, b).More?
    ensures Partly(KNum, HoleStep(v, b).v, cur + [b])
  {
    var m: nat, n :| NumPartly(v.st, m, n, cur);
    var next := NumNext(v.st, b).value;
    if v.st.Sign? && b == MINUS {
      MinusesGrow(m);
      assert NumPartly(next, m + 1, n, cur + [b]);
    } else if v.st.Sign? {
      var n' := Number(false, [b], [], []);
      assert NumberText(n') == [b];
      assert NumPartly(next, m, n', cur + [b]);
    } else {
      JsonPrefix.GrowNumberOk(v.st, n, b);
      JsonPrefix.GrowNumberText(v.st, n, b);
      var n' := JsonPrefix.GrowNumber(n, next, b);
      assert Minuses(m) + (NumberText(n) + [b]) == Minuses(m) + NumberText(n) + [b];
      assert NumPartly(next, m, n', cur + [b]);
    }
  }

  lemma BoolGrows(v: ValState, cur: seq<Byte>, b: Byte)
    requires v.VBool? && Partly(KBool, v, cur) && HoleStep(v, b).More?
    ensures Partly(KBool, HoleStep(v, b).v, cur + [b])
  {
    var v' := HoleStep(v, b).v;
    if v.pat == [] {
      assert WordPartly(v', if b == 0x74 then TrueWord else FalseWord, cur + [b]);
    } else {
      var w :| WordPartly(v, w, cur);
      JsonPrefix.LiteralText(w, v.i);
      assert WordPartly(v', w, cur + [b]);
    }
  }

  lemma StrGrows(v: ValState, cur: seq<Byte>, b: Byte)
    requires v.VStr? && Partly(KStr, v, cur) && HoleStep(v, b).More?
    ensures Partly(KStr, HoleStep(v, b).v, cur + [b])
  {
    var cs, pend :| StrPartly(v, cs, pend, cur);
    var cs', pend' := JsonPrefix.GrowChars(cs, pend, false, [], b);
    assert StrPartly(HoleStep(v, b).v, cs', pend', cur + [b]);
  }

  lemma AnyGrows(v: ValState, cur: seq<Byte>, b: Byte)
    requires v.VAny? && Partly(KAny, v, cur) && HoleStep(v, b).More?
    ensures Partly(KAny, HoleStep(v, b).v, cur + [b])
  {
    G.RunSnoc(Some(G.START), cur, b);
  }

  lemma HoleGrows(k: ValKind, v: ValState, cur: seq<Byte>, b: Byte)
    requires Partly(k, v, cur) && HoleStep(v, b).More?
    ensures Partly(k, HoleStep(v, b).v, cur + [b])
  {
    hide HoleStep;
    match k
    case KInt => IntGrows(v, cur, b);
    case KNum => NumGrows(v, cur, b);
    case KBool => BoolGrows(v, cur, b);
    case KStr => StrGrows(v, cur, b);
    case KAny => AnyGrows(v, cur, b);
  }

  /** A hole that may end where it stands holds a fill of its kind. */
  lemma EndableFits(k: ValKind, v: ValState, cur: seq<Byte>) returns (f: Fill)
    requires Partly(k, v, cur) && Endable(v)
    ensures Fits(Hole(k), f) && Within(f) && FillText(f) == cur
  {
    match k
    case KInt =>
      var ds :| IntPartly(v, ds, cur);
      f := FInt(v.neg, ds);
    case KNum =>
      var m: nat, n :| NumPartly(v.st, m, n, cur);
      f := FNum(m, n);
    case KAny => f := AnyUpTo(cur);
  }

  /** A free-form value that is complete but not ended. */
  lemma AnyUpTo(cur: seq<Byte>) returns (f: Fill)
    requires G.Run(Some(G.START), cur).Some? && G.CompleteConf(G.Run(Some(G.START), cur).value)
    requires !G.Run(Some(G.START), cur).value.state.End?
    ensures Fits(Hole(KAny), f) && Within(f) && FillText(f) == cur
  {
    hide G.Run, DocText, ValidDoc;
    JsonPrefix.CompleteIsText(cur);
    var d :| ValidDoc(d) && DocText(d) == cur;
    JsonPrefix.NotYetEnded(d);
    f := FAny(d);
  }

  lemma LastOff(d: Doc, cur: seq<Byte>, b: Byte) returns (e: Doc)
    requires ValidDoc(d) && DocText(d) == cur + [b] && d.post != []
    ensures ValidDoc(e) && e.val == d.val && |e.post| + 1 == |d.post| && DocText(e) == cur
  {
    hide Text, Valid;
    e := d.(post := d.post[..|d.post| - 1]);
    assert d.post == e.post + [d.post[|d.post| - 1]];
    assert DocText(e) == DocText(d)[..|DocText(d)| - 1] == cur;
  }

  /** A free-form value that the byte `b` ends. */
  lemma AnyEndedBy(cur: seq<Byte>, b: Byte) returns (f: Fill)
    requires G.Run(Some(G.START), cur).Some? && !G.Run(Some(G.START), cur).value.state.End?
    requires G.Run(Some(G.START), cur + [b]).Some? && G.Run(Some(G.START), cur + [b]).value.state.End?
    ensures Fits(Hole(KAny), f) && Within(f) && FillText(f) == cur + [b]
  {
    hide G.Run, DocText, ValidDoc;
    JsonPrefix.CompleteIsText(cur + [b]);
    var d :| ValidDoc(d) && DocText(d) == cur + [b];
    if d.post != [] {
      var e := LastOff(d, cur, b);
      JsonPrefix.NotYetEnded(e);
    }
    f := FAny(d);
  }

  lemma BoolEnds(v: ValState, cur: seq<Byte>, b: Byte) returns (f: Fill)
    requires v.VBool? && Partly(KBool, v, cur) && HoleStep(v, b).EndsHere?
    ensures Fits(Hole(KBool), f) && Within(f) && FillText(f) == cur + [b]
  {
    var w :| WordPartly(v, w, cur);
    JsonPrefix.LiteralText(w, v.i);
    assert WordText(w)[..v.i + 2] == WordText(w);
    f := FBool(w);
  }

  lemma StrEnds(v: ValState, cur: seq<Byte>, b: Byte) returns (f: Fill)
    requires v.VStr? && Partly(KStr, v, cur) && HoleStep(v, b).EndsHere?
    ensures Fits(Hole(KStr), f) && Within(f) && FillText(f) == cur + [b]
  {
    hide CharsText, ValidChars;
    var cs, pend :| StrPartly(v, cs, pend, cur);
    f := FStr(cs);
  }

  lemma EndsHereFits(k: ValKind, v: ValState, cur: seq<Byte>, b: Byte) returns (f: Fill)
    requires Partly(k, v, cur) && HoleStep(v, b).EndsHere?
    ensures Fits(Hole(k), f) && Within(f) && FillText(f) == cur + [b]
  {
    hide CharsText, ValidChars, WordText, ValidDoc, DocText, ValidNumber, NumberText, G.Run;
    match k
    case KBool => f := BoolEnds(v, cur, b);
    case KStr => f := StrEnds(v, cur, b);
    case KAny =>
      G.RunSnoc(Some(G.START), cur, b);
      f := AnyEndedBy(cur, b);
  }

  // ---------------------------------------------------------------- the whole plan

  /** `w` is the filled segments before the position, then what has been read of its segment. */
  ghost predicate Reached(plan: seq<Seg>, p: Pos, fills: seq<Fill>, cur: seq<Byte>, w: seq<Byte>) {
    && p.seg <= |plan| && AllFit(plan[..p.seg], fills) && AllWithin(fills) && w == FillsText(fills) + cur
    && (p.seg == |plan| ==> cur == [])
    && (p.seg < |plan| ==> match plan[p.seg]
        case Fixed(t) => p.val.None? && p.fix < |t| && cur == t[..p.fix]
        case Hole(k) => p.val.Some? && Partly(k, p.val.value, cur))
  }

  lemma FillsSnoc(fills: seq<Fill>, f: Fill)
    ensures FillsText(fills + [f]) == FillsText(fills) + FillText(f)
  {
    assert (fills + [f])[..|fills|] == fills;
  }

  lemma EnterReached(plan: seq<Seg>, p: Pos, fills: seq<Fill>, f: Fill)
    requires NoEmptyText(plan) && p.seg < |plan| && AllFit(plan[..p.seg], fills) && Fits(plan[p.seg], f)
    requires AllWithin(fills) && Within(f)
    ensures Reached(plan, Enter(plan, p.seg + 1), fills + [f], [], FillsText(fills) + FillText(f))
  {
    hide Fits, FillText, Partly, Within;
    FillsSnoc(fills, f);
    assert FillsText(fills) + FillText(f) + [] == FillsText(fills) + FillText(f);
    var q := Enter(plan, p.seg + 1);
    assert plan[..p.seg + 1] == plan[..p.seg] + [plan[p.seg]];
    if q.seg < |plan| && plan[q.seg].Hole? { StartsPartly(plan[q.seg].kind); }
  }

  lemma {:induction false} StepReached(plan: seq<Seg>, p: Pos, fills: seq<Fill>, cur: seq<Byte>, w: seq<Byte>, b: Byte)
    returns (fills': seq<Fill>, cur': seq<Byte>)
    requires NoEmptyText(plan) && Reached(plan, p, fills, cur, w) && Step(plan, p, b).Some?
    ensures Reached(plan, Step(plan, p, b).value, fills', cur', w + [b])
    decreases |plan| - p.seg
  {
    hide HoleStep, Partly, Fits, Within, FillText, FillsText, AllFit, AllWithin;
    assert FillsText(fills) + (cur + [b]) == w + [b];
    match plan[p.seg]
    case Fixed(t) =>
      assert t[..p.fix + 1] == cur + [b];
      if p.fix + 1 == |t| {
        FixedFits(t);
        assert t[..|t|] == t;
        EnterReached(plan, p, fills, FFixed(t));
        fills', cur' := fills + [FFixed(t)], [];
      } else {
        fills', cur' := fills, cur + [b];
      }
    case Hole(k) =>
      var v := p.val.value;
      match HoleStep(v, b)
      case More(_) =>
        HoleGrows(k, v, cur, b);
        fills', cur' := fills, cur + [b];
      case EndsHere =>
        var f := EndsHereFits(k, v, cur, b);
        EnterReached(plan, p, fills, f);
        fills', cur' := fills + [f], [];
      case EndsBefore =>
        EndsBeforeEndable(v, b);
        var f := EndableFits(k, v, cur);
        EnterReached(plan, p, fills, f);
        fills', cur' := StepReached(plan, Enter(plan, p.seg + 1), fills + [f], [], w, b);
  }

  lemma FixedFits(t: seq<Byte>)
    ensures Fits(Fixed(t), FFixed(t)) && Within(FFixed(t)) && FillText(FFixed(t)) == t
  {
  }

  lemma EndsBeforeEndable(v: ValState, b: Byte)
    requires HoleStep(v, b).EndsBefore?
    ensures Endable(v)
  {
  }

  lemma {:induction false} RunReached(plan: seq<Seg>, w: seq<Byte>) returns (fills: seq<Fill>, cur: seq<Byte>)
    requires NoEmptyText(plan) && Run(plan, Some(Enter(plan, 0)), w).Some?
    ensures Reached(plan, Run(plan, Some(Enter(plan, 0)), w).value, fills, cur, w)
    decreases |w|
  {
    hide Partly, Step;
    if w == [] {
      fills, cur := [], [];
      if plan != [] && plan[0].Hole? { StartsPartly(plan[0].kind); }
    } else {
      var u, b := w[..|w| - 1], w[|w| - 1];
      assert w == u + [b];
      RunSnoc(plan, Some(Enter(plan, 0)), u, b);
      var f, c := RunReached(plan, u);
      fills, cur := StepReached(plan, Run(plan, Some(Enter(plan, 0)), u).value, f, c, u, b);
    }
  }

  /** Where generation may stop, the text is the plan with every hole filled. */
  lemma CompleteIsFilled(plan: seq<Seg>, w: seq<Byte>) returns (fills: seq<Fill>)
    requires NoEmptyText(plan) && Run(plan, Some(Enter(plan, 0)), w).Some?
    requires Complete(plan, Run(plan, Some(Enter(plan, 0)), w).value)
    ensures AllFit(plan, fills) && AllWithin(fills) && FillsText(fills) == w
  {
    hide Partly, Fits, Within, FillText, Endable, Run, Enter;
    var p := Run(plan, Some(Enter(plan, 0)), w).value;
    var fs, cur := RunReached(plan, w);
    if Finished(plan, p) {
      assert FillsText(fs) + [] == FillsText(fs) && plan[..|plan|] == plan;
      fills := fs;
    } else {
      var f := EndableFits(plan[p.seg].kind, p.val.value, cur);
      fills := fs + [f];
      FillsSnoc(fs, f);
      assert plan == plan[..p.seg] + [plan[p.seg]];
    }
  }
}
