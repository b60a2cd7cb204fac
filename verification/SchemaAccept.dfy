/** Which texts the schema guard takes to a finish: exactly the fillings of the plan that keep within
    its limits. Nothing the plan allows is refused. */
module SchemaAccept {
  import opened Bytes
  import opened JsonGrammar
  import G = JsonGuard
  import P = JsonPrefix
  import opened JsonParser
  import opened SchemaPlan
  import opened SchemaGuard
  import opened SchemaFill
  import opened SchemaCompletion
  import SchemaText

  // ---------------------------------------------------------------- running through one hole

  lemma {:induction false} HoleRunConcat(v: ValState, a: seq<Byte>, b: seq<Byte>)
    requires HoleRun(v, a).More?
    ensures HoleRun(v, a + b) == HoleRun(HoleRun(v, a).v, b)
    decreases |a|
  {
    hide HoleStep;
    if a == [] {
      assert a + b == b;
    } else {
      assert (a + b)[0] == a[0] && (a + b)[1..] == a[1..] + b;
      HoleRunConcat(HoleStep(v, a[0]).v, a[1..], b);
    }
  }

  lemma {:induction false} AcceptsDigits(neg: bool, n: nat, ds: seq<Byte>)
    requires AllDigits(ds) && n + |ds| <= 19
    ensures HoleRun(VInt(neg, n), ds) == More(VInt(neg, n + |ds|))
    decreases |ds|
  {
    if ds != [] { AcceptsDigits(neg, n + 1, ds[1..]); }
  }

  lemma AcceptsInt(neg: bool, ds: seq<Byte>)
    requires Digits(ds) && |ds| <= 19
    ensures HoleRun(Start(KInt), SignText(neg) + ds) == More(VInt(neg, |ds|))
  {
    AcceptsDigits(neg, 0, ds);
    if neg {
      assert (SignText(neg) + ds)[1..] == ds;
    } else {
      assert SignText(neg) + ds == ds;
    }
  }

  lemma {:induction false} AcceptsMinuses(n: nat, k: nat)
    requires n + k <= 40
    ensures HoleRun(VNum(G.Sign, n), Minuses(k)) == More(VNum(G.Sign, n + k))
    decreases k
  {
    if k > 0 {
      assert Minuses(k)[1..] == Minuses(k - 1);
      AcceptsMinuses(n + 1, k - 1);
    }
  }

  /** Inside a number the hole follows the JSON guard. */
  lemma {:induction false} AcceptsTail(st: G.NumS, n: nat, u: seq<Byte>, end: G.NumS)
    requires n + |u| <= 40 && !st.Sign?
    requires G.Run(Some(G.Conf([], G.InNum(st))), u) == Some(G.Conf([], G.InNum(end)))
    ensures HoleRun(VNum(st, n), u) == More(VNum(end, n + |u|))
    decreases |u|
  {
    if u != [] {
      var next := G.NumNext(st, u[0]);
      if next.None? {
        var c := G.Step(G.Conf([], G.InNum(st)), u[0]);
        assert c.Some? ==> c == Some(G.Conf([], G.End));
        if c.Some? { P.EndStays(c.value, u[1..]); }
        assert false;
      }
      AcceptsTail(next.value, n + 1, u[1..], end);
    }
  }

  lemma FirstDigit(n: nat, b: Byte)
    requires IsDigit(b) && n < 40
    ensures var st := if b == ZERO then G.IntZero else G.Int;
            && HoleStep(VNum(G.Sign, n), b) == More(VNum(st, n + 1))
            && G.Step(G.START, b) == Some(G.Conf([], G.InNum(st)))
  {
  }

  lemma NumeralStarts(n: Number)
    requires ValidNumber(n) && !n.neg
    ensures NumberText(n) != [] && IsDigit(NumberText(n)[0])
  {
    assert NumberText(n)[0] == n.whole[0];
  }

  lemma AcceptsNum(k: nat, n: Number)
    requires ValidNumber(n) && !n.neg && k + |NumberText(n)| <= 40
    ensures var r := HoleRun(Start(KNum), Minuses(k) + NumberText(n)); r.More? && r.v.VNum? && r.v.st.CanEnd()
  {
    hide NumberText, ValidNumber, Minuses, HoleStep, G.Step;
    var t := NumberText(n);
    NumeralStarts(n);
    AcceptsMinuses(0, k);
    HoleRunConcat(Start(KNum), Minuses(k), t);
    P.RunNumber(G.START, n);
    FirstDigit(k, t[0]);
    var end := G.Run(Some(G.START), t).value.state.n;
    AcceptsTail(if t[0] == ZERO then G.IntZero else G.Int, k + 1, t[1..], end);
  }

  lemma {:induction false} AcceptsLetters(pat: seq<Byte>, i: nat)
    requires pat != [] && i < |pat|
    ensures HoleRun(VBool(pat, i), pat[i..]).EndsHere?
    decreases |pat| - i
  {
    assert pat[i..][1..] == pat[i + 1..];
    if i + 1 < |pat| { AcceptsLetters(pat, i + 1); }
  }

  lemma AcceptsBool(w: Word)
    requires w != NullWord
    ensures HoleRun(Start(KBool), WordText(w)).EndsHere?
  {
    var pat := WordText(w)[1..];
    AcceptsLetters(pat, 0);
    assert pat[0..] == pat;
  }

  lemma {:induction false} AcceptsHex(len: nat, h: seq<Byte>)
    requires AllHex(h)
    ensures HoleRun(VStr(false, |h|, len), h) == More(VStr(false, 0, len))
    decreases |h|
  {
    if h != [] { AcceptsHex(len, h[1..]); }
  }

  lemma AcceptsChar(len: nat, c: Char)
    requires ValidChar(c) && len <= 4096
    ensures HoleRun(VStr(false, 0, len), CharText(c)) == More(VStr(false, 0, len + 1))
  {
    match c
    case Plain(b) => assert CharText(c)[1..] == [];
    case Short(e) =>
      assert CharText(c)[1..] == [e] && [e][1..] == [];
      assert HoleStep(VStr(false, 0, len), BACKSLASH) == More(VStr(true, 0, len + 1));
      assert HoleRun(VStr(true, 0, len + 1), [e]) == More(VStr(false, 0, len + 1));
    case Unicode(h) =>
      assert CharText(c)[1..] == [0x75] + h && ([0x75] + h)[1..] == h;
      assert HoleStep(VStr(false, 0, len), BACKSLASH) == More(VStr(true, 0, len + 1));
      AcceptsHex(len + 1, h);
      assert HoleRun(VStr(true, 0, len + 1), [0x75] + h) == HoleRun(VStr(false, 4, len + 1), h);
  }

  lemma {:induction false} AcceptsChars(len: nat, cs: seq<Char>)
    requires ValidChars(cs) && len + |cs| <= 4097
    ensures HoleRun(VStr(false, 0, len), CharsText(cs)) == More(VStr(false, 0, len + |cs|))
    decreases |cs|
  {
    hide HoleRun, CharText, ValidChar;
    if cs == [] {
      RunsNothing(VStr(false, 0, len));
    } else {
      AcceptsChar(len, cs[0]);
      AcceptsChars(len + 1, cs[1..]);
      HoleRunConcat(VStr(false, 0, len), CharText(cs[0]), CharsText(cs[1..]));
    }
  }

  lemma RunsNothing(v: ValState)
    ensures HoleRun(v, []) == More(v)
  {
  }

  lemma AcceptsStr(cs: seq<Char>)
    requires ValidChars(cs) && |cs| <= 4097
    ensures HoleRun(Start(KStr), CharsText(cs) + [QUOTE]).EndsHere?
  {
    hide HoleRun, CharsText, ValidChars;
    AcceptsChars(0, cs);
    HoleRunConcat(Start(KStr), CharsText(cs), [QUOTE]);
    QuoteEnds(|cs|);
  }

  lemma QuoteEnds(len: nat)
    ensures HoleRun(VStr(false, 0, len), [QUOTE]).EndsHere?
  {
  }

  /** A free-form hole follows the JSON guard as long as that has not seen the end. */
  lemma {:induction false} AnyFollows(c: G.Conf, u: seq<Byte>)
    requires u != [] && !c.state.End? && G.Run(Some(c), u).Some?
    requires var m := G.Run(Some(c), u[..|u| - 1]); m.Some? && !m.value.state.End?
    ensures HoleRun(VAny(c), u)
            == var e := G.Run(Some(c), u).value; if e.state.End? then EndsHere else More(VAny(e))
    decreases |u|
  {
    hide G.Step;
    var d := G.Step(c, u[0]);
    if |u| == 1 {
      assert u[1..] == [];
    } else {
      assert u[..|u| - 1][1..] == u[1..][..|u| - 2];
      if d.value.state.End? {
        P.EndStays(d.value, u[1..][..|u| - 2]);
        assert false;
      }
      AnyFollows(d.value, u[1..]);
    }
  }

  /** The last byte of a value that is no number is visible. */
  lemma LastVisible(t: Cst)
    requires Valid(t) && !t.Num?
    ensures Text(t) != [] && !IsWs(Text(t)[|Text(t)| - 1])
  {
    hide BodyText, DoneText, ItemText, CharsText, ValidItems, ValidChars;
  }

  lemma LastByte(d: Doc)
    requires Text(d.val) != [] && Within(FAny(d))
    ensures var w := DocText(d);
            && w != [] && w == w[..|w| - 1] + [w[|w| - 1]]
            && (d.post == [] ==> w == d.pre + Text(d.val) && w[|w| - 1] == Text(d.val)[|Text(d.val)| - 1])
            && (d.post != [] ==> w[..|w| - 1] == d.pre + Text(d.val))
  {
    hide Text;
  }

  /** Before its last byte the text of a value has not ended, and a number not even with it. */
  lemma EndsLate(d: Doc)
    requires ValidDoc(d) && Within(FAny(d))
    ensures var w := DocText(d);
            && w != [] && G.Run(Some(G.START), w).Some? && G.CompleteConf(G.Run(Some(G.START), w).value)
            && G.Run(Some(G.START), w[..|w| - 1]).Some? && !G.Run(Some(G.START), w[..|w| - 1]).value.state.End?
  {
    hide Text, Valid, G.Step, DocText;
    var w := DocText(d);
    assert IsJsonText(w);
    P.TextIsComplete(w);
    P.AfterValue(d);
    TextNotEmpty(d.val);
    LastByte(d);
    var b := w[|w| - 1];
    G.RunSnoc(Some(G.START), w[..|w| - 1], b);
    G.RunConcat(Some(G.START), w[..|w| - 1], [b]);
    if !d.val.Num? { LastVisible(d.val); }
    var m := G.Run(Some(G.START), w[..|w| - 1]).value;
    if m.state.End? {
      P.EndStays(m, [b]);
      assert false;
    }
  }

  lemma TextNotEmpty(t: Cst)
    requires Valid(t)
    ensures Text(t) != []
  {
    hide BodyText, DoneText, ItemText, CharsText, ValidItems, ValidChars;
  }

  lemma AcceptsAny(d: Doc)
    requires ValidDoc(d) && Within(FAny(d))
    ensures Finishes(Start(KAny), DocText(d))
  {
    hide DocText, ValidDoc, G.Run, HoleRun;
    EndsLate(d);
    AnyFollows(G.START, DocText(d));
  }

  /** Every fill of a hole that keeps within the limits is taken, and may end there. */
  lemma AcceptsFill(k: ValKind, f: Fill)
    requires Fits(Hole(k), f) && Within(f)
    ensures Finishes(Start(k), FillText(f))
  {
    hide HoleRun, WordText, NumberText, CharsText, DocText, ValidNumber, ValidChars, ValidDoc;
    match f
    case FInt(neg, ds) => AcceptsInt(neg, ds);
    case FNum(m, n) => AcceptsNum(m, n);
    case FBool(w) => AcceptsBool(w);
    case FStr(cs) => AcceptsStr(cs);
    case FAny(d) => AcceptsAny(d);
  }

  // ---------------------------------------------------------------- running through the plan

  lemma FrontFill(fills: seq<Fill>, i: nat)
    requires i < |fills|
    ensures FillsText(fills[i..]) == FillText(fills[i]) + FillsText(fills[i + 1..])
  {
    hide FillText;
    assert fills[i..] == [fills[i]] + fills[i + 1..];
    SchemaText.FillsConcat([fills[i]], fills[i + 1..]);
    SchemaText.FillsOne(fills[i]);
  }

  /** From the start of segment `i` the fills from there on lead to the end. */
  lemma {:induction false} AcceptsFrom(plan: seq<Seg>, fills: seq<Fill>, i: nat)
    requires Bounded(plan) && NoEmptyText(plan) && AllFit(plan, fills) && AllWithin(fills) && i <= |plan|
    ensures var q := Run(plan, Some(Enter(plan, i)), FillsText(fills[i..])); q.Some? && Complete(plan, q.value)
    decreases |plan| - i
  {
    hide Run, Enter, FillText, FillsText, Fits, Within, Finishes, HoleRun, Bounded, NoEmptyText, Endable;
    if i == |plan| {
      assert fills[i..] == [];
      PlanDone(plan);
    } else {
      FrontFill(fills, i);
      assert Fits(plan[i], fills[i]) && Within(fills[i]);
      if plan[i].Fixed? {
        FixedTaken(plan, i, fills[i]);
        AcceptsFrom(plan, fills, i + 1);
        RunConcat(plan, Some(Enter(plan, i)), FillText(fills[i]), FillsText(fills[i + 1..]));
      } else {
        AcceptsFill(plan[i].kind, fills[i]);
        AcceptsHole(plan, fills, i);
      }
    }
  }

  lemma PlanDone(plan: seq<Seg>)
    ensures Run(plan, Some(Enter(plan, |plan|)), FillsText([])) == Some(Enter(plan, |plan|))
    ensures Complete(plan, Enter(plan, |plan|))
  {
  }

  lemma FixedTaken(plan: seq<Seg>, i: nat, f: Fill)
    requires NoEmptyText(plan) && i < |plan| && plan[i].Fixed? && Fits(plan[i], f)
    ensures Run(plan, Some(Enter(plan, i)), FillText(f)) == Some(Enter(plan, i + 1))
  {
    EnterOk(plan, i);
    RunFixed(plan, Enter(plan, i));
    assert f.text[0..] == f.text;
  }

  lemma AcceptsHole(plan: seq<Seg>, fills: seq<Fill>, i: nat)
    requires Bounded(plan) && NoEmptyText(plan) && AllFit(plan, fills) && AllWithin(fills) && i < |plan|
    requires plan[i].Hole? && Finishes(Start(plan[i].kind), FillText(fills[i]))
    requires FillsText(fills[i..]) == FillText(fills[i]) + FillsText(fills[i + 1..])
    ensures var q := Run(plan, Some(Enter(plan, i)), FillsText(fills[i..])); q.Some? && Complete(plan, q.value)
    decreases |plan| - i, -1
  {
    hide Run, FillText, FillsText, Fits, Within, HoleRun, NoEmptyText, Endable;
    var p, u, rest := Enter(plan, i), FillText(fills[i]), FillsText(fills[i + 1..]);
    HoleRunLifts(plan, p, u);
    RunConcat(plan, Some(p), u, rest);
    var r := HoleRun(p.val.value, u);
    if r.EndsHere? {
      AcceptsFrom(plan, fills, i + 1);
    } else {
      var q := p.(val := Some(r.v));
      if i + 1 == |plan| {
        assert fills[i + 1..] == [];
        NothingLeft(plan, q);
      } else {
        FixedAfterHole(plan, q);
        FrontFill(fills, i + 1);
        FixedFill(plan, fills, i + 1);
        AcceptsFrom(plan, fills, i + 2);
        RunConcat(plan, Some(q), FillText(fills[i + 1]), FillsText(fills[i + 2..]));
      }
    }
  }

  lemma NothingLeft(plan: seq<Seg>, q: Pos)
    ensures Run(plan, Some(q), FillsText([])) == Some(q)
  {
  }

  lemma FixedFill(plan: seq<Seg>, fills: seq<Fill>, i: nat)
    requires AllFit(plan, fills) && i < |plan| && plan[i].Fixed?
    ensures FillText(fills[i]) == plan[i].text
  {
    assert Fits(plan[i], fills[i]);
  }

  // ---------------------------------------------------------------- exactly the fillings

  /** The text is the plan with every hole filled, within the limits. */
  ghost predicate IsFilling(plan: seq<Seg>, w: seq<Byte>) {
    exists fills :: AllFit(plan, fills) && AllWithin(fills) && FillsText(fills) == w
  }

  /** For every compiled plan the texts at which generation may stop are exactly its fillings: the guard
      lets nothing else through, and refuses none of them. */
  lemma CompletesExactly(sch: Json, w: seq<Byte>)
    requires CompileSchema(sch).Some?
    ensures var plan := CompileSchema(sch).value; var q := Run(plan, Some(Enter(plan, 0)), w);
            q.Some? && Complete(plan, q.value) <==> IsFilling(plan, w)
  {
    hide Run, Complete, CompileSchema, AllFit, AllWithin, FillsText, Bounded, NoEmptyText;
    var plan := CompileSchema(sch).value;
    PlanBounded(sch);
    var q := Run(plan, Some(Enter(plan, 0)), w);
    if q.Some? && Complete(plan, q.value) { var fills := CompleteIsFilled(plan, w); }
    if IsFilling(plan, w) {
      var fills :| AllFit(plan, fills) && AllWithin(fills) && FillsText(fills) == w;
      assert fills[0..] == fills;
      AcceptsFrom(plan, fills, 0);
    }
  }
}
