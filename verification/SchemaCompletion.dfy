/** The schema guard can strand its sampler in one way only: a number hole that has used up its forty
    bytes where a number may not end. From every other position generation can still finish. */
module SchemaCompletion {
  import opened Bytes
  import opened JsonGrammar
  import G = JsonGuard
  import JsonPrefix
  import JsonPrinter
  import opened JsonAccess
  import opened JsonParser
  import opened SchemaPlan
  import opened SchemaGuard
  import opened SchemaFill
  import SchemaText

  // ---------------------------------------------------------------- what follows a hole

  predicate Stops(t: seq<Byte>) { t != [] && (t[0] == COMMA || t[0] == RBRACE) }

  /** A hole that is not the last segment is followed by text that starts with a comma or a brace. */
  predicate Bounded(segs: seq<Seg>) {
    forall k :: 0 <= k < |segs| - 1 && segs[k].Hole? ==> segs[k + 1].Fixed? && Stops(segs[k + 1].text)
  }

  lemma {:induction false} ValueBounded(sch: Json, depth: nat)
    requires CompileValue(sch, depth).Some?
    ensures Bounded(CompileValue(sch, depth).value) && CompileValue(sch, depth).value != []
    decreases MAX_SCHEMA_DEPTH + 1 - depth, 0, 0
  {
    hide StrOf, Selected, ScalarKind;
    if StrOf(sch, TYPE) == Some(OBJECT) { MembersBounded(Selected(sch), 0, depth); }
  }

  lemma {:induction false} MembersBounded(keys: seq<Member>, i: nat, depth: nat)
    requires i <= |keys| && depth <= MAX_SCHEMA_DEPTH && CompileMembers(keys, i, depth).Some?
    ensures var s := CompileMembers(keys, i, depth).value;
            Bounded(s) && (s != [] ==> s[0].Fixed? && (i > 0 ==> Stops(s[0].text)))
    decreases MAX_SCHEMA_DEPTH - depth, 1, |keys| - i
  {
    hide CompileValue, JsonPrinter.Escaped;
    if i < |keys| {
      ValueBounded(keys[i].val, depth + 1);
      MembersBounded(keys, i + 1, depth);
    }
  }

  lemma {:induction false} MergeBounded(segs: seq<Seg>)
    requires Bounded(segs) && NoEmptyText(segs)
    ensures Bounded(Merge(segs)) && (segs != [] ==> Merge(segs) != [])
    ensures segs != [] ==> Merge(segs)[|Merge(segs)| - 1].Fixed? == segs[|segs| - 1].Fixed?
    ensures NoEmptyText(Merge(segs))
    decreases |segs|
  {
    if segs != [] {
      var n := |segs| - 1;
      MergeBounded(segs[..n]);
      var m := Merge(segs[..n]);
      if n > 0 { assert segs[..n][n - 1] == segs[n - 1]; }
      PushBounded(m, segs[n]);
    }
  }

  lemma PushBounded(plan: seq<Seg>, s: Seg)
    requires Bounded(plan) && NoEmptyText(plan) && (s.Fixed? ==> s.text != [])
    requires plan != [] && plan[|plan| - 1].Hole? ==> s.Fixed? && Stops(s.text)
    ensures Bounded(Push(plan, s)) && NoEmptyText(Push(plan, s))
  {
  }

  // ---------------------------------------------------------------- finishing one hole

  /** A string of bytes inside one hole. */
  function HoleRun(v: ValState, u: seq<Byte>): Verdict
    decreases |u|
  {
    if u == [] then More(v)
    else
      match HoleStep(v, u[0])
      case More(v') => HoleRun(v', u[1..])
      case EndsHere => if |u| == 1 then EndsHere else Refused
      case _ => Refused
  }

  /** The number hole is full and a number may not end here. */
  predicate Full(v: ValState) { v.VNum? && !v.st.CanEnd() && v.len >= MAX_NUMBER }

  predicate Ended(v: ValState) { v.VAny? && v.conf.state.End? }

  /** The bytes end the hole, or lead to where it may end. */
  predicate Finishes(v: ValState, u: seq<Byte>) {
    var r := HoleRun(v, u);
    r.EndsHere? || (r.More? && Endable(r.v) && !Ended(r.v))
  }

  lemma FinishInt(v: ValState) returns (u: seq<Byte>)
    requires v.VInt?
    ensures Finishes(v, u)
  {
    u := if v.digits > 0 then [] else [ZERO];
    assert [ZERO][1..] == [];
    if v.digits == 0 { assert HoleRun(VInt(v.neg, 1), []) == More(VInt(v.neg, 1)); }
  }

  lemma FinishNum(v: ValState) returns (u: seq<Byte>)
    requires v.VNum? && !Full(v)
    ensures Finishes(v, u)
  {
    if v.st.CanEnd() {
      u := [];
    } else {
      u := [ZERO];
      assert [ZERO][1..] == [];
      var v' := VNum(NumNext(v.st, ZERO).value, v.len + 1);
      assert HoleRun(v', []) == More(v');
    }
  }

  lemma {:induction false} FinishWord(v: ValState) returns (u: seq<Byte>)
    requires v.VBool? && v.i < |v.pat|
    ensures HoleRun(v, u).EndsHere?
    decreases |v.pat| - v.i
  {
    if v.i + 1 == |v.pat| {
      u := [v.pat[v.i]];
    } else {
      var w := FinishWord(v.(i := v.i + 1));
      u := [v.pat[v.i]] + w;
      assert u[1..] == w;
    }
  }

  lemma FinishBool(v: ValState) returns (u: seq<Byte>)
    requires v.VBool? && (v.pat == [] || v.i < |v.pat|)
    ensures Finishes(v, u)
  {
    if v.pat == [] {
      var w := FinishWord(VBool(WordText(TrueWord)[1..], 0));
      u := [0x74] + w;
      assert u[1..] == w;
    } else {
      u := FinishWord(v);
    }
  }

  lemma {:induction false} FinishStr(v: ValState) returns (u: seq<Byte>)
    requires v.VStr?
    ensures HoleRun(v, u).EndsHere?
    decreases v.uni, v.esc
  {
    if v.uni > 0 {
      var w := FinishStr(v.(uni := v.uni - 1));
      u := [ZERO] + w;
      assert u[1..] == w;
    } else if v.esc {
      var w := FinishStr(v.(esc := false));
      u := [QUOTE] + w;
      assert u[1..] == w;
    } else {
      u := [QUOTE];
    }
  }

  /** A free-form hole ends where the JSON guard's text does. */
  lemma {:induction false} FinishAny(c: G.Conf, z: seq<Byte>) returns (u: seq<Byte>)
    requires !c.state.End? && G.Run(Some(c), z).Some? && G.CompleteConf(G.Run(Some(c), z).value)
    ensures Finishes(VAny(c), u)
    decreases |z|
  {
    hide G.Step;
    if z == [] {
      u := [];
    } else {
      var d := G.Step(c, z[0]).value;
      if d.state.End? {
        u := [z[0]];
      } else {
        var w := FinishAny(d, z[1..]);
        u := [z[0]] + w;
        assert u[1..] == w;
      }
    }
  }

  /** Any hole that is not full can be finished. */
  lemma FinishHole(k: ValKind, v: ValState, cur: seq<Byte>) returns (u: seq<Byte>)
    requires Partly(k, v, cur) && !Full(v)
    ensures Finishes(v, u)
  {
    hide Finishes;
    match k
    case KInt => u := FinishInt(v);
    case KNum => u := FinishNum(v);
    case KBool => u := FinishBool(v);
    case KStr =>
      u := FinishStr(v);
      assert Finishes(v, u) by { EndsFinishes(v, u); }
    case KAny =>
      var z := JsonPrefix.Completion(cur);
      JsonPrefix.TextIsComplete(cur + z);
      G.RunConcat(Some(G.START), cur, z);
      u := FinishAny(v.conf, z);
  }

  lemma EndsFinishes(v: ValState, u: seq<Byte>)
    requires HoleRun(v, u).EndsHere?
    ensures Finishes(v, u)
  {
  }

  // ---------------------------------------------------------------- the rest of the plan

  /** A run inside a hole, seen on the plan. */
  lemma {:induction false} HoleRunLifts(plan: seq<Seg>, p: Pos, u: seq<Byte>)
    requires p.seg < |plan| && plan[p.seg].Hole? && p.val.Some?
    ensures HoleRun(p.val.value, u).More? ==> Run(plan, Some(p), u) == Some(p.(val := Some(HoleRun(p.val.value, u).v)))
    ensures HoleRun(p.val.value, u).EndsHere? ==> Run(plan, Some(p), u) == Some(Enter(plan, p.seg + 1))
    decreases |u|
  {
    hide HoleStep, Enter;
    if u != [] {
      var s := HoleStep(p.val.value, u[0]);
      if s.More? {
        HoleRunLifts(plan, p.(val := Some(s.v)), u[1..]);
      } else if s.EndsHere? && |u| == 1 {
        assert u[1..] == [];
      }
    }
  }

  /** The byte after a hole ends it. */
  lemma StopEnds(v: ValState, b: Byte)
    requires Endable(v) && !Ended(v) && (b == COMMA || b == RBRACE)
    ensures HoleStep(v, b).EndsBefore?
  {
    if v.VAny? {
      assert v.conf.stack == [] && G.NumNext(v.conf.state.n, b) == None;
      assert G.Done([]).state.End? && G.Step(G.Done([]), b) == None;
    }
  }

  lemma FixedAfterHole(plan: seq<Seg>, p: Pos)
    requires Bounded(plan) && NoEmptyText(plan) && p.seg + 1 < |plan| && plan[p.seg].Hole? && p.val.Some?
    requires Endable(p.val.value) && !Ended(p.val.value)
    ensures plan[p.seg + 1].Fixed? && Run(plan, Some(p), plan[p.seg + 1].text) == Some(Enter(plan, p.seg + 2))
  {
    hide HoleStep;
    var t := plan[p.seg + 1].text;
    StopEnds(p.val.value, t[0]);
    assert Step(plan, p, t[0]) == Step(plan, Enter(plan, p.seg + 1), t[0]);
    EnterOk(plan, p.seg + 1);
    RunFixed(plan, Enter(plan, p.seg + 1));
    assert t[0..] == t;
  }

  /** From the start of any segment the plan can be completed. */
  lemma {:induction false} FinishFrom(plan: seq<Seg>, seg: nat) returns (v: seq<Byte>)
    requires Bounded(plan) && NoEmptyText(plan) && seg <= |plan|
    ensures var q := Run(plan, Some(Enter(plan, seg)), v); q.Some? && Complete(plan, q.value)
    decreases |plan| - seg, 0
  {
    hide HoleStep, Endable;
    if seg == |plan| {
      v := [];
    } else if plan[seg].Fixed? {
      EnterOk(plan, seg);
      RunFixed(plan, Enter(plan, seg));
      var t := plan[seg].text;
      assert t[0..] == t;
      var w := FinishFrom(plan, seg + 1);
      RunConcat(plan, Some(Enter(plan, seg)), t, w);
      v := t + w;
    } else {
      StartsPartly(plan[seg].kind);
      StartNotFull(plan[seg].kind);
      v := FinishInHole(plan, Enter(plan, seg), []);
    }
  }

  lemma StartNotFull(k: ValKind)
    ensures !Full(Start(k))
  {
  }

  lemma {:induction false} FinishInHole(plan: seq<Seg>, p: Pos, cur: seq<Byte>) returns (v: seq<Byte>)
    requires Bounded(plan) && NoEmptyText(plan) && p.seg < |plan| && plan[p.seg].Hole? && p.val.Some?
    requires Partly(plan[p.seg].kind, p.val.value, cur) && !Full(p.val.value)
    ensures var q := Run(plan, Some(p), v); q.Some? && Complete(plan, q.value)
    decreases |plan| - p.seg, -1
  {
    hide HoleStep, Endable, Partly, Full, HoleRun;
    var u := FinishHole(plan[p.seg].kind, p.val.value, cur);
    HoleRunLifts(plan, p, u);
    var r := HoleRun(p.val.value, u);
    if r.EndsHere? {
      var w := FinishFrom(plan, p.seg + 1);
      RunConcat(plan, Some(p), u, w);
      v := u + w;
    } else if p.seg + 1 == |plan| {
      v := u;
    } else {
      var q := p.(val := Some(r.v));
      FixedAfterHole(plan, q);
      var w := FinishFrom(plan, p.seg + 2);
      var t := plan[p.seg + 1].text;
      RunConcat(plan, Some(q), t, w);
      RunConcat(plan, Some(p), u, t + w);
      v := u + (t + w);
    }
  }

  // ---------------------------------------------------------------- the guarantee

  /** A full number hole. */
  predicate Stranded(plan: seq<Seg>, p: Pos) {
    p.seg < |plan| && plan[p.seg].Hole? && p.val.Some? && Full(p.val.value)
  }

  lemma StrandedIsStuck(plan: seq<Seg>, p: Pos, v: seq<Byte>)
    requires Stranded(plan, p)
    ensures var q := Run(plan, Some(p), v); q.None? || !Complete(plan, q.value)
  {
    hide Complete;
    if v == [] {
      assert !Complete(plan, p) by { NotComplete(plan, p); }
    } else {
      FullRefuses(p.val.value, v[0]);
      assert Step(plan, p, v[0]) == None;
    }
  }

  lemma NotComplete(plan: seq<Seg>, p: Pos)
    requires Stranded(plan, p)
    ensures !Complete(plan, p)
  {
  }

  lemma FullRefuses(v: ValState, b: Byte)
    requires Full(v)
    ensures HoleStep(v, b).Refused?
  {
  }

  ghost predicate CanFinish(plan: seq<Seg>, p: Pos) {
    exists v :: Run(plan, Some(p), v).Some? && Complete(plan, Run(plan, Some(p), v).value)
  }

  /** After any accepted text, generation can still finish if and only if the guard is not in a full
      number hole. */
  lemma FinishesExactly(sch: Json, w: seq<Byte>)
    requires CompileSchema(sch).Some?
    requires var plan := CompileSchema(sch).value; Run(plan, Some(Enter(plan, 0)), w).Some?
    ensures var plan := CompileSchema(sch).value;
            var p := Run(plan, Some(Enter(plan, 0)), w).value;
            CanFinish(plan, p) <==> !Stranded(plan, p)
  {
    hide Run, Step, Partly, Complete, CompileValue, Merge;
    var plan := CompileSchema(sch).value;
    PlanBounded(sch);
    var fills, cur := RunReached(plan, w);
    var p := Run(plan, Some(Enter(plan, 0)), w).value;
    if Stranded(plan, p) {
      forall v ensures Run(plan, Some(p), v).None? || !Complete(plan, Run(plan, Some(p), v).value) {
        StrandedIsStuck(plan, p, v);
      }
    } else {
      var v := FinishAt(plan, p, fills, cur, w);
      assert Run(plan, Some(p), v).Some? && Complete(plan, Run(plan, Some(p), v).value);
    }
  }

  lemma PlanBounded(sch: Json)
    requires CompileSchema(sch).Some?
    ensures Bounded(CompileSchema(sch).value) && NoEmptyText(CompileSchema(sch).value)
  {
    hide CompileValue, Merge;
    ValueShape(sch, 0);
    ValueBounded(sch, 0);
    MergeBounded(CompileValue(sch, 0).value);
  }

  lemma FinishAt(plan: seq<Seg>, p: Pos, fills: seq<Fill>, cur: seq<Byte>, w: seq<Byte>) returns (v: seq<Byte>)
    requires Bounded(plan) && NoEmptyText(plan) && Reached(plan, p, fills, cur, w) && !Stranded(plan, p)
    ensures Run(plan, Some(p), v).Some? && Complete(plan, Run(plan, Some(p), v).value)
  {
    hide Step, Partly, Full, AllFit, FillsText;
    if p.seg == |plan| {
      v := [];
    } else if plan[p.seg].Fixed? {
      RunFixed(plan, p);
      var t := plan[p.seg].text[p.fix..];
      var u := FinishFrom(plan, p.seg + 1);
      RunConcat(plan, Some(p), t, u);
      v := t + u;
    } else {
      v := FinishInHole(plan, p, cur);
    }
  }

  /** For a number schema forty minus signs are accepted and strand the guard. */
  lemma FortyMinuses()
    ensures CompileSchema(SchemaText.TypeSchema(NUMBER)) == Some([Hole(KNum)])
    ensures var plan := [Hole(KNum)];
            var p := Run(plan, Some(Enter(plan, 0)), SchemaText.Minuses(MAX_NUMBER));
            p.Some? && Stranded(plan, p.value) && !CanFinish(plan, p.value)
  {
    hide Run, CompileSchema;
    var plan := [Hole(KNum)];
    SchemaText.ScalarPlan(NUMBER);
    SchemaText.MinusesCount(0, MAX_NUMBER);
    FinishesExactly(SchemaText.TypeSchema(NUMBER), SchemaText.Minuses(MAX_NUMBER));
  }
}
