/** The plan-driven acceptor: fixed text byte by byte, typed holes by their own automata. */
module SchemaGuard {
  import opened Bytes
  import opened JsonGrammar
  import G = JsonGuard
  import opened SchemaPlan

  datatype ValState =
    | VInt(neg: bool, digits: nat)
    | VNum(st: G.NumS, len: nat)
    | VBool(pat: seq<Byte>, i: nat)
    | VStr(esc: bool, uni: nat, len: nat)
    | VAny(conf: G.Conf)

  /** What a byte does to a hole: goes on, ends it, ends it just before, or is refused. */
  datatype Verdict = More(v: ValState) | EndsHere | EndsBefore | Refused

  const MAX_DIGITS: nat := 19
  const MAX_NUMBER: nat := 40
  const MAX_STRING: nat := 4096

  function Start(k: ValKind): ValState {
    match k
    case KInt => VInt(false, 0)
    case KNum => VNum(G.Sign, 0)
    case KBool => VBool([], 0)
    case KStr => VStr(false, 0, 0)
    case KAny => VAny(G.START)
  }

  function IntStep(neg: bool, digits: nat, b: Byte): Verdict {
    if b == MINUS && !neg && digits == 0 then More(VInt(true, digits))
    else if IsDigit(b) && digits < MAX_DIGITS then More(VInt(neg, digits + 1))
    else if digits > 0 then EndsBefore
    else Refused
  }

  /** As in the JSON guard, except that a leading minus may be repeated. */
  function NumNext(st: G.NumS, b: Byte): Option<G.NumS> {
    if st.Sign? && b == MINUS then Some(G.Sign) else G.NumNext(st, b)
  }

  function NumStep(st: G.NumS, len: nat, b: Byte): Verdict {
    var next := NumNext(st, b);
    if next.Some? && len < MAX_NUMBER then More(VNum(next.value, len + 1))
    else if st.CanEnd() then EndsBefore
    else Refused
  }

  function BoolStep(pat: seq<Byte>, i: nat, b: Byte): Verdict {
    if pat == [] then
      if b == 0x74 then More(VBool(WordText(TrueWord)[1..], 0))
      else if b == 0x66 then More(VBool(WordText(FalseWord)[1..], 0))
      else Refused
    else if i < |pat| && b == pat[i] then
      if i + 1 == |pat| then EndsHere else More(VBool(pat, i + 1))
    else Refused
  }

  function StrStep(esc: bool, uni: nat, len: nat, b: Byte): Verdict {
    if uni > 0 then
      if IsHex(b) then More(VStr(esc, uni - 1, len)) else Refused
    else if esc then
      if IsShort(b) then More(VStr(false, 0, len))
      else if b == 0x75 then More(VStr(false, 4, len))
      else Refused
    else if b == QUOTE then EndsHere
    else if len > MAX_STRING then Refused
    else if b == BACKSLASH then More(VStr(true, 0, len + 1))
    else if b < 0x20 then Refused
    else More(VStr(false, 0, len + 1))
  }

  function AnyStep(c: G.Conf, b: Byte): Verdict {
    var d := G.Step(c, b);
    if d.Some? then (if d.value.state.End? then EndsHere else More(VAny(d.value)))
    else if G.CompleteConf(c) then EndsBefore
    else Refused
  }

  function HoleStep(v: ValState, b: Byte): Verdict {
    match v
    case VInt(neg, digits) => IntStep(neg, digits, b)
    case VNum(st, len) => NumStep(st, len, b)
    case VBool(pat, i) => BoolStep(pat, i, b)
    case VStr(esc, uni, len) => StrStep(esc, uni, len, b)
    case VAny(c) => AnyStep(c, b)
  }

  /** A hole that may end where it stands. */
  predicate Endable(v: ValState) {
    match v
    case VInt(_, digits) => digits > 0
    case VNum(st, _) => st.CanEnd()
    case VAny(c) => G.CompleteConf(c)
    case _ => false
  }

  /** Position in a plan; the plan is finished when `seg` is its length. */
  datatype Pos = Pos(seg: nat, fix: nat, val: Option<ValState>)

  function Enter(plan: seq<Seg>, seg: nat): Pos {
    Pos(seg, 0, if seg < |plan| && plan[seg].Hole? then Some(Start(plan[seg].kind)) else None)
  }

  predicate Finished(plan: seq<Seg>, p: Pos) { p.seg >= |plan| }

  /** End of generation is admissible: finished, or in a last hole that may end. */
  predicate Complete(plan: seq<Seg>, p: Pos) {
    Finished(plan, p) || (p.seg + 1 == |plan| && p.val.Some? && Endable(p.val.value))
  }

  function Step(plan: seq<Seg>, p: Pos, b: Byte): Option<Pos>
    decreases |plan| - p.seg
  {
    if p.seg >= |plan| then None
    else if plan[p.seg].Fixed? then
      var t := plan[p.seg].text;
      if p.fix >= |t| || t[p.fix] != b then None
      else if p.fix + 1 == |t| then Some(Enter(plan, p.seg + 1))
      else Some(p.(fix := p.fix + 1))
    else if p.val.None? then None
    else
      match HoleStep(p.val.value, b)
      case More(v) => Some(p.(val := Some(v)))
      case EndsHere => Some(Enter(plan, p.seg + 1))
      case EndsBefore => Step(plan, Enter(plan, p.seg + 1), b)
      case Refused => None
  }

  function Run(plan: seq<Seg>, p: Option<Pos>, w: seq<Byte>): Option<Pos>
    decreases |w|
  {
    if p.None? || w == [] then p else Run(plan, Step(plan, p.value, w[0]), w[1..])
  }

  lemma {:induction false} RunConcat(plan: seq<Seg>, p: Option<Pos>, u: seq<Byte>, v: seq<Byte>)
    ensures Run(plan, p, u + v) == Run(plan, Run(plan, p, u), v)
    decreases |u|
  {
    hide Step;
    if u == [] {
      assert u + v == v;
    } else if p.Some? {
      assert (u + v)[1..] == u[1..] + v;
      RunConcat(plan, Step(plan, p.value, u[0]), u[1..], v);
    }
  }

  lemma RunSnoc(plan: seq<Seg>, p: Option<Pos>, u: seq<Byte>, b: Byte)
    ensures Run(plan, p, u + [b]) == var m := Run(plan, p, u); if m.Some? then Step(plan, m.value, b) else None
  {
    hide Step;
    RunConcat(plan, p, u, [b]);
    assert [b][1..] == [];
  }

  /** A hole state agrees with the kind of its segment. */
  predicate KindOk(k: ValKind, v: ValState) {
    match k
    case KInt => v.VInt?
    case KNum => v.VNum?
    case KBool => v.VBool? && (v.pat == [] || v.i < |v.pat|)
    case KStr => v.VStr?
    case KAny => v.VAny? && G.WellFormed(v.conf)
  }

  predicate PosOk(plan: seq<Seg>, p: Pos) {
    && p.seg <= |plan|
    && (p.seg < |plan| && plan[p.seg].Fixed? ==> p.val.None? && p.fix < |plan[p.seg].text|)
    && (p.seg < |plan| && plan[p.seg].Hole? ==> p.val.Some? && KindOk(plan[p.seg].kind, p.val.value))
  }

  lemma EnterOk(plan: seq<Seg>, seg: nat)
    requires NoEmptyText(plan) && seg <= |plan|
    ensures PosOk(plan, Enter(plan, seg))
  {
  }

  lemma HoleStepOk(k: ValKind, v: ValState, b: Byte)
    requires KindOk(k, v)
    ensures HoleStep(v, b).More? ==> KindOk(k, HoleStep(v, b).v)
  {
    hide G.Step, G.WellFormed;
    if v.VAny? { G.StepWellFormed(v.conf, b); }
  }

  class SchemaGuard {
    const plan: seq<Seg>
    var seg: nat
    var fix: nat
    var val: Option<ValState>
    var done: bool

    ghost function View(): Pos
      reads this
    {
      Pos(seg, fix, val)
    }

    ghost predicate Invariant()
      reads this
    {
      NoEmptyText(plan) && PosOk(plan, View()) && (done <==> Finished(plan, View()))
    }

    constructor (plan: seq<Seg>)
      requires NoEmptyText(plan)
      ensures this.plan == plan && View() == Enter(plan, 0) && Invariant()
    {
      this.plan := plan;
      seg, fix, val, done := 0, 0, None, false;
      new;
      EnterSeg();
    }

    method EnterSeg()
      requires NoEmptyText(plan) && seg <= |plan| && fix == 0
      modifies this
      ensures View() == Enter(plan, old(seg)) && Invariant()
    {
      hide KindOk;
      EnterOk(plan, seg);
      if seg >= |plan| {
        done := true;
        val := None;
        return;
      }
      done := false;
      val := if plan[seg].Fixed? then None else Some(Start(plan[seg].kind));
    }

    method NextSeg()
      requires NoEmptyText(plan) && seg < |plan|
      modifies this
      ensures View() == Enter(plan, old(seg) + 1) && Invariant()
    {
      seg := seg + 1;
      fix := 0;
      EnterSeg();
    }

    /** The scaffold text that must come next, when the guard is inside a fixed segment. */
    method ForcedText() returns (t: Option<seq<Byte>>)
      requires Invariant()
      ensures t == Forced(plan, View())
    {
      if seg < |plan| && plan[seg].Fixed? && !done { return Some(plan[seg].text[fix..]); }
      return None;
    }

    method IsFinished() returns (r: bool)
      requires Invariant()
      ensures r == Finished(plan, View())
    {
      r := done;
    }

    method IsComplete() returns (r: bool)
      requires Invariant()
      ensures r == Complete(plan, View())
    {
      if done { return true; }
      if seg + 1 != |plan| { return false; }
      r := val.Some? && Endable(val.value);
    }

    method PushByte(b: Byte) returns (ok: bool)
      requires Invariant()
      modifies this
      ensures ok == Step(plan, old(View()), b).Some?
      ensures ok ==> View() == Step(plan, old(View()), b).value && Invariant()
      decreases |plan| - seg
    {
      hide HoleStep, KindOk;
      if done { return false; }
      if plan[seg].Fixed? {
        if plan[seg].text[fix] != b { return false; }
        fix := fix + 1;
        if fix == |plan[seg].text| { NextSeg(); }
        return true;
      }
      HoleStepOk(plan[seg].kind, val.value, b);
      match HoleStep(val.value, b)
      case More(v) =>
        val := Some(v);
        ok := true;
      case EndsHere =>
        NextSeg();
        ok := true;
      case EndsBefore =>
        NextSeg();
        ok := PushByte(b);
      case Refused => ok := false;
    }

    method PushBytes(w: seq<Byte>) returns (ok: bool)
      requires Invariant()
      modifies this
      ensures ok == Run(plan, Some(old(View())), w).Some?
      ensures ok ==> View() == Run(plan, Some(old(View())), w).value && Invariant()
    {
      hide Step;
      ghost var p := Some(View());
      for k := 0 to |w|
        invariant Invariant() && Run(plan, p, w[..k]) == Some(View())
      {
        RunSnoc(plan, p, w[..k], w[k]);
        assert w[..k + 1] == w[..k] + [w[k]];
        assert w == w[..k + 1] + w[k + 1..];
        RunConcat(plan, p, w[..k + 1], w[k + 1..]);
        ok := PushByte(w[k]);
        if !ok { return; }
      }
      assert w[..|w|] == w;
      ok := true;
    }
  }

  function Forced(plan: seq<Seg>, p: Pos): Option<seq<Byte>> {
    if p.seg < |plan| && plan[p.seg].Fixed? && p.fix <= |plan[p.seg].text|
    then Some(plan[p.seg].text[p.fix..]) else None
  }

  lemma {:induction false} RunFixed(plan: seq<Seg>, p: Pos)
    requires PosOk(plan, p) && p.seg < |plan| && plan[p.seg].Fixed?
    ensures Run(plan, Some(p), plan[p.seg].text[p.fix..]) == Some(Enter(plan, p.seg + 1))
    decreases |plan[p.seg].text| - p.fix
  {
    var t := plan[p.seg].text;
    assert t[p.fix..][1..] == t[p.fix + 1..];
    if p.fix + 1 < |t| { RunFixed(plan, p.(fix := p.fix + 1)); }
  }

  /** Forced text is always accepted, and leads to a hole or to the end of the plan. */
  lemma ForcedIsAccepted(plan: seq<Seg>, p: Pos)
    requires Alternates(plan) && PosOk(plan, p) && Forced(plan, p).Some?
    ensures var q := Run(plan, Some(p), Forced(plan, p).value);
            q.Some? && (Finished(plan, q.value) || plan[q.value.seg].Hole?) && Forced(plan, q.value).None?
  {
    RunFixed(plan, p);
  }
}
