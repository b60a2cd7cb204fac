/** The byte-level JSON prefix acceptor of constrained decoding: its transition function,
    and the class that keeps the container stack and the sub-state in place. */
module JsonGuard {
  import opened Bytes
  import opened JsonGrammar

  /** Sub-states of a number literal. */
  datatype NumS = Sign | IntZero | Int | DotFirst | Frac | ExpSign | ExpFirst | Exp {
    predicate CanEnd() { IntZero? || Int? || Frac? || Exp? }
  }

  datatype State =
    | Value
    | ObjKeyOrEnd
    | ObjKeyStart
    | ObjColon
    | ObjNext
    | ArrValOrEnd
    | ArrNext
    | InStr(key: bool, esc: bool, uni: nat)
    | InNum(n: NumS)
    | InLit(pat: seq<Byte>, i: nat)
    | End

  /** A configuration: the open containers, innermost last, and the sub-state. */
  datatype Conf = Conf(stack: seq<Byte>, state: State)

  const START := Conf([], Value)

  predicate CompleteConf(c: Conf) {
    c.state.End? || (c.state.InNum? && c.stack == [] && c.state.n.CanEnd())
  }

  function NumNext(n: NumS, b: Byte): Option<NumS> {
    match n
    case Sign => if b == ZERO then Some(IntZero) else if IsDigit(b) then Some(Int) else None
    case IntZero => if b == DOT then Some(DotFirst) else if IsExpMark(b) then Some(ExpSign) else None
    case Int =>
      if IsDigit(b) then Some(Int) else if b == DOT then Some(DotFirst)
      else if IsExpMark(b) then Some(ExpSign) else None
    case DotFirst => if IsDigit(b) then Some(Frac) else None
    case Frac => if IsDigit(b) then Some(Frac) else if IsExpMark(b) then Some(ExpSign) else None
    case ExpSign => if IsSign(b) then Some(ExpFirst) else if IsDigit(b) then Some(Exp) else None
    case ExpFirst => if IsDigit(b) then Some(Exp) else None
    case Exp => if IsDigit(b) then Some(Exp) else None
  }

  /** Where a value that just closed leads: the enclosing container, or the end. */
  function DoneState(stack: seq<Byte>): State {
    if stack == [] then End else if stack[|stack| - 1] == LBRACE then ObjNext else ArrNext
  }

  function Done(stack: seq<Byte>): Conf { Conf(stack, DoneState(stack)) }

  function Pop(stack: seq<Byte>): seq<Byte> { if stack == [] then [] else stack[..|stack| - 1] }

  function Begin(stack: seq<Byte>, b: Byte): Option<Conf> {
    if b == LBRACE then Some(Conf(stack + [LBRACE], ObjKeyOrEnd))
    else if b == LBRACKET then Some(Conf(stack + [LBRACKET], ArrValOrEnd))
    else if b == QUOTE then Some(Conf(stack, InStr(false, false, 0)))
    else if b == MINUS then Some(Conf(stack, InNum(Sign)))
    else if b == ZERO then Some(Conf(stack, InNum(IntZero)))
    else if IsDigit(b) then Some(Conf(stack, InNum(Int)))
    else if b == 0x74 then Some(Conf(stack, InLit(WordText(TrueWord)[1..], 0)))
    else if b == 0x66 then Some(Conf(stack, InLit(WordText(FalseWord)[1..], 0)))
    else if b == 0x6E then Some(Conf(stack, InLit(WordText(NullWord)[1..], 0)))
    else None
  }

  function StrStep(stack: seq<Byte>, key: bool, esc: bool, uni: nat, b: Byte): Option<Conf> {
    if uni > 0 then
      if IsHex(b) then Some(Conf(stack, InStr(key, false, uni - 1))) else None
    else if esc then
      if IsShort(b) then Some(Conf(stack, InStr(key, false, 0)))
      else if b == 0x75 then Some(Conf(stack, InStr(key, false, 4)))
      else None
    else if b == QUOTE then Some(if key then Conf(stack, ObjColon) else Done(stack))
    else if b == BACKSLASH then Some(Conf(stack, InStr(key, true, 0)))
    else if b < 0x20 then None
    else Some(Conf(stack, InStr(key, false, 0)))
  }

  function Step(c: Conf, b: Byte): Option<Conf>
    decreases c.state.InNum?
  {
    match c.state
    case Value => if IsWs(b) then Some(c) else Begin(c.stack, b)
    case ObjKeyOrEnd =>
      if IsWs(b) then Some(c)
      else if b == QUOTE then Some(c.(state := InStr(true, false, 0)))
      else if b == RBRACE then Some(Done(Pop(c.stack)))
      else None
    case ObjKeyStart =>
      if IsWs(b) then Some(c)
      else if b == QUOTE then Some(c.(state := InStr(true, false, 0)))
      else None
    case ObjColon =>
      if IsWs(b) then Some(c) else if b == COLON then Some(c.(state := Value)) else None
    case ObjNext =>
      if IsWs(b) then Some(c)
      else if b == COMMA then Some(c.(state := ObjKeyStart))
      else if b == RBRACE then Some(Done(Pop(c.stack)))
      else None
    case ArrValOrEnd =>
      if IsWs(b) then Some(c)
      else if b == RBRACKET then Some(Done(Pop(c.stack)))
      else Begin(c.stack, b)
    case ArrNext =>
      if IsWs(b) then Some(c)
      else if b == COMMA then Some(c.(state := Value))
      else if b == RBRACKET then Some(Done(Pop(c.stack)))
      else None
    case InStr(key, esc, uni) => StrStep(c.stack, key, esc, uni, b)
    case InNum(n) =>
      var next := NumNext(n, b);
      if next.Some? then Some(c.(state := InNum(next.value)))
      else if !n.CanEnd() then None
      else Step(Done(c.stack), b)
    case InLit(pat, i) =>
      if i >= |pat| || b != pat[i] then None
      else if i + 1 == |pat| then Some(Done(c.stack))
      else Some(c.(state := InLit(pat, i + 1)))
    case End => if IsWs(b) then Some(c) else None
  }

  /** Feeding a byte string: `None` from the first illegal byte on. */
  function Run(c: Option<Conf>, w: seq<Byte>): Option<Conf>
    decreases |w|
  {
    if c.None? || w == [] then c else Run(Step(c.value, w[0]), w[1..])
  }

  lemma {:induction false} RunConcat(c: Option<Conf>, u: seq<Byte>, v: seq<Byte>)
    ensures Run(c, u + v) == Run(Run(c, u), v)
    decreases |u|
  {
    if u == [] {
      assert u + v == v;
    } else if c.Some? {
      assert (u + v)[1..] == u[1..] + v;
      RunConcat(Step(c.value, u[0]), u[1..], v);
    }
  }

  lemma RunSnoc(c: Option<Conf>, u: seq<Byte>, b: Byte)
    ensures Run(c, u + [b]) == var m := Run(c, u); if m.Some? then Step(m.value, b) else None
  {
    RunConcat(c, u, [b]);
    assert [b][1..] == [];
  }

  predicate NoSpace(s: seq<Byte>) { forall k :: 0 <= k < |s| ==> !IsWs(s[k]) }

  /** What the acceptor keeps of its own representation on every accepted byte. */
  predicate WellFormed(c: Conf) {
    && (forall k :: 0 <= k < |c.stack| ==> c.stack[k] == LBRACE || c.stack[k] == LBRACKET)
    && (c.state.InLit? ==> c.state.i < |c.state.pat| && NoSpace(c.state.pat))
    && (c.state.InStr? ==> c.state.uni <= 4)
  }

  lemma StepWellFormed(c: Conf, b: Byte)
    requires WellFormed(c)
    ensures Step(c, b).Some? ==> WellFormed(Step(c, b).value)
    decreases c.state.InNum?
  {
    hide WordText, NoSpace;
    WordsVisible();
    if c.state.InNum? { StepWellFormed(Done(c.stack), b); }
  }

  lemma WordsVisible()
    ensures forall w :: |WordText(w)| > 1 && NoSpace(WordText(w)[1..])
  {
  }

  ghost predicate OnlySpaceMayFollow(c: Conf) { forall b: Byte :: Step(c, b).Some? ==> IsWs(b) }

  /** A visible byte every state but the end accepts. */
  function Follower(c: Conf): Byte
    requires WellFormed(c)
  {
    match c.state
    case Value => QUOTE
    case ObjKeyOrEnd => QUOTE
    case ObjKeyStart => QUOTE
    case ObjColon => COLON
    case ObjNext => COMMA
    case ArrValOrEnd => QUOTE
    case ArrNext => COMMA
    case InStr(_, esc, uni) => if uni == 0 && esc then QUOTE else ZERO
    case InNum(n) => if n.IntZero? then DOT else ZERO
    case InLit(pat, i) => pat[i]
    case End => QUOTE
  }

  /** The end is the only state in which no visible byte is accepted. */
  lemma EndExactly(c: Conf)
    requires WellFormed(c)
    ensures c.state.End? <==> OnlySpaceMayFollow(c)
  {
    var b := Follower(c);
    assert Step(c, b).Some? <==> !c.state.End?;
    assert !IsWs(b);
  }

  class JsonGuard {
    var stack: seq<Byte>
    var state: State

    ghost function View(): Conf
      reads this
    {
      Conf(stack, state)
    }

    ghost predicate Invariant()
      reads this
    {
      WellFormed(View())
    }

    constructor ()
      ensures View() == START && Invariant()
    {
      stack := [];
      state := State.Value;
    }

    method Complete() returns (r: bool)
      ensures r == CompleteConf(View())
    {
      match state
      case End => r := true;
      case InNum(n) => r := stack == [] && n.CanEnd();
      case _ => r := false;
    }

    /** Whether the text is definitively closed: only whitespace may follow. */
    method HardComplete() returns (r: bool)
      requires Invariant()
      ensures r <==> OnlySpaceMayFollow(View())
      ensures r ==> CompleteConf(View())
    {
      EndExactly(View());
      r := state.End?;
    }

    method ValueDone()
      requires Invariant()
      modifies this
      ensures View() == Done(old(stack)) && Invariant()
    {
      if stack == [] {
        state := End;
      } else if stack[|stack| - 1] == LBRACE {
        state := ObjNext;
      } else {
        assert stack[|stack| - 1] == LBRACKET;
        state := ArrNext;
      }
    }

    method CloseContainer()
      requires Invariant()
      modifies this
      ensures View() == Done(Pop(old(stack))) && Invariant()
    {
      if stack != [] { stack := stack[..|stack| - 1]; }
      state := End;
      ValueDone();
    }

    method BeginValue(b: Byte) returns (ok: bool)
      requires Invariant()
      modifies this
      ensures ok == Begin(old(stack), b).Some?
      ensures ok ==> View() == Begin(old(stack), b).value && Invariant()
      ensures !ok ==> View() == old(View())
    {
      if b == LBRACE {
        stack := stack + [LBRACE];
        state := ObjKeyOrEnd;
      } else if b == LBRACKET {
        stack := stack + [LBRACKET];
        state := ArrValOrEnd;
      } else if b == QUOTE {
        state := InStr(false, false, 0);
      } else if b == MINUS {
        state := InNum(Sign);
      } else if b == ZERO {
        state := InNum(IntZero);
      } else if IsDigit(b) {
        state := InNum(Int);
      } else if b == 0x74 {
        state := InLit([0x72, 0x75, 0x65], 0);
      } else if b == 0x66 {
        state := InLit([0x61, 0x6C, 0x73, 0x65], 0);
      } else if b == 0x6E {
        state := InLit([0x75, 0x6C, 0x6C], 0);
      } else {
        return false;
      }
      return true;
    }

    method PushStrByte(key: bool, esc: bool, uni: nat, b: Byte) returns (ok: bool)
      requires Invariant() && uni <= 4
      modifies this
      ensures ok == StrStep(old(stack), key, esc, uni, b).Some?
      ensures ok ==> View() == StrStep(old(stack), key, esc, uni, b).value && Invariant()
      ensures !ok ==> View() == old(View())
    {
      if uni > 0 {
        if !IsHex(b) { return false; }
        state := InStr(key, false, uni - 1);
      } else if esc {
        if IsShort(b) {
          state := InStr(key, false, 0);
        } else if b == 0x75 {
          state := InStr(key, false, 4);
        } else {
          return false;
        }
      } else if b == QUOTE {
        if key { state := ObjColon; } else { ValueDone(); }
      } else if b == BACKSLASH {
        state := InStr(key, true, 0);
      } else if b < 0x20 {
        return false;
      } else {
        state := InStr(key, false, 0);
      }
      return true;
    }

    /** One byte. When the byte is refused the configuration left behind is unspecified,
        but still answers `Complete` as before. */
    method PushByte(b: Byte) returns (ok: bool)
      requires Invariant()
      modifies this
      ensures ok == Step(old(View()), b).Some?
      ensures ok ==> View() == Step(old(View()), b).value && Invariant()
      ensures !ok ==> CompleteConf(View()) == CompleteConf(old(View()))
      decreases state.InNum?
    {
      var ws := IsWs(b);
      match state
      case Value =>
        if ws { return true; }
        ok := BeginValue(b);
      case ObjKeyOrEnd =>
        if ws { return true; }
        if b == QUOTE {
          state := InStr(true, false, 0);
        } else if b == RBRACE {
          CloseContainer();
        } else {
          return false;
        }
        ok := true;
      case ObjKeyStart =>
        if ws { return true; }
        if b != QUOTE { return false; }
        state := InStr(true, false, 0);
        ok := true;
      case ObjColon =>
        if ws { return true; }
        if b != COLON { return false; }
        state := State.Value;
        ok := true;
      case ObjNext =>
        if ws { return true; }
        if b == COMMA {
          state := ObjKeyStart;
        } else if b == RBRACE {
          CloseContainer();
        } else {
          return false;
        }
        ok := true;
      case ArrValOrEnd =>
        if ws { return true; }
        if b == RBRACKET {
          CloseContainer();
          return true;
        }
        ok := BeginValue(b);
      case ArrNext =>
        if ws { return true; }
        if b == COMMA {
          state := State.Value;
        } else if b == RBRACKET {
          CloseContainer();
        } else {
          return false;
        }
        ok := true;
      case InStr(key, esc, uni) => ok := PushStrByte(key, esc, uni, b);
      case InNum(n) =>
        var next := NumNext(n, b);
        if next.Some? {
          state := InNum(next.value);
          return true;
        }
        if !n.CanEnd() { return false; }
        ValueDone();
        ok := PushByte(b);
      case InLit(pat, i) =>
        if b != pat[i] { return false; }
        if i + 1 == |pat| { ValueDone(); } else { state := InLit(pat, i + 1); }
        ok := true;
      case End => ok := ws;
    }

    method PushBytes(w: seq<Byte>) returns (ok: bool)
      requires Invariant()
      modifies this
      ensures ok == Run(Some(old(View())), w).Some?
      ensures ok ==> View() == Run(Some(old(View())), w).value && Invariant()
    {
      ghost var c := Some(View());
      for k := 0 to |w|
        invariant Invariant()
        invariant Run(c, w[..k]) == Some(View())
      {
        RunSnoc(c, w[..k], w[k]);
        assert w[..k + 1] == w[..k] + [w[k]];
        assert w == w[..k + 1] + w[k + 1..];
        RunConcat(c, w[..k + 1], w[k + 1..]);
        ok := PushByte(w[k]);
        if !ok { return; }
      }
      assert w[..|w|] == w;
      ok := true;
    }
  }
}
