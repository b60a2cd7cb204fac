/** Pulling tool-call blocks out of a completion. */
module ToolCalls {
  import opened Bytes
  import opened Search
  import opened JsonParser
  import opened JsonAccess
  import opened Braces
  import P = JsonPrinter
  import A = JsonAgreement

  /** `<tool_call>` and `</tool_call>`. */
  const OPEN: seq<Byte> := [0x3C, 0x74, 0x6F, 0x6F, 0x6C, 0x5F, 0x63, 0x61, 0x6C, 0x6C, 0x3E]
  const CLOSE: seq<Byte> := [0x3C, 0x2F, 0x74, 0x6F, 0x6F, 0x6C, 0x5F, 0x63, 0x61, 0x6C, 0x6C, 0x3E]

  const NAME: seq<Byte> := [0x6E, 0x61, 0x6D, 0x65]
  const ARGUMENTS: seq<Byte> := [0x61, 0x72, 0x67, 0x75, 0x6D, 0x65, 0x6E, 0x74, 0x73]
  const FUNCTION: seq<Byte> := [0x66, 0x75, 0x6E, 0x63, 0x74, 0x69, 0x6F, 0x6E]

  /** The wire shape of a call; missing arguments become an empty object. */
  function Wrapped(j: Json): Json
    requires StrOf(j, NAME).Some?
  {
    var args := match Get(j, ARGUMENTS) case Some(v) => v case None => JObj([]);
    JObj([Member(FUNCTION, JObj([Member(NAME, JStr(StrOf(j, NAME).value)), Member(ARGUMENTS, args)]))])
  }

  /** `c` is the call that `j` asks for, in the shape it is answered in: the name is the string under
      the first "name" of `j`, the arguments are what stands under its first "arguments", whatever that
      is, and the empty object only when there is none. */
  predicate CallFor(j: Json, c: Json) {
    && c.JObj? && |c.members| == 1 && c.members[0].key == FUNCTION && c.members[0].val.JObj?
    && var f := c.members[0].val.members;
       |f| == 2 && f[0].key == NAME && f[0].val.JStr? && IsMember(j, NAME, f[0].val)
       && f[1].key == ARGUMENTS
       && (IsMember(j, ARGUMENTS, f[1].val) || (Lacks(j, ARGUMENTS) && f[1].val == JObj([])))
  }

  lemma WrappedFor(j: Json)
    requires StrOf(j, NAME).Some?
    ensures CallFor(j, Wrapped(j))
  {
    hide IsMember, Lacks, Get;
    GetIsFirst(j, NAME, JStr(StrOf(j, NAME).value));
    if Get(j, ARGUMENTS).Some? { GetIsFirst(j, ARGUMENTS, Get(j, ARGUMENTS).value); } else { GetLacks(j, ARGUMENTS); }
  }

  /** The tags and the keys, spelled out. */
  lemma Spelled()
    ensures OPEN == Ascii("<tool_call>") && CLOSE == Ascii("</tool_call>")
    ensures NAME == Ascii("name") && ARGUMENTS == Ascii("arguments") && FUNCTION == Ascii("function")
  {
  }

  /** The call inside a block, if what stands there is one. */
  function CallOf(inner: seq<Byte>): Option<Json> {
    match Parse(Trim(inner))
    case Ok(j) => if StrOf(j, NAME).Some? then Some(Wrapped(j)) else None
    case Err(_) => None
  }

  /** A completion cut up: prose, and blocks that were calls. */
  datatype Piece = Prose(text: seq<Byte>) | Block(text: seq<Byte>, call: Json)

  /** How far the next open tag reaches: the piece it ends, and what is left. */
  function NextPieces(rest: seq<Byte>, o: nat): (r: (seq<Piece>, seq<Byte>))
    requires o + |OPEN| <= |rest|
    ensures |r.1| < |rest|
  {
    var after := rest[o + |OPEN|..];
    var c := Find(after, CLOSE);
    if c.Some? then
      var block := rest[o..o + |OPEN| + c.value + |CLOSE|];
      var call := CallOf(after[..c.value]);
      (if call.Some? then [Prose(rest[..o]), Block(block, call.value)] else [Prose(rest[..o] + block)],
       after[c.value + |CLOSE|..])
    else
      var end := BalancedEnd(after);
      var call := if end.Some? then CallOf(after[..end.value]) else None;
      if call.Some? then
        ([Prose(rest[..o]), Block(rest[o..o + |OPEN| + end.value], call.value)], after[end.value..])
      else ([Prose(rest[..o + |OPEN|])], after)
  }

  function Pieces(rest: seq<Byte>): seq<Piece>
    decreases |rest|
  {
    var o := Find(rest, OPEN);
    if o.None? then [Prose(rest)]
    else
      var n := NextPieces(rest, o.value);
      n.0 + Pieces(n.1)
  }

  function ProseOf(ps: seq<Piece>): seq<Byte> {
    if ps == [] then [] else (if ps[0].Prose? then ps[0].text else []) + ProseOf(ps[1..])
  }

  function CallsOf(ps: seq<Piece>): seq<Json> {
    if ps == [] then [] else (if ps[0].Block? then [ps[0].call] else []) + CallsOf(ps[1..])
  }

  /** All text of the pieces in order. */
  function AllText(ps: seq<Piece>): seq<Byte> { if ps == [] then [] else ps[0].text + AllText(ps[1..]) }

  // ---------------------------------------------------------------- the loop

  method ExtractToolCalls(full: seq<Byte>) returns (text: seq<Byte>, calls: seq<Json>)
    ensures text == Trim(ProseOf(Pieces(full))) && calls == CallsOf(Pieces(full))
  {
    hide NextPieces, ProseOf, CallsOf;
    text, calls := [], [];
    var rest := full;
    while true
      invariant ProseOf(Pieces(full)) == text + ProseOf(Pieces(rest))
      invariant CallsOf(Pieces(full)) == calls + CallsOf(Pieces(rest))
      decreases |rest|
    {
      var o := Find(rest, OPEN);
      if o.None? { break; }
      ghost var n := NextPieces(rest, o.value);
      ConcatPieces(n.0, Pieces(n.1));
      var t, cs;
      t, cs, rest := TakeBlock(rest, o.value);
      text, calls := text + t, calls + cs;
    }
    OnlyProse(rest);
    text := Trim(text + rest);
  }

  /** One open tag: the text kept, the call found, and what is left. */
  method TakeBlock(rest: seq<Byte>, o: nat) returns (text: seq<Byte>, calls: seq<Json>, left: seq<Byte>)
    requires o + |OPEN| <= |rest|
    ensures var n := NextPieces(rest, o); text == ProseOf(n.0) && calls == CallsOf(n.0) && left == n.1
  {
    hide CallOf, Find, BalancedEnd;
    var after := rest[o + |OPEN|..];
    var c := Find(after, CLOSE);
    if c.Some? {
      var call := CallOf(after[..c.value]);
      if call.Some? {
        text, calls := rest[..o], [call.value];
      } else {
        text, calls := rest[..o + |OPEN| + c.value + |CLOSE|], [];
        assert text == rest[..o] + rest[o..o + |OPEN| + c.value + |CLOSE|];
      }
      left := after[c.value + |CLOSE|..];
    } else {
      var end := BalancedJsonEnd(after);
      var call := if end.Some? then CallOf(after[..end.value]) else None;
      if call.Some? {
        text, calls, left := rest[..o], [call.value], after[end.value..];
      } else {
        text, calls, left := rest[..o + |OPEN|], [], after;
      }
    }
    ghost var n := NextPieces(rest, o);
    TwoPieces(n.0);
  }

  lemma TwoPieces(ps: seq<Piece>)
    requires 1 <= |ps| <= 2 && ps[0].Prose? && (|ps| == 2 ==> ps[1].Block?)
    ensures ProseOf(ps) == ps[0].text && CallsOf(ps) == if |ps| == 2 then [ps[1].call] else []
  {
    if |ps| == 2 {
      assert ps[1..][1..] == [];
      assert ProseOf(ps[1..]) == [] && CallsOf(ps[1..]) == [ps[1].call];
    } else {
      assert ps[1..] == [];
    }
  }

  lemma FirstPiece(ps: seq<Piece>)
    requires ps != []
    ensures ProseOf(ps) == (if ps[0].Prose? then ps[0].text else []) + ProseOf(ps[1..])
    ensures CallsOf(ps) == (if ps[0].Block? then [ps[0].call] else []) + CallsOf(ps[1..])
    ensures AllText(ps) == ps[0].text + AllText(ps[1..])
  {
  }

  lemma Assoc<T>(a: seq<T>, b: seq<T>, c: seq<T>)
    ensures a + b + c == a + (b + c)
  {
  }

  lemma {:induction false} ConcatPieces(a: seq<Piece>, b: seq<Piece>)
    ensures ProseOf(a + b) == ProseOf(a) + ProseOf(b) && CallsOf(a + b) == CallsOf(a) + CallsOf(b)
    decreases |a|
  {
    if a == [] {
      assert a + b == b;
    } else {
      hide ProseOf, CallsOf, AllText;
      assert (a + b)[1..] == a[1..] + b && (a + b)[0] == a[0];
      FirstPiece(a + b);
      FirstPiece(a);
      ConcatPieces(a[1..], b);
      Assoc(if a[0].Prose? then a[0].text else [], ProseOf(a[1..]), ProseOf(b));
      Assoc(if a[0].Block? then [a[0].call] else [], CallsOf(a[1..]), CallsOf(b));
    }
  }

  lemma {:induction false} ConcatText(a: seq<Piece>, b: seq<Piece>)
    ensures AllText(a + b) == AllText(a) + AllText(b)
    decreases |a|
  {
    if a == [] {
      assert a + b == b;
    } else {
      hide ProseOf, CallsOf, AllText;
      assert (a + b)[1..] == a[1..] + b && (a + b)[0] == a[0];
      FirstPiece(a + b);
      FirstPiece(a);
      ConcatText(a[1..], b);
      Assoc(a[0].text, AllText(a[1..]), AllText(b));
    }
  }

  lemma OnlyProse(rest: seq<Byte>)
    requires Find(rest, OPEN).None?
    ensures ProseOf(Pieces(rest)) == rest && CallsOf(Pieces(rest)) == []
  {
    assert [Prose(rest)][1..] == [];
  }

  // ---------------------------------------------------------------- nothing else is lost

  /** Trimmed, `inner` is the text of a call, and `c` is that call. */
  ghost predicate Holds(inner: seq<Byte>, c: Json) {
    Parse(Trim(inner)).Ok? && CallFor(Parse(Trim(inner)).value, c)
  }

  /** A removed block is an open tag, a call, and at most a close tag. */
  ghost predicate IsCallBlock(p: Piece) {
    p.Block? ==>
      exists inner: seq<Byte> :: Holds(inner, p.call) && (p.text == OPEN + inner + CLOSE || p.text == OPEN + inner)
  }

  lemma CallHolds(inner: seq<Byte>)
    requires CallOf(inner).Some?
    ensures Holds(inner, CallOf(inner).value)
  {
    hide CallFor, Wrapped, Trim, Parse;
    WrappedFor(Parse(Trim(inner)).value);
  }

  lemma ClosedBlock(rest: seq<Byte>, o: nat, c: nat)
    requires o + |OPEN| + c + |CLOSE| <= |rest| && rest[o..o + |OPEN|] == OPEN
    requires rest[o + |OPEN|..][c..c + |CLOSE|] == CLOSE
    ensures rest[o..o + |OPEN| + c + |CLOSE|] == OPEN + rest[o + |OPEN|..][..c] + CLOSE
  {
    var i := o + |OPEN|;
    assert rest[i + c..i + c + |CLOSE|] == CLOSE;
    assert rest[o..i + c + |CLOSE|] == rest[o..i] + rest[i..i + c] + rest[i + c..i + c + |CLOSE|];
  }

  lemma OpenBlock(rest: seq<Byte>, o: nat, e: nat)
    requires o + |OPEN| + e <= |rest| && rest[o..o + |OPEN|] == OPEN
    ensures rest[o..o + |OPEN| + e] == OPEN + rest[o + |OPEN|..][..e]
  {
    assert rest[o..o + |OPEN| + e] == rest[o..o + |OPEN|] + rest[o + |OPEN|..o + |OPEN| + e];
  }

  lemma NextKeeps(rest: seq<Byte>, o: nat)
    requires Find(rest, OPEN) == Some(o)
    ensures var n := NextPieces(rest, o);
            AllText(n.0) + n.1 == rest && forall k :: 0 <= k < |n.0| ==> IsCallBlock(n.0[k])
  {
    hide CallOf, Find, BalancedEnd, AllText, NextPieces, IsCallBlock;
    var n := NextPieces(rest, o);
    NextText(rest, o);
    NextBlocks(rest, o);
    TwoTexts(n.0);
  }

  lemma CutInThree(rest: seq<Byte>, o: nat, e: nat)
    requires o <= e <= |rest|
    ensures rest[..o] + rest[o..e] + rest[e..] == rest && rest[..e] + rest[e..] == rest
    ensures rest[..o] + rest[o..e] == rest[..e]
  {
  }

  lemma NextText(rest: seq<Byte>, o: nat)
    requires o + |OPEN| <= |rest|
    ensures var n := NextPieces(rest, o);
            1 <= |n.0| <= 2 && (if |n.0| == 2 then n.0[0].text + n.0[1].text else n.0[0].text) + n.1 == rest
  {
    hide CallOf, Find, BalancedEnd;
    var i := o + |OPEN|;
    var after := rest[i..];
    var c := Find(after, CLOSE);
    var end := BalancedEnd(after);
    if c.Some? {
      assert after[c.value + |CLOSE|..] == rest[i + c.value + |CLOSE|..];
      CutInThree(rest, o, i + c.value + |CLOSE|);
    } else if end.Some? {
      assert after[end.value..] == rest[i + end.value..];
      CutInThree(rest, o, i + end.value);
    }
    CutInThree(rest, o, i);
  }

  lemma NextBlocks(rest: seq<Byte>, o: nat)
    requires Find(rest, OPEN) == Some(o)
    ensures forall k :: 0 <= k < |NextPieces(rest, o).0| ==> IsCallBlock(NextPieces(rest, o).0[k])
  {
    hide CallOf, Find, BalancedEnd, Holds;
    var after := rest[o + |OPEN|..];
    assert rest[o..o + |OPEN|] == OPEN;
    var c := Find(after, CLOSE);
    if c.Some? {
      ClosedBlock(rest, o, c.value);
      if CallOf(after[..c.value]).Some? { CallHolds(after[..c.value]); }
    } else {
      var end := BalancedEnd(after);
      if end.Some? {
        OpenBlock(rest, o, end.value);
        if CallOf(after[..end.value]).Some? { CallHolds(after[..end.value]); }
      }
    }
  }

  lemma TwoTexts(ps: seq<Piece>)
    requires 1 <= |ps| <= 2
    ensures AllText(ps) == if |ps| == 2 then ps[0].text + ps[1].text else ps[0].text
  {
    if |ps| == 2 {
      assert ps[1..][1..] == [];
      assert AllText(ps[1..]) == ps[1].text;
    } else {
      assert ps[1..] == [];
    }
  }

  /** The pieces are the whole completion in order, and only call blocks are taken out of the text. */
  lemma {:induction false} NothingElseLost(full: seq<Byte>)
    ensures AllText(Pieces(full)) == full && forall k :: 0 <= k < |Pieces(full)| ==> IsCallBlock(Pieces(full)[k])
    decreases |full|
  {
    hide NextPieces, IsCallBlock;
    var o := Find(full, OPEN);
    if o.None? {
      assert [Prose(full)][1..] == [];
      assert IsCallBlock(Prose(full)) by { ProseIsNoBlock(full); }
    } else {
      var n := NextPieces(full, o.value);
      NextKeeps(full, o.value);
      NothingElseLost(n.1);
      ConcatText(n.0, Pieces(n.1));
    }
  }

  lemma ProseIsNoBlock(t: seq<Byte>)
    ensures IsCallBlock(Prose(t))
  {
  }

  // ---------------------------------------------------------------- calls a model writes

  /** A tag starts with the only `<` it has. */
  predicate IsTag(tag: seq<Byte>) { |tag| > 1 && forall k :: 1 <= k < |tag| ==> tag[k] != tag[0] }

  /** A tag that begins before the end of a text without it and reaches past it would repeat its first
      byte. */
  lemma NotBefore(a: seq<Byte>, tag: seq<Byte>, b: seq<Byte>, k: nat)
    requires IsTag(tag) && k < |a| && !(tag <= a[k..])
    ensures !(tag <= (a + tag + b)[k..])
  {
    var t := a + tag + b;
    if k + |tag| > |a| {
      assert t[k..][|a| - k] == tag[0];
    } else {
      assert t[k..][..|tag|] == a[k..][..|tag|];
    }
  }

  /** A tag after text without it is found where it stands. */
  lemma TagFound(a: seq<Byte>, tag: seq<Byte>, b: seq<Byte>)
    requires IsTag(tag) && Find(a, tag).None?
    ensures Find(a + tag + b, tag) == Some(|a|)
  {
    var t := a + tag + b;
    forall k | 0 <= k < |a| ensures !(tag <= t[k..]) { NotBefore(a, tag, b, k); }
    assert t[|a|..][..|tag|] == tag;
    FoundAt(t, tag, |a|);
  }

  lemma {:induction false} FindExtends(a: seq<Byte>, tag: seq<Byte>, b: seq<Byte>)
    requires Find(a, tag).Some?
    ensures Find(a + b, tag) == Find(a, tag)
    decreases |a|
  {
    if tag <= a {
      assert tag <= a + b;
    } else if a != [] {
      assert (a + b)[1..] == a[1..] + b;
      FindExtends(a[1..], tag, b);
      NotEarlier(a, tag, b);
    }
  }

  lemma NotEarlier(a: seq<Byte>, tag: seq<Byte>, b: seq<Byte>)
    requires Find(a, tag).Some? && !(tag <= a)
    ensures !(tag <= a + b)
  {
    var p := Find(a, tag).value;
    assert |tag| <= |a|;
    assert (a + b)[..|tag|] == a[..|tag|];
  }

  /** Trimmed, the text is that of an object that names itself with a string. */
  predicate IsCallText(inner: seq<Byte>) {
    Parse(Trim(inner)).Ok? && StrOf(Parse(Trim(inner)).value, NAME).Some?
  }

  /** The calls found begin with the one in `inner`, and go on with `rest`. */
  predicate CallThen(calls: seq<Json>, inner: seq<Byte>, rest: seq<Json>)
    requires IsCallText(inner)
  {
    calls != [] && CallFor(Parse(Trim(inner)).value, calls[0]) && calls[1..] == rest
  }

  lemma CallTextHolds(inner: seq<Byte>, rest: seq<Json>)
    ensures IsCallText(inner) <==> CallOf(inner).Some?
    ensures IsCallText(inner) ==> CallThen([CallOf(inner).value] + rest, inner, rest)
  {
    hide Parse, Wrapped, CallFor;
    if IsCallText(inner) { WrappedFor(Parse(Trim(inner)).value); }
  }

  lemma CutBlockOut(prose: seq<Byte>, inner: seq<Byte>, next: seq<Byte>)
    ensures var full, o, c := prose + OPEN + inner + CLOSE + next, |prose| + |OPEN|, |inner|;
            full == prose + OPEN + (inner + CLOSE + next) && full[..|prose|] == prose
            && full[o..] == inner + CLOSE + next && full[o..][..c] == inner && full[o..][c + |CLOSE|..] == next
            && full[|prose|..o + c + |CLOSE|] == OPEN + inner + CLOSE
  {
    var full, after := prose + OPEN + inner + CLOSE + next, inner + CLOSE + next;
    assert full == prose + OPEN + after;
    assert full[|prose| + |OPEN|..] == after;
  }

  lemma ClosedNext(prose: seq<Byte>, inner: seq<Byte>, next: seq<Byte>)
    requires Find(prose, OPEN).None? && Find(inner, CLOSE).None?
    ensures var full := prose + OPEN + inner + CLOSE + next;
            Find(full, OPEN) == Some(|prose|) && |prose| + |OPEN| <= |full|
            && var call := CallOf(inner);
               NextPieces(full, |prose|)
               == (if call.Some? then [Prose(prose), Block(OPEN + inner + CLOSE, call.value)]
                   else [Prose(prose + (OPEN + inner + CLOSE))],
                   next)
  {
    hide CallOf, Find, BalancedEnd;
    CutBlockOut(prose, inner, next);
    TagFound(prose, OPEN, inner + CLOSE + next);
    TagFound(inner, CLOSE, next);
  }

  /** Prose, a block in its tags, and whatever comes next: a call leaves the text, anything else stays. */
  lemma ClosedStep(prose: seq<Byte>, inner: seq<Byte>, next: seq<Byte>)
    requires Find(prose, OPEN).None? && Find(inner, CLOSE).None?
    ensures var ps, rest := Pieces(prose + OPEN + inner + CLOSE + next), Pieces(next);
            if IsCallText(inner)
            then ProseOf(ps) == prose + ProseOf(rest) && CallThen(CallsOf(ps), inner, CallsOf(rest))
            else ProseOf(ps) == prose + OPEN + inner + CLOSE + ProseOf(rest) && CallsOf(ps) == CallsOf(rest)
  {
    hide *;
    var full := prose + OPEN + inner + CLOSE + next;
    ClosedNext(prose, inner, next);
    PiecesStep(full, |prose|);
    var n := NextPieces(full, |prose|);
    TwoPieces(n.0);
    ConcatPieces(n.0, Pieces(n.1));
    CallTextHolds(inner, CallsOf(Pieces(next)));
    KeptBlock(Tagged(prose, inner), ProseOf(Pieces(next)));
    Assoc(prose, OPEN, inner + CLOSE);
    Assoc(OPEN, inner, CLOSE);
    Assoc(prose, OPEN, inner);
  }

  lemma PiecesStep(rest: seq<Byte>, o: nat)
    requires Find(rest, OPEN) == Some(o)
    ensures var n := NextPieces(rest, o); Pieces(rest) == n.0 + Pieces(n.1)
  {
    hide NextPieces, Find;
  }

  /** A block between its tags, after prose without tags. */
  datatype Tagged = Tagged(prose: seq<Byte>, inner: seq<Byte>)

  predicate AllTagged(xs: seq<Tagged>) {
    forall k :: 0 <= k < |xs| ==> Find(xs[k].prose, OPEN).None? && Find(xs[k].inner, CLOSE).None?
  }

  /** A completion whose open tags are all closed. */
  function Marked(xs: seq<Tagged>, tail: seq<Byte>): seq<Byte> {
    if xs == [] then tail else xs[0].prose + OPEN + xs[0].inner + CLOSE + Marked(xs[1..], tail)
  }

  /** One call for each block that is the text of a call, in order. */
  predicate CallsFor(xs: seq<Tagged>, calls: seq<Json>)
    decreases |xs|
  {
    if xs == [] then calls == []
    else if IsCallText(xs[0].inner) then
      calls != [] && CallFor(Parse(Trim(xs[0].inner)).value, calls[0]) && CallsFor(xs[1..], calls[1..])
    else CallsFor(xs[1..], calls)
  }

  /** The prose, with the blocks that are not calls. */
  function ProseIn(xs: seq<Tagged>, tail: seq<Byte>): seq<Byte> {
    if xs == [] then tail
    else xs[0].prose + (if IsCallText(xs[0].inner) then [] else OPEN + xs[0].inner + CLOSE) + ProseIn(xs[1..], tail)
  }

  /** From any completion whose open tags are closed: a call for each block that is one, in order, and
      everything else as text. */
  lemma {:induction false} CallsExtracted(xs: seq<Tagged>, tail: seq<Byte>)
    requires AllTagged(xs) && Find(tail, OPEN).None?
    ensures ProseOf(Pieces(Marked(xs, tail))) == ProseIn(xs, tail)
    ensures CallsFor(xs, CallsOf(Pieces(Marked(xs, tail))))
    decreases |xs|
  {
    hide Find, Pieces, ProseOf, CallsOf, IsCallText, CallFor;
    if xs == [] {
      OnlyProse(tail);
    } else {
      CallsExtracted(xs[1..], tail);
      ClosedStep(xs[0].prose, xs[0].inner, Marked(xs[1..], tail));
      KeptBlock(xs[0], ProseIn(xs[1..], tail));
    }
  }

  lemma KeptBlock(x: Tagged, rest: seq<Byte>)
    ensures x.prose + (OPEN + x.inner + CLOSE) + rest == x.prose + OPEN + x.inner + CLOSE + rest
    ensures x.prose + [] + rest == x.prose + rest
  {
  }

  /** An open tag with no closing tag after it and no call behind it stays, and the search goes on. */
  lemma StrayStep(prose: seq<Byte>, after: seq<Byte>)
    requires Find(prose, OPEN).None? && Find(after, CLOSE).None?
    requires BalancedEnd(after).Some? ==> !IsCallText(after[..BalancedEnd(after).value])
    ensures var ps, rest := Pieces(prose + OPEN + after), Pieces(after);
            ProseOf(ps) == prose + OPEN + ProseOf(rest) && CallsOf(ps) == CallsOf(rest)
  {
    hide CallOf, Find, BalancedEnd, Pieces, ProseOf, CallsOf, IsCallText;
    var full := prose + OPEN + after;
    TagFound(prose, OPEN, after);
    assert full[|prose| + |OPEN|..] == after && full[..|prose| + |OPEN|] == prose + OPEN;
    PiecesStep(full, |prose|);
    var n := NextPieces(full, |prose|);
    if BalancedEnd(after).Some? { CallTextHolds(after[..BalancedEnd(after).value], []); }
    TwoPieces(n.0);
    ConcatPieces(n.0, Pieces(n.1));
  }

  /** A call as a model writes it without closing it: space, then the text of an object with a name. */
  predicate WrittenOk(pre: seq<Byte>, w: seq<Byte>) {
    AllSpace(pre) && ObjectText(w) && !IsSpace(w[|w| - 1]) && StrOf(Parse(w).value, NAME).Some?
  }

  lemma WrittenIsCall(pre: seq<Byte>, w: seq<Byte>)
    requires WrittenOk(pre, w)
    ensures IsCallText(pre + w) && Trim(pre + w) == w
  {
    hide Parse;
    assert pre + w + [] == pre + w;
    TrimAround(pre, w, []);
  }

  /** A call whose closing tag is missing: the object after the tag is still the call, and the search
      goes on behind it. */
  lemma UnclosedCall(prose: seq<Byte>, pre: seq<Byte>, w: seq<Byte>, left: seq<Byte>)
    requires WrittenOk(pre, w) && Find(prose, OPEN).None? && Find(pre + w + left, CLOSE).None?
    ensures Parse(w).Ok?
    ensures var ps, rest := Pieces(prose + OPEN + pre + w + left), Pieces(left);
            ProseOf(ps) == prose + ProseOf(rest)
            && CallsOf(ps) != [] && CallFor(Parse(w).value, CallsOf(ps)[0]) && CallsOf(ps)[1..] == CallsOf(rest)
  {
    hide CallOf, Find, BalancedEnd, Pieces, ProseOf, CallsOf, Parse, CallFor;
    var after := pre + w + left;
    var full := prose + OPEN + pre + w + left;
    assert full == prose + OPEN + after;
    TagFound(prose, OPEN, after);
    assert full[|prose| + |OPEN|..] == after && full[..|prose|] == prose;
    SpaceHasNoBrace(pre);
    ParsedEnds(pre, w, left);
    var e := |pre| + |w|;
    assert after[..e] == pre + w && after[e..] == left;
    WrittenIsCall(pre, w);
    CallTextHolds(pre + w, CallsOf(Pieces(left)));
    PiecesStep(full, |prose|);
    var n := NextPieces(full, |prose|);
    TwoPieces(n.0);
    ConcatPieces(n.0, Pieces(n.1));
  }

  lemma SpaceHasNoBrace(s: seq<Byte>)
    requires AllSpace(s)
    ensures NoBrace(s)
  {
  }

  /** A printed call is a text the extractor can read. */
  lemma DumpIsObject(j: Json)
    requires P.Dumpable(j) && j.JObj? && A.Height(j) <= MAX_DEPTH
    ensures var d := P.Dump(j); ObjectText(d) && Parse(d) == Ok(j) && !IsSpace(d[|d| - 1])
  {
    hide Parse, A.Height, P.DumpMembers;
    A.RoundTrip(j);
  }

  lemma {:induction false} TailHasNone(a: seq<Byte>, b: seq<Byte>, tag: seq<Byte>)
    requires Find(a + b, tag).None?
    ensures Find(b, tag).None?
    decreases |a|
  {
    if a == [] {
      assert a + b == b;
    } else {
      assert (a + b)[1..] == a[1..] + b;
      assert Find((a + b)[1..], tag).None?;
      TailHasNone(a[1..], b, tag);
    }
  }

  /** A printed call between tags, in prose without tags, comes out as that one call if and only if
      its own text does not contain the closing tag; otherwise everything stays in the text. */
  lemma ClosedCallExactly(prose: seq<Byte>, j: Json, tail: seq<Byte>)
    requires P.Dumpable(j) && j.JObj? && A.Height(j) <= MAX_DEPTH && StrOf(j, NAME).Some?
    requires Find(prose, OPEN).None? && Find(P.Dump(j) + CLOSE + tail, OPEN).None?
    ensures var ps := Pieces(prose + OPEN + P.Dump(j) + CLOSE + tail);
            if Find(P.Dump(j), CLOSE).None?
            then ProseOf(ps) == prose + tail && |CallsOf(ps)| == 1 && CallFor(j, CallsOf(ps)[0])
            else ProseOf(ps) == prose + OPEN + P.Dump(j) + CLOSE + tail && CallsOf(ps) == []
  {
    hide Find, Pieces, ProseOf, CallsOf, Parse, Wrapped, A.Height, P.Dump, CallFor;
    var d := P.Dump(j);
    DumpIsObject(j);
    if Find(d, CLOSE).None? {
      WrittenIsCall([], d);
      assert [] + d == d;
      ClosedStep(prose, d, tail);
      TailHasNone(d + CLOSE, tail, OPEN);
      OnlyProse(tail);
    } else {
      assert d + (CLOSE + tail) == d + CLOSE + tail;
      CutShort(prose, d, CLOSE + tail);
      assert prose + OPEN + d + CLOSE + tail == prose + OPEN + (d + (CLOSE + tail));
    }
  }

  /** Visible bytes are printed as they are. */
  lemma {:induction false} PlainBytes(s: seq<Byte>)
    requires forall k :: 0 <= k < |s| ==> s[k] >= 0x20 && s[k] != QUOTE && s[k] != BACKSLASH
    ensures P.EscapeBytes(s) == s
    decreases |s|
  {
    if s != [] {
      PlainBytes(s[1..]);
      assert s == [s[0]] + s[1..];
    }
  }

  /** A call named `</tool_call>`. */
  const AWKWARD: Json := JObj([Member(NAME, JStr(CLOSE))])

  lemma AwkwardDump()
    ensures P.Dumpable(AWKWARD)
    ensures P.Dump(AWKWARD) == [LBRACE, QUOTE] + NAME + [QUOTE, COLON, QUOTE] + CLOSE + [QUOTE, RBRACE]
  {
    var m := Member(NAME, JStr(CLOSE));
    PlainName();
    PlainClose();
    hide P.EscapeBytes;
    assert P.Dumpable(JStr(CLOSE)) && P.DumpableMember(m);
    assert P.DumpMember(m) == [QUOTE] + NAME + [QUOTE] + [COLON] + ([QUOTE] + CLOSE + [QUOTE]);
    assert P.DumpMembers([m], 1) == [];
    assert P.DumpMembers([m], 0) == [] + P.DumpMember(m) + [];
  }

  lemma PlainName()
    ensures P.EscapeBytes(NAME) == NAME
  {
    hide P.EscapeBytes;
    PlainBytes(NAME);
  }

  lemma PlainClose()
    ensures P.EscapeBytes(CLOSE) == CLOSE
  {
    hide P.EscapeBytes;
    PlainBytes(CLOSE);
  }

  lemma AwkwardShape()
    ensures A.Height(AWKWARD) == 1 && StrOf(AWKWARD, NAME) == Some(CLOSE)
  {
    var ms := AWKWARD.members;
    assert A.Height(ms[0].val) == 0 && A.MembersHeight(ms, 1) == 0;
  }

  lemma AwkwardHasNoOpen()
    ensures Find(P.Dump(AWKWARD) + CLOSE + [], OPEN).None? && Find([], OPEN).None?
  {
    hide Find, P.Dump;
    AwkwardDump();
    NoOpenTag(P.Dump(AWKWARD) + CLOSE + []);
    NoOpenTag([]);
  }

  lemma AwkwardHasClose()
    ensures Find(P.Dump(AWKWARD), CLOSE).Some?
  {
    hide P.Dump;
    AwkwardDump();
    var i := |[LBRACE, QUOTE] + NAME + [QUOTE, COLON, QUOTE]|;
    assert CLOSE <= P.Dump(AWKWARD)[i..];
  }

  /** It is a call like any other, and its own text contains the closing tag: nothing is extracted. */
  lemma AwkwardCallIsLost()
    ensures P.Dumpable(AWKWARD) && A.Height(AWKWARD) == 1 && StrOf(AWKWARD, NAME).Some?
    ensures Find(P.Dump(AWKWARD), CLOSE).Some?
    ensures var full := OPEN + P.Dump(AWKWARD) + CLOSE;
            ProseOf(Pieces(full)) == full && CallsOf(Pieces(full)) == []
  {
    hide Find, Pieces, ProseOf, CallsOf, P.Dump, A.Height, StrOf;
    AwkwardShape();
    AwkwardHasClose();
    AwkwardHasNoOpen();
    ClosedCallExactly([], AWKWARD, []);
    assert [] + OPEN + P.Dump(AWKWARD) + CLOSE + [] == OPEN + P.Dump(AWKWARD) + CLOSE;
  }

  lemma OpenBegins(s: seq<Byte>)
    requires Find(s, OPEN).Some?
    ensures exists k :: 0 <= k < |s| - 1 && s[k] == OPEN[0] && s[k + 1] == OPEN[1]
  {
    hide Find;
    var p := Find(s, OPEN).value;
    assert s[p..p + |OPEN|][0] == OPEN[0] && s[p..p + |OPEN|][1] == OPEN[1];
  }

  /** No open tag without a `<` followed by a `t`. */
  lemma NoOpenTag(s: seq<Byte>)
    requires forall k :: 0 <= k < |s| - 1 && s[k] == OPEN[0] ==> s[k + 1] != OPEN[1]
    ensures Find(s, OPEN).None?
  {
    hide Find;
    if Find(s, OPEN).Some? { OpenBegins(s); }
  }

  /** The closing tag inside the call's own text ends the block too early: it stays prose. */
  lemma CutBlock(prose: seq<Byte>, w: seq<Byte>, rest: seq<Byte>)
    requires ObjectText(w) && Find(w, CLOSE).Some? && Find(w + rest, OPEN).None?
    ensures var n := NextPieces(prose + OPEN + (w + rest), |prose|);
            |n.0| == 1 && n.0[0].Prose? && Find(n.1, OPEN).None?
  {
    hide Find, Parse, Wrapped, BalancedEnd, ObjectText;
    var c := Find(w, CLOSE).value;
    var after := w + rest;
    var full := prose + OPEN + after;
    assert full[|prose| + |OPEN|..] == after;
    FindExtends(w, CLOSE, rest);
    FoundInside(w, CLOSE);
    assert after[..c] == w[..c];
    PrefixIsNoObject(w, c);
    assert after == after[..c + |CLOSE|] + after[c + |CLOSE|..];
    TailHasNone(after[..c + |CLOSE|], after[c + |CLOSE|..], OPEN);
  }

  lemma CutShort(prose: seq<Byte>, w: seq<Byte>, rest: seq<Byte>)
    requires ObjectText(w) && Find(w, CLOSE).Some? && Find(prose, OPEN).None? && Find(w + rest, OPEN).None?
    ensures var full := prose + OPEN + (w + rest);
            ProseOf(Pieces(full)) == full && CallsOf(Pieces(full)) == []
  {
    hide Find, Pieces, ProseOf, CallsOf, AllText, NextPieces, ObjectText, IsCallBlock;
    var full := prose + OPEN + (w + rest);
    TagFound(prose, OPEN, w + rest);
    CutBlock(prose, w, rest);
    PiecesStep(full, |prose|);
    var n := NextPieces(full, |prose|);
    TwoPieces(n.0);
    ConcatPieces(n.0, Pieces(n.1));
    OnlyProse(n.1);
    NextKeeps(full, |prose|);
    TwoTexts(n.0);
  }

  lemma FoundInside(w: seq<Byte>, tag: seq<Byte>)
    requires Find(w, tag).Some? && tag != []
    ensures Find(w, tag).value < |w|
  {
  }
}
