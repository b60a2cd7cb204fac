/** Cutting text at bytes: every piece the tokenizer cuts out of a valid UTF-8 text is one too, so the
    byte offsets it slices at are character boundaries. */
module Utf8Cuts {
  import opened Bytes
  import opened Search
  import opened ByteLevel

  ghost predicate IsText(b: seq<Byte>) { exists cps: seq<nat> :: TextBytes(cps) == b }

  /** A byte inside a character, after its first. */
  predicate Inner(b: Byte) { 0x80 <= b < 0xC0 }

  /** The length of a character, by its first byte. */
  function LengthOf(b: Byte): nat { if b < 0x80 then 1 else if b < 0xE0 then 2 else if b < 0xF0 then 3 else 4 }

  lemma CharShape(cp: nat)
    ensures var u := Utf8(cp);
            |u| == LengthOf(u[0]) && !Inner(u[0]) && forall k :: 1 <= k < |u| ==> Inner(u[k])
  {
  }

  lemma TextOf(cps: seq<nat>)
    ensures IsText(TextBytes(cps))
  {
  }

  /** A position in front of a byte that starts a character, or at the end, splits the text in two. */
  lemma {:induction false} SplitsAt(cps: seq<nat>, i: nat)
    requires i <= |TextBytes(cps)| && (i < |TextBytes(cps)| ==> !Inner(TextBytes(cps)[i]))
    ensures IsText(TextBytes(cps)[..i]) && IsText(TextBytes(cps)[i..])
    decreases |cps|
  {
    var b := TextBytes(cps);
    if i == 0 {
      assert b[..0] == TextBytes([]) && b[0..] == b;
      TextOf([]);
      TextOf(cps);
    } else {
      hide Utf8;
      var u, rest := Utf8(cps[0]), TextBytes(cps[1..]);
      CharShape(cps[0]);
      assert forall k :: 0 <= k < |u| ==> b[k] == u[k];
      assert i >= |u|;
      assert b[i..] == rest[i - |u|..] && b[..i] == u + rest[..i - |u|];
      assert i < |b| ==> b[i] == rest[i - |u|];
      SplitsAt(cps[1..], i - |u|);
      Prepended(cps[0], rest[..i - |u|]);
    }
  }

  lemma Prepended(cp: nat, b: seq<Byte>)
    requires IsText(b)
    ensures IsText(Utf8(cp) + b)
  {
    var cps: seq<nat> :| TextBytes(cps) == b;
    assert ([cp] + cps)[1..] == cps;
    assert TextBytes([cp] + cps) == Utf8(cp) + b;
  }

  /** After an ASCII byte a character starts. */
  lemma {:induction false} AfterAscii(cps: seq<nat>, i: nat)
    requires i + 1 < |TextBytes(cps)| && TextBytes(cps)[i] < 0x80
    ensures !Inner(TextBytes(cps)[i + 1])
    decreases |cps|
  {
    hide Utf8;
    var b, u, rest := TextBytes(cps), Utf8(cps[0]), TextBytes(cps[1..]);
    CharShape(cps[0]);
    assert forall k :: 0 <= k < |u| ==> b[k] == u[k];
    assert forall k :: |u| <= k < |b| ==> b[k] == rest[k - |u|];
    if i >= |u| {
      AfterAscii(cps[1..], i - |u|);
    } else {
      assert |u| == 1;
      if cps[1..] != [] { CharShape(cps[1]); }
    }
  }

  lemma StartsChar(b: seq<Byte>)
    requires IsText(b) && b != []
    ensures !Inner(b[0])
  {
    var cps: seq<nat> :| TextBytes(cps) == b;
    CharShape(cps[0]);
  }

  /** A cut with an ASCII byte beside it. */
  lemma CutsText(b: seq<Byte>, i: nat)
    requires IsText(b) && i <= |b| && AsciiBeside(b, i)
    ensures IsText(b[..i]) && IsText(b[i..])
  {
    var cps: seq<nat> :| TextBytes(cps) == b;
    if i == 0 {
      if b != [] { StartsChar(b); }
    } else if i < |b| && b[i] >= 0x80 {
      AfterAscii(cps, i - 1);
    }
    SplitsAt(cps, i);
  }

  /** Every piece of the pretokenizer is a text. */
  lemma {:induction false} PiecesAreTexts(b: seq<Byte>, i: nat)
    requires i <= |b| && IsText(b[i..])
    ensures forall k :: 0 <= k < |PreTokens(b, i)| ==> IsText(PreTokens(b, i)[k])
    decreases |b| - i
  {
    hide IsText, PieceEnd;
    if i < |b| {
      var e := PieceEnd(b, i);
      CutsBesideAscii(b, i);
      BesideInRest(b, i, e);
      CutsText(b[i..], e - i);
      assert b[i..][..e - i] == b[i..e] && b[i..][e - i..] == b[e..];
      PiecesAreTexts(b, e);
    }
  }

  lemma BesideInRest(b: seq<Byte>, i: nat, e: nat)
    requires i < e <= |b| && AsciiBeside(b, e)
    ensures AsciiBeside(b[i..], e - i)
  {
  }

  /** The first byte of a character decides where it ends. */
  lemma SameFirst(u: seq<Byte>, a: seq<Byte>, r: seq<Byte>, v: seq<Byte>, b: seq<Byte>)
    requires u != [] && v != [] && |u| == LengthOf(u[0]) && |v| == LengthOf(v[0]) && u + a + r == v + b
    ensures a + r == b
  {
    assert u[0] == (u + a + r)[0] == (v + b)[0] == v[0];
    assert a + r == (u + a + r)[|u|..];
    assert b == (v + b)[|v|..];
  }

  /** What is left of a text after a text in front of it. */
  lemma {:induction false} DropsText(l: seq<nat>, cps: seq<nat>, r: seq<Byte>)
    requires TextBytes(l) + r == TextBytes(cps)
    ensures IsText(r)
    decreases |l|
  {
    if l == [] {
      assert r == TextBytes(cps);
    } else {
      hide Utf8;
      CharShape(l[0]);
      CharShape(cps[0]);
      SameFirst(Utf8(l[0]), TextBytes(l[1..]), r, Utf8(cps[0]), TextBytes(cps[1..]));
      DropsText(l[1..], cps[1..], r);
    }
  }

  /** Around a literal that stands in a text. */
  lemma CutsLiteral(b: seq<Byte>, p: nat, literal: seq<Byte>)
    requires IsText(b) && IsText(literal) && literal != [] && p + |literal| <= |b| && b[p..p + |literal|] == literal
    ensures IsText(b[..p]) && IsText(b[p + |literal|..])
  {
    var cps: seq<nat> :| TextBytes(cps) == b;
    var l: seq<nat> :| TextBytes(l) == literal;
    StartsChar(literal);
    assert b[p] == literal[0];
    SplitsAt(cps, p);
    var rest: seq<nat> :| TextBytes(rest) == b[p..];
    assert b[p..] == literal + b[p + |literal|..];
    DropsText(l, rest, b[p + |literal|..]);
  }

  ghost predicate AllTexts(segs: seq<Segment>) { forall k :: 0 <= k < |segs| ==> IsText(segs[k].text) }

  lemma {:induction false} SplitTexts(text: seq<Byte>, literal: seq<Byte>)
    requires IsText(text) && IsText(literal) && literal != []
    ensures AllTexts(Split(text, literal))
    decreases |text|
  {
    hide IsText, Find;
    var p := Find(text, literal);
    if p.Some? {
      CutsLiteral(text, p.value, literal);
      SplitTexts(text[p.value + |literal|..], literal);
    }
  }

  lemma {:induction false} SplitAllTexts(segs: seq<Segment>, literal: seq<Byte>)
    requires AllTexts(segs) && IsText(literal) && literal != []
    ensures AllTexts(SplitAll(segs, literal))
    decreases |segs|
  {
    hide IsText, Split;
    if segs != [] {
      if !segs[0].special { SplitTexts(segs[0].text, literal); }
      SplitAllTexts(segs[1..], literal);
    }
  }

  /** Every segment between and at the specials is a text. */
  lemma {:induction false} SegmentsAreTexts(text: seq<Byte>, specials: seq<seq<Byte>>, k: nat)
    requires NoEmptyLiteral(specials) && k <= |specials| && IsText(text)
    requires forall i :: 0 <= i < |specials| ==> IsText(specials[i])
    ensures AllTexts(Segments(text, specials, k))
  {
    hide IsText, SplitAll;
    if k > 0 {
      SegmentsAreTexts(text, specials, k - 1);
      SplitAllTexts(Segments(text, specials, k - 1), specials[k - 1]);
    }
  }

  /** Encoding never slices a text inside a character: neither where specials are cut out nor where
      what stands between them is cut into pieces. */
  lemma NoCharacterSplit(text: seq<Byte>, specials: seq<seq<Byte>>)
    requires NoEmptyLiteral(specials) && IsText(text)
    requires forall i :: 0 <= i < |specials| ==> IsText(specials[i])
    ensures var segs := Segments(text, specials, |specials|);
            forall k :: 0 <= k < |segs| ==>
              IsText(segs[k].text)
              && forall j :: 0 <= j < |PreTokens(segs[k].text, 0)| ==> IsText(PreTokens(segs[k].text, 0)[j])
  {
    hide IsText, Segments, PreTokens;
    SegmentsAreTexts(text, specials, |specials|);
    var segs := Segments(text, specials, |specials|);
    forall k | 0 <= k < |segs|
      ensures forall j :: 0 <= j < |PreTokens(segs[k].text, 0)| ==> IsText(PreTokens(segs[k].text, 0)[j])
    {
      assert segs[k].text[0..] == segs[k].text;
      PiecesAreTexts(segs[k].text, 0);
    }
  }

  // ---------------------------------------------------------------- which bytes a character is

  /** The six bits an inner byte carries. */
  function Six(b: Byte): nat
    requires Inner(b)
  {
    (b as int) - 0x80
  }

  /** Section 3 of RFC 3629: the leading byte says how many follow, each carries six bits, and no shorter
      form would do. */
  predicate Carries(u: seq<Byte>, cp: nat) {
    match |u|
    case 1 => cp < 0x80 && u[0] == cp
    case 2 => 0x80 <= cp && 0xC0 <= u[0] < 0xE0 && Inner(u[1]) && cp == (u[0] as int - 0xC0) * 64 + Six(u[1])
    case 3 =>
      0x800 <= cp && 0xE0 <= u[0] < 0xF0 && Inner(u[1]) && Inner(u[2])
      && cp == (u[0] as int - 0xE0) * 4096 + Six(u[1]) * 64 + Six(u[2])
    case 4 =>
      0x10000 <= cp && 0xF0 <= u[0] < 0xF8 && Inner(u[1]) && Inner(u[2]) && Inner(u[3])
      && cp == (u[0] as int - 0xF0) * 262144 + Six(u[1]) * 4096 + Six(u[2]) * 64 + Six(u[3])
    case _ => false
  }

  lemma Digits64(cp: nat)
    ensures cp == cp / 64 * 64 + cp % 64 && cp / 64 == cp / 4096 * 64 + cp / 64 % 64
    ensures cp / 4096 == cp / 262144 * 64 + cp / 4096 % 64
  {
    assert cp / 4096 == cp / 64 / 64;
    assert cp / 262144 == cp / 4096 / 64;
  }

  /** Every scalar value is its UTF-8; anything else is U+FFFD. */
  lemma Utf8Carries(cp: nat)
    ensures if cp <= 0x10FFFF && !(0xD800 <= cp <= 0xDFFF) then Carries(Utf8(cp), cp) else Carries(Utf8(cp), 0xFFFD)
  {
    Digits64(cp);
  }
}
