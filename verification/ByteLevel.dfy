/** The byte-level tokenizer family: the byte alphabet, special-token splitting, the
    pretokenizer, and the round trip from text to ids and back to bytes. */
module ByteLevel {
  import opened Bytes
  import opened Search
  import opened Bpe

  // ---------------------------------------------------------------- the byte alphabet

  predicate Printable(b: nat) { 0x21 <= b <= 0x7E || 0xA1 <= b <= 0xAC || 0xAE <= b <= 0xFF }

  /** Unprintable bytes below `b`. */
  function Skipped(b: nat): nat {
    if b == 0 then 0 else Skipped(b - 1) + if Printable(b - 1) then 0 else 1
  }

  /** The character that stands for a byte: itself, or the next one from 256 on. */
  function Enc(b: Byte): nat { if Printable(b) then b else 256 + Skipped(b) }

  lemma {:induction false} SkippedCount(b: nat)
    requires b <= 256
    ensures Skipped(b) == if b <= 0x21 then b else if b <= 0x7F then 0x21 else if b <= 0xA1 then b - 94
                          else if b <= 0xAD then 67 else 68
  {
    if b > 0 { SkippedCount(b - 1); }
  }

  /** The alphabet is injective: distinct bytes have distinct characters. */
  lemma EncInjective(a: Byte, b: Byte)
    requires Enc(a) == Enc(b)
    ensures a == b
  {
    SkippedCount(a);
    SkippedCount(b);
  }

  /** Both directions of the alphabet, filled byte by byte. */
  lemma NoneSkipped()
    ensures Skipped(0) == 0
  {
  }

  lemma NewChar(b: Byte)
    ensures Enc(b) == if Printable(b) then b else 256 + Skipped(b)
    ensures Skipped(b + 1) == Skipped(b) + if Printable(b) then 0 else 1
    ensures forall k: Byte :: k < b ==> Enc(k) != Enc(b)
  {
    forall k: Byte | k < b ensures Enc(k) != Enc(b) {
      if Enc(k) == Enc(b) { EncInjective(k, b); }
    }
  }

  method ByteAlphabet() returns (enc: seq<nat>, dec: map<nat, Byte>)
    ensures |enc| == 256 && forall b: Byte :: enc[b] == Enc(b)
    ensures forall b: Byte :: Enc(b) in dec && dec[Enc(b)] == b
    ensures forall c :: c in dec ==> exists b: Byte :: c == Enc(b)
  {
    hide Enc, Printable, Skipped;
    enc, dec := [], map[];
    var n := 0;
    NoneSkipped();
    for b := 0 to 256
      invariant |enc| == b && n == Skipped(b)
      invariant forall k: Byte :: k < b ==> enc[k] == Enc(k) && Enc(k) in dec && dec[Enc(k)] == k
      invariant forall c :: c in dec ==> exists k: Byte :: c == Enc(k)
    {
      var c := if Printable(b) then b else 256 + n;
      NewChar(b);
      if !Printable(b) { n := n + 1; }
      enc := enc + [c];
      dec := dec[c := b];
    }
  }

  /** The byte a character stands for; a question mark outside the alphabet. */
  ghost function Dec(c: nat): Byte {
    if exists b: Byte :: Enc(b) == c then var b: Byte :| Enc(b) == c; b else 0x3F
  }

  lemma DecEnc(b: Byte)
    ensures Dec(Enc(b)) == b
  {
    var d: Byte :| Enc(d) == Enc(b) && Dec(Enc(b)) == d;
    EncInjective(d, b);
  }

  lemma DecOutside(c: nat)
    requires forall b: Byte :: Enc(b) != c
    ensures Dec(c) as char == '?'
  {
  }

  function Remap(bs: seq<Byte>): Text { seq(|bs|, i requires 0 <= i < |bs| => Enc(bs[i])) }

  ghost function Unmap(s: Text): seq<Byte> { seq(|s|, i requires 0 <= i < |s| => Dec(s[i])) }

  lemma UnmapRemap(bs: seq<Byte>)
    ensures Unmap(Remap(bs)) == bs
  {
    forall k | 0 <= k < |bs| ensures Unmap(Remap(bs))[k] == bs[k] { DecEnc(bs[k]); }
  }

  // ---------------------------------------------------------------- the tokenizer

  /** `specials` are the literal special tokens, `idBytes` the bytes each id decodes to. */
  datatype Tokenizer = Tokenizer(tables: Tables, specials: seq<seq<Byte>>, idBytes: map<nat, seq<Byte>>,
                                 bos: Option<nat>, addBos: bool)

  function TextBytes(s: Text): seq<Byte> { if s == [] then [] else Utf8(s[0]) + TextBytes(s[1..]) }

  predicate IsSpecial(specials: seq<seq<Byte>>, s: Text) { exists k :: 0 <= k < |specials| && specials[k] == s }

  ghost function TokenBytes(specials: seq<seq<Byte>>, tok: Text): seq<Byte> {
    if IsSpecial(specials, tok) then TextBytes(tok) else Unmap(tok)
  }

  /** The id table holds the bytes of every token. */
  ghost predicate TableOk(vocab: map<Text, nat>, specials: seq<seq<Byte>>, idBytes: map<nat, seq<Byte>>) {
    forall tok :: tok in vocab ==> vocab[tok] in idBytes && idBytes[vocab[tok]] == TokenBytes(specials, tok)
  }

  /** A special token decodes to its own text, any other to the bytes its characters stand for. */
  lemma TokensStand(t: Tokenizer, tok: Text)
    requires TableOk(t.tables.vocab, t.specials, t.idBytes) && tok in t.tables.vocab
    ensures IsSpecial(t.specials, tok) ==> DecodeToken(t, t.tables.vocab[tok]) == TextBytes(tok)
    ensures !IsSpecial(t.specials, tok) ==> DecodeToken(t, t.tables.vocab[tok]) == Unmap(tok)
  {
    hide TextBytes, Unmap, IsSpecial;
  }

  /** Fills the id table in whatever order the vocabulary is visited. */
  method BuildIdTable(vocab: map<Text, nat>, specials: seq<seq<Byte>>) returns (idBytes: map<nat, seq<Byte>>)
    ensures Injective(vocab) ==> TableOk(vocab, specials, idBytes)
  {
    var enc, dec := ByteAlphabet();
    idBytes := map[];
    var todo := vocab.Keys;
    while todo != {}
      invariant todo <= vocab.Keys
      invariant Injective(vocab) ==> forall tok :: tok in vocab && tok !in todo ==>
                  vocab[tok] in idBytes && idBytes[vocab[tok]] == TokenBytes(specials, tok)
      decreases todo
    {
      var tok :| tok in todo;
      var bytes := if IsSpecial(specials, tok) then TextBytes(tok)
                   else seq(|tok|, i requires 0 <= i < |tok| => if tok[i] in dec then dec[tok[i]] else 0x3F);
      assert bytes == TokenBytes(specials, tok) by {
        forall k | 0 <= k < |tok| ensures Dec(tok[k]) == if tok[k] in dec then dec[tok[k]] else 0x3F {
          if tok[k] in dec {
            var b: Byte :| tok[k] == Enc(b);
            DecEnc(b);
          }
        }
      }
      idBytes := idBytes[vocab[tok] := bytes];
      todo := todo - {tok};
    }
  }

  function DecodeToken(t: Tokenizer, id: nat): seq<Byte> { if id in t.idBytes then t.idBytes[id] else [] }

  function Decode(t: Tokenizer, ids: seq<nat>): seq<Byte> {
    if ids == [] then [] else DecodeToken(t, ids[0]) + Decode(t, ids[1..])
  }

  lemma {:induction false} DecodeConcat(t: Tokenizer, a: seq<nat>, b: seq<nat>)
    ensures Decode(t, a + b) == Decode(t, a) + Decode(t, b)
    decreases |a|
  {
    if a == [] {
      assert a + b == b;
    } else {
      assert (a + b)[1..] == a[1..] + b;
      DecodeConcat(t, a[1..], b);
    }
  }

  // ---------------------------------------------------------------- special tokens

  datatype Segment = Segment(special: bool, text: seq<Byte>)

  function Plain(text: seq<Byte>): seq<Segment> { if text == [] then [] else [Segment(false, text)] }

  function Split(text: seq<Byte>, literal: seq<Byte>): seq<Segment>
    requires literal != []
    decreases |text|
  {
    var p := Find(text, literal);
    if p.None? then Plain(text)
    else Plain(text[..p.value]) + [Segment(true, literal)] + Split(text[p.value + |literal|..], literal)
  }

  function SplitAll(segs: seq<Segment>, literal: seq<Byte>): seq<Segment>
    requires literal != []
  {
    if segs == [] then []
    else (if segs[0].special then [segs[0]] else Split(segs[0].text, literal)) + SplitAll(segs[1..], literal)
  }

  predicate NoEmptyLiteral(specials: seq<seq<Byte>>) { forall k :: 0 <= k < |specials| ==> specials[k] != [] }

  /** The text cut at the first `k` special literals, in order. */
  function Segments(text: seq<Byte>, specials: seq<seq<Byte>>, k: nat): seq<Segment>
    requires NoEmptyLiteral(specials) && k <= |specials|
  {
    if k == 0 then [Segment(false, text)] else SplitAll(Segments(text, specials, k - 1), specials[k - 1])
  }

  function Joined(segs: seq<Segment>): seq<Byte> { if segs == [] then [] else segs[0].text + Joined(segs[1..]) }

  lemma {:induction false} JoinedConcat(a: seq<Segment>, b: seq<Segment>)
    ensures Joined(a + b) == Joined(a) + Joined(b)
    decreases |a|
  {
    if a == [] {
      assert a + b == b;
    } else {
      assert (a + b)[1..] == a[1..] + b;
      JoinedConcat(a[1..], b);
    }
  }

  lemma JoinedOne(g: Segment)
    ensures Joined([g]) == g.text
  {
    assert Joined([]) == [];
  }

  /** Special segments are special literals. */
  predicate Marked(segs: seq<Segment>, specials: seq<seq<Byte>>) {
    forall k :: 0 <= k < |segs| && segs[k].special ==> IsSpecial(specials, segs[k].text)
  }

  lemma {:induction false} SplitKeeps(text: seq<Byte>, literal: seq<Byte>, specials: seq<seq<Byte>>)
    requires literal != [] && IsSpecial(specials, literal)
    ensures Joined(Split(text, literal)) == text && Marked(Split(text, literal), specials)
    decreases |text|
  {
    hide IsSpecial;
    var p := Find(text, literal);
    if p.None? {
      PlainKeeps(text, specials);
    } else {
      var rest := text[p.value + |literal|..];
      hide Find, Plain, Marked;
      MarkedParts(Plain(text[..p.value]), literal, Split(rest, literal), specials);
      var a, m := Plain(text[..p.value]), [Segment(true, literal)];
      PlainKeeps(text[..p.value], specials);
      SplitKeeps(rest, literal, specials);
      JoinedConcat(a, m);
      JoinedConcat(a + m, Split(rest, literal));
      JoinedOne(m[0]);
      FoundSplits(text, literal);
    }
  }

  lemma FoundSplits(text: seq<Byte>, literal: seq<Byte>)
    requires Find(text, literal).Some?
    ensures var p := Find(text, literal).value; text == text[..p] + literal + text[p + |literal|..]
  {
  }

  lemma MarkedParts(a: seq<Segment>, literal: seq<Byte>, z: seq<Segment>, specials: seq<seq<Byte>>)
    requires IsSpecial(specials, literal)
    ensures Marked(a, specials) && Marked(z, specials) ==> Marked(a + [Segment(true, literal)] + z, specials)
  {
  }

  lemma PlainKeeps(text: seq<Byte>, specials: seq<seq<Byte>>)
    ensures Joined(Plain(text)) == text && Marked(Plain(text), specials)
  {
    if text != [] { JoinedOne(Segment(false, text)); }
  }

  lemma {:induction false} SplitAllKeeps(segs: seq<Segment>, literal: seq<Byte>, specials: seq<seq<Byte>>)
    requires literal != [] && IsSpecial(specials, literal) && Marked(segs, specials)
    ensures Joined(SplitAll(segs, literal)) == Joined(segs) && Marked(SplitAll(segs, literal), specials)
    decreases |segs|
  {
    hide IsSpecial, Split;
    if segs != [] {
      var first := if segs[0].special then [segs[0]] else Split(segs[0].text, literal);
      if segs[0].special { JoinedOne(segs[0]); } else { SplitKeeps(segs[0].text, literal, specials); }
      SplitAllKeeps(segs[1..], literal, specials);
      JoinedConcat(first, SplitAll(segs[1..], literal));
    }
  }

  /** Splitting at the specials loses no text. */
  lemma {:induction false} SegmentsPartition(text: seq<Byte>, specials: seq<seq<Byte>>, k: nat)
    requires NoEmptyLiteral(specials) && k <= |specials|
    ensures Joined(Segments(text, specials, k)) == text && Marked(Segments(text, specials, k), specials)
  {
    hide Find, Split, Plain;
    if k == 0 {
      JoinedOne(Segment(false, text));
    } else {
      SegmentsPartition(text, specials, k - 1);
      SplitAllKeeps(Segments(text, specials, k - 1), specials[k - 1], specials);
    }
  }

  method SplitSegment(text: seq<Byte>, literal: seq<Byte>, acc: seq<Segment>) returns (segs: seq<Segment>)
    requires literal != []
    ensures segs == acc + Split(text, literal)
  {
    hide Find;
    segs := acc;
    var rest := text;
    while true
      invariant segs + Split(rest, literal) == acc + Split(text, literal)
      decreases |rest|
    {
      var p := Find(rest, literal);
      if p.None? { break; }
      assert segs + (Plain(rest[..p.value]) + [Segment(true, literal)] + Split(rest[p.value + |literal|..], literal))
          == segs + Plain(rest[..p.value]) + [Segment(true, literal)] + Split(rest[p.value + |literal|..], literal);
      segs := segs + Plain(rest[..p.value]) + [Segment(true, literal)];
      rest := rest[p.value + |literal|..];
    }
    segs := segs + Plain(rest);
  }

  method SplitOnce(segs: seq<Segment>, literal: seq<Byte>) returns (next: seq<Segment>)
    requires literal != []
    ensures next == SplitAll(segs, literal)
  {
    hide Split;
    next := [];
    for i := 0 to |segs|
      invariant next + SplitAll(segs[i..], literal) == SplitAll(segs, literal)
    {
      assert segs[i..][1..] == segs[i + 1..];
      ghost var mine := if segs[i].special then [segs[i]] else Split(segs[i].text, literal);
      assert next + (mine + SplitAll(segs[i + 1..], literal)) == next + mine + SplitAll(segs[i + 1..], literal);
      if segs[i].special {
        next := next + [segs[i]];
      } else {
        next := SplitSegment(segs[i].text, literal, next);
      }
    }
    assert next + [] == next;
  }

  method SplitSpecials(text: seq<Byte>, specials: seq<seq<Byte>>) returns (segs: seq<Segment>)
    requires NoEmptyLiteral(specials)
    ensures segs == Segments(text, specials, |specials|)
  {
    segs := [Segment(false, text)];
    for k := 0 to |specials|
      invariant segs == Segments(text, specials, k)
    {
      segs := SplitOnce(segs, specials[k]);
    }
  }

  // ---------------------------------------------------------------- the pretokenizer

  /** The classes whose runs stay together. */
  datatype Class = Letter | Digit | Blank | Newline | Other

  function ClassOf(b: Byte): Class {
    if 0x41 <= b <= 0x5A || 0x61 <= b <= 0x7A || b >= 0x80 then Letter
    else if IsDigit(b) then Digit
    else if b == SPACE then Blank
    else if b == LF || b == CR then Newline
    else Other
  }

  function RunEnd(b: seq<Byte>, i: nat, c: Class): (j: nat)
    requires i <= |b|
    ensures i <= j <= |b|
    ensures forall k :: i <= k < j ==> ClassOf(b[k]) == c
    ensures j < |b| ==> ClassOf(b[j]) != c
    decreases |b| - i
  {
    if i < |b| && ClassOf(b[i]) == c then RunEnd(b, i + 1, c) else i
  }

  /** Where the piece that starts at `i` ends: one leading space goes with the run after it. */
  function PieceEnd(b: seq<Byte>, i: nat): (j: nat)
    requires i < |b|
    ensures i < j <= |b|
  {
    var k := if b[i] == SPACE then i + 1 else i;
    if k == |b| then k else RunEnd(b, k, ClassOf(b[k]))
  }

  function PreTokens(b: seq<Byte>, i: nat): seq<seq<Byte>>
    requires i <= |b|
    decreases |b| - i
  {
    if i == |b| then [] else [b[i..PieceEnd(b, i)]] + PreTokens(b, PieceEnd(b, i))
  }

  /** An end of the text, or a position with an ASCII byte on one side. */
  predicate AsciiBeside(b: seq<Byte>, i: nat) {
    i == 0 || i >= |b| || b[i - 1] < 0x80 || b[i] < 0x80
  }

  /** Every cut is at the end or has an ASCII byte beside it. */
  lemma CutsBesideAscii(b: seq<Byte>, i: nat)
    requires i < |b|
    ensures AsciiBeside(b, PieceEnd(b, i))
  {
  }

  function Glued(pieces: seq<seq<Byte>>): seq<Byte> { if pieces == [] then [] else pieces[0] + Glued(pieces[1..]) }

  lemma {:induction false} PreTokensPartition(b: seq<Byte>, i: nat)
    requires i <= |b|
    ensures Glued(PreTokens(b, i)) == b[i..]
    decreases |b| - i
  {
    hide PieceEnd;
    if i < |b| {
      PreTokensPartition(b, PieceEnd(b, i));
      assert b[i..] == b[i..PieceEnd(b, i)] + b[PieceEnd(b, i)..];
    }
  }

  method SkipRun(b: seq<Byte>, i: nat, c: Class) returns (j: nat)
    requires i <= |b|
    ensures j == RunEnd(b, i, c)
  {
    j := i;
    while j < |b| && ClassOf(b[j]) == c
      invariant i <= j <= |b| && RunEnd(b, i, c) == RunEnd(b, j, c)
    {
      j := j + 1;
    }
  }

  method NextPiece(b: seq<Byte>, start: nat) returns (i: nat)
    requires start < |b|
    ensures i == PieceEnd(b, start)
  {
    hide RunEnd;
    i := start;
    if b[i] == SPACE {
      i := i + 1;
      if i == |b| { return; }
    }
    i := SkipRun(b, i, ClassOf(b[i]));
  }

  method Pretokenize(b: seq<Byte>) returns (out: seq<seq<Byte>>)
    ensures out == PreTokens(b, 0)
  {
    hide RunEnd, PieceEnd;
    out := [];
    var i := 0;
    while i < |b|
      invariant 0 <= i <= |b| && out + PreTokens(b, i) == PreTokens(b, 0)
    {
      var end := NextPiece(b, i);
      assert out + ([b[i..end]] + PreTokens(b, end)) == out + [b[i..end]] + PreTokens(b, end);
      out := out + [b[i..end]];
      i := end;
    }
    assert out + [] == out;
  }

  // ---------------------------------------------------------------- encoding

  function PiecesIds(t: Tokenizer, pieces: seq<seq<Byte>>): seq<nat> {
    if pieces == [] then [] else Encode(t.tables, Remap(pieces[0])) + PiecesIds(t, pieces[1..])
  }

  function SegmentIds(t: Tokenizer, g: Segment): seq<nat> {
    if g.special then (if g.text in t.tables.vocab then [t.tables.vocab[g.text]] else [])
    else PiecesIds(t, PreTokens(g.text, 0))
  }

  function SegmentsIds(t: Tokenizer, segs: seq<Segment>): seq<nat> {
    if segs == [] then [] else SegmentIds(t, segs[0]) + SegmentsIds(t, segs[1..])
  }

  function BosIds(t: Tokenizer, addBos: bool): seq<nat> {
    if addBos && t.addBos && t.bos.Some? then [t.bos.value] else []
  }

  /** Ids of a text, for a tokenizer of the byte-level family. */
  function EncodeText(t: Tokenizer, text: seq<Byte>, addBos: bool): seq<nat>
    requires NoEmptyLiteral(t.specials)
  {
    BosIds(t, addBos) + SegmentsIds(t, Segments(text, t.specials, |t.specials|))
  }

  method EncodePieces(t: Tokenizer, text: seq<Byte>, acc: seq<nat>) returns (ids: seq<nat>)
    ensures ids == acc + PiecesIds(t, PreTokens(text, 0))
  {
    hide Encode, PreTokens;
    var pieces := Pretokenize(text);
    ids := acc;
    for i := 0 to |pieces|
      invariant ids + PiecesIds(t, pieces[i..]) == acc + PiecesIds(t, pieces)
    {
      assert pieces[i..][1..] == pieces[i + 1..];
      ghost var mine := Encode(t.tables, Remap(pieces[i]));
      assert ids + (mine + PiecesIds(t, pieces[i + 1..])) == ids + mine + PiecesIds(t, pieces[i + 1..]);
      ids := EncodePiece(t.tables, Remap(pieces[i]), ids);
    }
    assert ids + [] == ids;
  }

  method EncodeBytes(t: Tokenizer, text: seq<Byte>, addBos: bool) returns (ids: seq<nat>)
    requires NoEmptyLiteral(t.specials) && SpecialsKnown(t)
    ensures ids == EncodeText(t, text, addBos)
  {
    hide Segments, PiecesIds, IsSpecial;
    ids := [];
    if addBos && t.addBos && t.bos.Some? { ids := [t.bos.value]; }
    ghost var head := ids;
    var segs := SplitSpecials(text, t.specials);
    SpecialSegmentsKnown(t, text);
    for i := 0 to |segs|
      invariant ids + SegmentsIds(t, segs[i..]) == head + SegmentsIds(t, segs)
    {
      assert segs[i..][1..] == segs[i + 1..];
      assert ids + (SegmentIds(t, segs[i]) + SegmentsIds(t, segs[i + 1..]))
          == ids + SegmentIds(t, segs[i]) + SegmentsIds(t, segs[i + 1..]);
      if segs[i].special {
        ids := ids + [t.tables.vocab[segs[i].text]];
      } else {
        ids := EncodePieces(t, segs[i].text, ids);
      }
    }
    assert ids + [] == ids;
  }

  /** Loading registers every special literal in the vocabulary. */
  predicate SpecialsKnown(t: Tokenizer) {
    forall k :: 0 <= k < |t.specials| ==> t.specials[k] in t.tables.vocab
  }

  lemma SpecialSegmentsKnown(t: Tokenizer, text: seq<Byte>)
    requires NoEmptyLiteral(t.specials) && SpecialsKnown(t)
    ensures var segs := Segments(text, t.specials, |t.specials|);
            forall k :: 0 <= k < |segs| && segs[k].special ==> segs[k].text in t.tables.vocab
  {
    SegmentsPartition(text, t.specials, |t.specials|);
  }

  // ---------------------------------------------------------------- the round trip

  predicate AsciiPrintable(s: seq<Byte>) { s != [] && forall k :: 0 <= k < |s| ==> 0x21 <= s[k] <= 0x7E }

  /** The tables a byte-level model loads: every alphabet character is a token, ids are
      distinct, specials are printable ASCII, and the id table was built from the vocabulary. */
  ghost predicate Loaded(t: Tokenizer) {
    && !t.tables.sp && Injective(t.tables.vocab)
    && TableOk(t.tables.vocab, t.specials, t.idBytes)
    && (forall b: Byte :: [Enc(b)] in t.tables.vocab)
    && (forall k :: 0 <= k < |t.specials| ==> AsciiPrintable(t.specials[k]))
    && SpecialsKnown(t)
  }

  lemma {:induction false} AsciiBytes(s: seq<Byte>)
    requires forall k :: 0 <= k < |s| ==> 0x21 <= s[k] <= 0x7E
    ensures TextBytes(s) == s && Unmap(s) == s
    decreases |s|
  {
    forall k | 0 <= k < |s| ensures Dec(s[k]) == s[k] {
      assert Enc(s[k]) == s[k];
      DecEnc(s[k]);
    }
    if s != [] {
      AsciiBytes(s[1..]);
      assert [s[0]] + s[1..] == s;
    }
  }

  /** Whether or not a token is special, its bytes are its characters unmapped. */
  lemma TokenDecodes(t: Tokenizer, tok: Text)
    requires Loaded(t) && tok in t.tables.vocab
    ensures DecodeToken(t, t.tables.vocab[tok]) == Unmap(tok)
  {
    hide Unmap, TextBytes, Injective;
    if IsSpecial(t.specials, tok) {
      var k :| 0 <= k < |t.specials| && t.specials[k] == tok;
      AsciiBytes(t.specials[k]);
    }
  }

  lemma UnmapConcat(a: Text, b: Text)
    ensures Unmap(a + b) == Unmap(a) + Unmap(b)
  {
  }

  lemma DecodeOne(t: Tokenizer, id: nat)
    ensures Decode(t, [id]) == DecodeToken(t, id)
  {
    assert Decode(t, []) == [];
  }

  lemma {:induction false} SpellDecodes(t: Tokenizer, s: Text)
    requires Loaded(t) && forall k :: 0 <= k < |s| ==> [s[k]] in t.tables.vocab
    ensures Decode(t, SpellIds(t.tables, s)) == Unmap(s)
    decreases |s|
  {
    hide Unmap, Loaded;
    if s == [] {
      UnmapNone();
    } else {
      var id := t.tables.vocab[[s[0]]];
      TokenDecodes(t, [s[0]]);
      SpellDecodes(t, s[1..]);
      assert CharIds(t.tables, s[0]) == [id];
      DecodeOne(t, id);
      DecodeConcat(t, [id], SpellIds(t.tables, s[1..]));
      UnmapConcat([s[0]], s[1..]);
      assert [s[0]] + s[1..] == s;
    }
  }

  lemma UnmapNone()
    ensures Unmap([]) == []
  {
  }

  predicate InVocab(t: Tokenizer, s: Text) { forall k :: 0 <= k < |s| ==> [s[k]] in t.tables.vocab }

  lemma {:induction false} PartsDecode(t: Tokenizer, parts: Parts)
    requires Loaded(t) && InVocab(t, Flat(parts))
    ensures Decode(t, PartsIds(t.tables, parts)) == Unmap(Flat(parts))
    decreases |parts|
  {
    hide Unmap, Loaded, SpellIds;
    if parts == [] {
      UnmapNone();
    } else {
      var p := parts[0];
      FrontInVocab(t, p, Flat(parts[1..]));
      PartsDecode(t, parts[1..]);
      UnmapConcat(p, Flat(parts[1..]));
      DecodeConcat(t, PartIds(t.tables, p), PartsIds(t.tables, parts[1..]));
      if p in t.tables.vocab {
        TokenDecodes(t, p);
        DecodeOne(t, t.tables.vocab[p]);
      } else {
        SpellDecodes(t, p);
      }
    }
  }

  lemma FrontInVocab(t: Tokenizer, a: Text, b: Text)
    requires InVocab(t, a + b)
    ensures InVocab(t, a) && InVocab(t, b)
  {
    forall k | 0 <= k < |a| ensures [a[k]] in t.tables.vocab { assert (a + b)[k] == a[k]; }
    forall k | 0 <= k < |b| ensures [b[k]] in t.tables.vocab { assert (a + b)[|a| + k] == b[k]; }
  }

  lemma PieceDecodes(t: Tokenizer, bs: seq<Byte>)
    requires Loaded(t)
    ensures Decode(t, Encode(t.tables, Remap(bs))) == bs
  {
    hide Unmap, Loop;
    var s := Remap(bs);
    assert InVocab(t, s);
    LoopKeeps(t.tables, Singles(s));
    FlatSingles(s);
    PartsDecode(t, Loop(t.tables, Singles(s)));
    UnmapRemap(bs);
  }

  lemma {:induction false} PiecesDecode(t: Tokenizer, pieces: seq<seq<Byte>>)
    requires Loaded(t)
    ensures Decode(t, PiecesIds(t, pieces)) == Glued(pieces)
    decreases |pieces|
  {
    hide Loaded, Encode;
    if pieces != [] {
      PieceDecodes(t, pieces[0]);
      PiecesDecode(t, pieces[1..]);
      DecodeConcat(t, Encode(t.tables, Remap(pieces[0])), PiecesIds(t, pieces[1..]));
    }
  }

  lemma SegmentDecodes(t: Tokenizer, g: Segment)
    requires Loaded(t) && (g.special ==> IsSpecial(t.specials, g.text))
    ensures Decode(t, SegmentIds(t, g)) == g.text
  {
    hide Unmap, PiecesIds;
    if g.special {
      var k :| 0 <= k < |t.specials| && t.specials[k] == g.text;
      TokenDecodes(t, g.text);
      AsciiBytes(t.specials[k]);
      DecodeOne(t, t.tables.vocab[g.text]);
    } else {
      PreTokensPartition(g.text, 0);
      PiecesDecode(t, PreTokens(g.text, 0));
      assert g.text[0..] == g.text;
    }
  }

  lemma {:induction false} SegmentsDecode(t: Tokenizer, segs: seq<Segment>)
    requires Loaded(t) && Marked(segs, t.specials)
    ensures Decode(t, SegmentsIds(t, segs)) == Joined(segs)
    decreases |segs|
  {
    hide Loaded, SegmentIds, IsSpecial;
    if segs != [] {
      SegmentDecodes(t, segs[0]);
      SegmentsDecode(t, segs[1..]);
      DecodeConcat(t, SegmentIds(t, segs[0]), SegmentsIds(t, segs[1..]));
    }
  }

  /** Decoding the ids of a text gives back its bytes. */
  lemma RoundTrip(t: Tokenizer, text: seq<Byte>)
    requires Loaded(t) && NoEmptyLiteral(t.specials)
    ensures Decode(t, EncodeText(t, text, false)) == text
  {
    hide Loaded, Segments, SegmentsIds;
    SegmentsPartition(text, t.specials, |t.specials|);
    SegmentsDecode(t, Segments(text, t.specials, |t.specials|));
    assert [] + SegmentsIds(t, Segments(text, t.specials, |t.specials|))
        == SegmentsIds(t, Segments(text, t.specials, |t.specials|));
  }

  /** The same for the running code. */
  method EncodeDecodes(t: Tokenizer, text: seq<Byte>) returns (ids: seq<nat>)
    requires NoEmptyLiteral(t.specials) && SpecialsKnown(t)
    ensures Loaded(t) ==> Decode(t, ids) == text
  {
    hide Loaded, EncodeText;
    ids := EncodeBytes(t, text, false);
    if Loaded(t) { RoundTrip(t, text); }
  }
}
