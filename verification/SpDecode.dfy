/** The metaspace family decoded: what each token stands for, and exactly when decoding the ids of a
    text gives back the text. */
module SpDecode {
  import opened Bytes
  import opened Bpe
  import opened ByteLevel
  import Unigram
  import SentencePiece

  // ---------------------------------------------------------------- what a token stands for

  /** The metaspace character read as a space. */
  function Spaced(s: Text): Text {
    seq(|s|, i requires 0 <= i < |s| => if s[i] == METASPACE then 0x20 else s[i])
  }

  /** Two characters read as a hexadecimal byte; like the library routine it also takes a leading plus. */
  function HexPair(a: Byte, b: Byte): Option<Byte> {
    if IsHex(a) && IsHex(b) then Some(16 * HexDigit(a) + HexDigit(b))
    else if a == PLUS && IsHex(b) then Some(HexDigit(b))
    else None
  }

  /** `<0x`, two characters, `>`. */
  predicate Bracketed(u: seq<Byte>) { |u| == 6 && u[0] == 0x3C && u[1] == 0x30 && u[2] == 0x78 && u[5] == 0x3E }

  /** Specials stand for themselves, spelled bytes for the byte, other tokens for their text. */
  function SpTokenBytes(specials: seq<seq<Byte>>, tok: Text): seq<Byte> {
    var u := TextBytes(tok);
    if IsSpecial(specials, tok) then u
    else if Bracketed(u) then
      match HexPair(u[3], u[4])
      case Some(b) => [b]
      case None => u
    else TextBytes(Spaced(tok))
  }

  /** The id table holds what every token stands for. */
  predicate SpTableOk(vocab: map<Text, nat>, specials: seq<seq<Byte>>, idBytes: map<nat, seq<Byte>>) {
    forall tok :: tok in vocab ==> vocab[tok] in idBytes && idBytes[vocab[tok]] == SpTokenBytes(specials, tok)
  }

  /** Fills the id table in whatever order the vocabulary is visited. */
  method BuildSpTable(vocab: map<Text, nat>, specials: seq<seq<Byte>>) returns (idBytes: map<nat, seq<Byte>>)
    ensures Injective(vocab) ==> SpTableOk(vocab, specials, idBytes)
  {
    hide SpTokenBytes;
    idBytes := map[];
    var todo := vocab.Keys;
    while todo != {}
      invariant todo <= vocab.Keys
      invariant Injective(vocab) ==> forall tok :: tok in vocab && tok !in todo ==>
                  vocab[tok] in idBytes && idBytes[vocab[tok]] == SpTokenBytes(specials, tok)
      decreases todo
    {
      var tok :| tok in todo;
      idBytes := idBytes[vocab[tok] := SpTokenBytes(specials, tok)];
      todo := todo - {tok};
    }
  }

  function HexUpper(d: nat): nat
    requires d < 16
  {
    if d < 10 then 0x30 + d else 0x41 + d - 10
  }

  /** The token for a byte. */
  function ByteSpelling(b: Byte): Text { [0x3C, 0x30, 0x78, HexUpper(b / 16), HexUpper(b % 16), 0x3E] }

  /** The tables a metaspace model loads: every byte has its token, the metaspace is one, and with scores
      every token has one. */
  ghost predicate SpLoaded(t: Tokenizer) {
    && t.tables.sp && Injective(t.tables.vocab) && SpTableOk(t.tables.vocab, t.specials, t.idBytes)
    && (forall b: Byte :: Spelled(t, b)) && [METASPACE] in t.tables.vocab
    && (forall k :: 0 <= k < |t.specials| ==> AsciiPrintable(t.specials[k]))
    && (t.tables.scores != [] ==> t.tables.maxPiece > 0 && AllScored(t.tables))
  }

  predicate Spelled(t: Tokenizer, b: Byte) {
    && ByteSpelling(b) in t.tables.vocab && !IsSpecial(t.specials, ByteSpelling(b))
    && b in t.tables.byteIds && t.tables.byteIds[b] == t.tables.vocab[ByteSpelling(b)]
  }

  predicate AllScored(t: Tables) { forall tok :: tok in t.vocab ==> t.vocab[tok] < |t.scores| }

  /** A token whose text spells a byte: it stands for that byte, not for its text. */
  predicate Garbles(t: Tokenizer, p: Text) {
    && p in t.tables.vocab && !IsSpecial(t.specials, p)
    && var u := TextBytes(p);
       Bracketed(u) && HexPair(u[3], u[4]).Some?
  }

  // ---------------------------------------------------------------- texts

  lemma {:induction false} TextConcat(a: Text, b: Text)
    ensures TextBytes(a + b) == TextBytes(a) + TextBytes(b)
    decreases |a|
  {
    hide Utf8;
    if a == [] {
      assert a + b == b;
    } else {
      assert (a + b)[1..] == a[1..] + b;
      TextConcat(a[1..], b);
    }
  }

  lemma TextOne(c: nat)
    ensures TextBytes([c]) == Utf8(c)
  {
    assert TextBytes([]) == [];
  }

  lemma SpacedConcat(a: Text, b: Text)
    ensures Spaced(a + b) == Spaced(a) + Spaced(b)
  {
  }

  /** What decoding should give. */
  function Plainly(s: Text): seq<Byte> { TextBytes(Spaced(s)) }

  lemma PlainlyConcat(a: Text, b: Text)
    ensures Plainly(a + b) == Plainly(a) + Plainly(b)
  {
    SpacedConcat(a, b);
    TextConcat(Spaced(a), Spaced(b));
  }

  lemma NotSpaced(s: Text)
    requires forall k :: 0 <= k < |s| ==> s[k] != METASPACE
    ensures Spaced(s) == s && Plainly(s) == TextBytes(s)
  {
  }

  lemma PlainlyNone()
    ensures Plainly([]) == []
  {
  }

  lemma SpecialBytes(t: Tokenizer, p: Text)
    requires SpLoaded(t) && IsSpecial(t.specials, p)
    ensures TextBytes(p) == Plainly(p)
  {
    var k :| 0 <= k < |t.specials| && t.specials[k] == p;
    assert AsciiPrintable(t.specials[k]);
    NotSpaced(p);
  }

  // ---------------------------------------------------------------- tokens

  /** Any other token stands for its text; a garbling one for a byte, where its text has six. */
  lemma TokenStands(t: Tokenizer, p: Text)
    requires SpLoaded(t) && p in t.tables.vocab
    ensures !Garbles(t, p) ==> DecodeToken(t, t.tables.vocab[p]) == Plainly(p)
    ensures Garbles(t, p) ==> |DecodeToken(t, t.tables.vocab[p])| < |Plainly(p)|
  {
    hide Spaced, Plainly, TextBytes, Injective, IsSpecial, HexPair, Spelled, AllScored;
    if IsSpecial(t.specials, p) {
      SpecialBytes(t, p);
    } else if Bracketed(TextBytes(p)) {
      BracketedPlain(p);
    } else {
      PlainlyIs(p);
    }
  }

  lemma PlainlyIs(p: Text)
    ensures Plainly(p) == TextBytes(Spaced(p))
  {
  }

  lemma {:induction false} MetaspaceIsLong(p: Text, k: nat)
    requires k < |p| && p[k] == METASPACE
    ensures exists i :: 0 <= i < |TextBytes(p)| - 2 && TextBytes(p)[i] == 0xE2 && TextBytes(p)[i + 1] == 0x96
                        && TextBytes(p)[i + 2] == 0x81
    decreases |p|
  {
    var u, rest := Utf8(p[0]), TextBytes(p[1..]);
    if k == 0 {
      assert u == [0xE2, 0x96, 0x81];
      assert TextBytes(p)[0] == u[0] && TextBytes(p)[1] == u[1] && TextBytes(p)[2] == u[2];
    } else {
      MetaspaceIsLong(p[1..], k - 1);
      var i :| 0 <= i < |rest| - 2 && rest[i] == 0xE2 && rest[i + 1] == 0x96 && rest[i + 2] == 0x81;
      var j := |u| + i;
      assert TextBytes(p)[j] == rest[i] && TextBytes(p)[j + 1] == rest[i + 1] && TextBytes(p)[j + 2] == rest[i + 2];
    }
  }

  lemma BracketedPlain(p: Text)
    requires Bracketed(TextBytes(p))
    ensures Plainly(p) == TextBytes(p) && |Plainly(p)| == 6
  {
    forall k | 0 <= k < |p| ensures p[k] != METASPACE {
      if p[k] == METASPACE { MetaspaceIsLong(p, k); }
    }
    NotSpaced(p);
  }

  // ---------------------------------------------------------------- characters

  lemma AsciiChars(s: seq<Byte>)
    requires forall k :: 0 <= k < |s| ==> s[k] < 0x80
    ensures TextBytes(s) == s
    decreases |s|
  {
    if s != [] {
      AsciiChars(s[1..]);
      assert [s[0]] + s[1..] == s;
    }
  }

  lemma HexUpperIs(d: nat)
    requires d < 16
    ensures IsHex(HexUpper(d)) && HexUpper(d) < 0x80 && HexDigit(HexUpper(d)) == d
  {
  }

  /** The token for a byte stands for the byte. */
  lemma SpellingStands(t: Tokenizer, b: Byte)
    requires SpLoaded(t)
    ensures b in t.tables.byteIds && DecodeToken(t, t.tables.byteIds[b]) == [b]
    ensures ByteSpelling(b) in t.tables.vocab && Garbles(t, ByteSpelling(b))
    ensures TextBytes(ByteSpelling(b)) == ByteSpelling(b)
  {
    hide IsSpecial, Injective, AllScored, HexUpper;
    HexUpperIs(b / 16);
    HexUpperIs(b % 16);
    assert Spelled(t, b);
    AsciiChars(ByteSpelling(b));
  }

  lemma {:induction false} FallbackStands(t: Tokenizer, bs: seq<Byte>)
    requires SpLoaded(t)
    ensures Decode(t, ByteFallback(t.tables, bs)) == bs && |ByteFallback(t.tables, bs)| == |bs|
    decreases |bs|
  {
    hide SpLoaded;
    if bs != [] {
      SpellingStands(t, bs[0]);
      FallbackStands(t, bs[1..]);
      var id := t.tables.byteIds[bs[0]];
      DecodeOne(t, id);
      DecodeConcat(t, [id], ByteFallback(t.tables, bs[1..]));
      assert [bs[0]] + bs[1..] == bs;
    }
  }

  lemma OneCharIsShort(c: nat)
    ensures TextBytes([c]) == Utf8(c) && |Utf8(c)| <= 4
  {
    TextOne(c);
  }

  lemma CharStands(t: Tokenizer, c: nat)
    requires SpLoaded(t)
    ensures Decode(t, CharIds(t.tables, c)) == Plainly([c])
  {
    hide Utf8, Plainly, DecodeToken, ByteFallback, Spelled, AllScored;
    OneCharIsShort(c);
    if [c] in t.tables.vocab {
      assert !Garbles(t, [c]);
      TokenStands(t, [c]);
      DecodeOne(t, t.tables.vocab[[c]]);
    } else {
      NotSpaced([c]);
      FallbackStands(t, Utf8(c));
    }
  }

  lemma {:induction false} SpellStands(t: Tokenizer, s: Text)
    requires SpLoaded(t)
    ensures Decode(t, SpellIds(t.tables, s)) == Plainly(s)
    decreases |s|
  {
    hide SpLoaded, Plainly, CharIds;
    if s == [] {
      PlainlyNone();
    } else {
      CharStands(t, s[0]);
      SpellStands(t, s[1..]);
      DecodeConcat(t, CharIds(t.tables, s[0]), SpellIds(t.tables, s[1..]));
      PlainlyConcat([s[0]], s[1..]);
      assert [s[0]] + s[1..] == s;
    }
  }

  // ---------------------------------------------------------------- merged parts

  predicate NoneGarble(t: Tokenizer, parts: Parts) { forall k :: 0 <= k < |parts| ==> !Garbles(t, parts[k]) }

  lemma PartStands(t: Tokenizer, p: Text)
    requires SpLoaded(t)
    ensures !Garbles(t, p) ==> Decode(t, PartIds(t.tables, p)) == Plainly(p)
    ensures Garbles(t, p) ==> |Decode(t, PartIds(t.tables, p))| < |Plainly(p)|
  {
    hide SpLoaded, Plainly, DecodeToken, SpellIds;
    if p in t.tables.vocab {
      TokenStands(t, p);
      DecodeOne(t, t.tables.vocab[p]);
    } else {
      SpellStands(t, p);
    }
  }

  /** The ids of merged parts decode to the text of the parts exactly when none of them garbles. */
  lemma {:induction false} PartsStand(t: Tokenizer, parts: Parts)
    requires SpLoaded(t)
    ensures NoneGarble(t, parts) ==> Decode(t, PartsIds(t.tables, parts)) == Plainly(Flat(parts))
    ensures |Decode(t, PartsIds(t.tables, parts))| <= |Plainly(Flat(parts))|
    ensures !NoneGarble(t, parts) ==> |Decode(t, PartsIds(t.tables, parts))| < |Plainly(Flat(parts))|
    decreases |parts|
  {
    hide SpLoaded, Plainly, PartIds, Garbles;
    if parts == [] {
      PlainlyNone();
    } else {
      PartStands(t, parts[0]);
      PartsStand(t, parts[1..]);
      DecodeConcat(t, PartIds(t.tables, parts[0]), PartsIds(t.tables, parts[1..]));
      PlainlyConcat(parts[0], Flat(parts[1..]));
      assert forall k :: 1 <= k < |parts| ==> parts[k] == parts[1..][k - 1];
      if NoneGarble(t, parts) { assert NoneGarble(t, parts[1..]); }
    }
  }

  /** Merging: decoding gives the text back exactly when no part the loop makes garbles. */
  lemma MergedStands(t: Tokenizer, s: Text)
    requires SpLoaded(t)
    ensures Decode(t, Encode(t.tables, s)) == Plainly(s) <==> NoneGarble(t, Loop(t.tables, Singles(s)))
  {
    hide SpLoaded, Plainly, Loop, PartsIds, Singles, NoneGarble;
    LoopKeeps(t.tables, Singles(s));
    FlatSingles(s);
    PartsStand(t, Loop(t.tables, Singles(s)));
  }

  // ---------------------------------------------------------------- paths

  /** The pieces of text under the edges. */
  function Stretches(s: Text, path: seq<Unigram.Edge>): (parts: Parts)
    ensures |parts| == |path|
  {
    seq(|path|, k requires 0 <= k < |path| => Under(s, path[k]))
  }

  function Under(s: Text, e: Unigram.Edge): Text { if e.from <= e.to <= |s| then s[e.from..e.to] else [] }

  lemma MetaspaceIsPiece(t: Tokenizer, s: Text, i: nat)
    requires SpLoaded(t) && t.tables.scores != [] && i < |s| && s[i] == METASPACE
    ensures Unigram.PieceAt(t.tables, s, i, i + 1)
  {
    hide Injective, SpTableOk, Spelled;
    assert s[i..i + 1] == [METASPACE];
  }

  /** A fallback edge is never over a metaspace: that is a piece wherever the path gets to. */
  lemma FallbackElsewhere(t: Tokenizer, s: Text, i: nat)
    requires SpLoaded(t) && t.tables.scores != [] && Unigram.Reach(t.tables, s, i) && i < |s|
    requires !Unigram.PieceEnds(t.tables, s, i + 1)
    ensures s[i] != METASPACE
  {
    hide SpLoaded, Unigram.Reach, Unigram.PieceAt;
    if s[i] == METASPACE { MetaspaceIsPiece(t, s, i); }
  }

  lemma EdgeStands(t: Tokenizer, s: Text, e: Unigram.Edge)
    requires SpLoaded(t) && t.tables.scores != [] && Unigram.IsEdge(t.tables, s, e)
    requires Unigram.Reach(t.tables, s, e.from)
    ensures e.from < e.to <= |s|
    ensures !Garbles(t, Under(s, e)) ==> Decode(t, e.ids) == Plainly(Under(s, e))
    ensures Garbles(t, Under(s, e)) ==> |Decode(t, e.ids)| < |Plainly(Under(s, e))|
  {
    hide SpLoaded, Unigram.Reach, Unigram.PieceEnds, Plainly, DecodeToken, Decode, ByteFallback, Utf8;
    if Unigram.PieceAt(t.tables, s, e.from, e.to) && e == Unigram.PieceEdge(t.tables, s, e.from, e.to) {
      TokenStands(t, Under(s, e));
      DecodeOne(t, t.tables.vocab[Under(s, e)]);
    } else {
      var c := s[e.from];
      assert Under(s, e) == [c];
      FallbackElsewhere(t, s, e.from);
      OneCharIsShort(c);
      FallbackStands(t, Utf8(c));
      NotSpaced([c]);
    }
  }

  lemma StretchesSnoc(s: Text, path: seq<Unigram.Edge>)
    requires path != []
    ensures var k := |path| - 1; Stretches(s, path) == Stretches(s, path[..k]) + [Under(s, path[k])]
  {
  }

  lemma SnocGarble(t: Tokenizer, parts: Parts, p: Text)
    ensures NoneGarble(t, parts + [p]) <==> NoneGarble(t, parts) && !Garbles(t, p)
  {
    hide Garbles;
    var all := parts + [p];
    assert all[|parts|] == p;
    assert forall k :: 0 <= k < |parts| ==> all[k] == parts[k];
  }

  /** The ids of a path decode to the text under it exactly when no piece of it garbles. */
  lemma {:induction false} PathStands(t: Tokenizer, s: Text, path: seq<Unigram.Edge>, to: nat)
    requires SpLoaded(t) && t.tables.scores != [] && Unigram.Path(t.tables, s, path, to)
    ensures to <= |s| && |Decode(t, Unigram.PathIds(path))| <= |Plainly(s[..to])|
    ensures NoneGarble(t, Stretches(s, path)) ==> Decode(t, Unigram.PathIds(path)) == Plainly(s[..to])
    ensures !NoneGarble(t, Stretches(s, path)) ==> |Decode(t, Unigram.PathIds(path))| < |Plainly(s[..to])|
    decreases |path|
  {
    hide SpLoaded, Plainly, Garbles, Unigram.IsEdge, NoneGarble, Stretches, Under;
    if path == [] {
      PlainlyNone();
      NothingStretched(t, s);
      assert s[..0] == [];
    } else {
      var k := |path| - 1;
      var e := path[k];
      PathStands(t, s, path[..k], e.from);
      Unigram.PathReaches(t.tables, s, path[..k], e.from);
      EdgeStands(t, s, e);
      StretchesSnoc(s, path);
      SnocGarble(t, Stretches(s, path[..k]), Under(s, e));
      DecodeConcat(t, Unigram.PathIds(path[..k]), e.ids);
      UnderIs(s, e);
      PlainlyConcat(s[..e.from], Under(s, e));
    }
  }

  lemma NothingStretched(t: Tokenizer, s: Text)
    ensures NoneGarble(t, Stretches(s, []))
  {
  }

  lemma UnderIs(s: Text, e: Unigram.Edge)
    requires e.from <= e.to <= |s|
    ensures s[..e.from] + Under(s, e) == s[..e.to]
  {
  }

  // ---------------------------------------------------------------- texts without spelled bytes

  /** No stretch of the text is a garbling token. */
  predicate Clean(t: Tokenizer, s: Text) { forall i, j :: 0 <= i <= j <= |s| ==> !Garbles(t, s[i..j]) }

  lemma CleanPart(t: Tokenizer, s: Text, i: nat, j: nat)
    requires Clean(t, s) && i <= j <= |s|
    ensures Clean(t, s[i..j])
  {
    hide Garbles;
    forall a, b | 0 <= a <= b <= j - i ensures !Garbles(t, s[i..j][a..b]) {
      var u, v := s[i..j][a..b], s[i + a..i + b];
      forall k | 0 <= k < b - a ensures u[k] == v[k] { assert u[k] == s[i..j][a + k] && v[k] == s[i + a + k]; }
      assert u == v;
    }
  }

  /** Every part is a stretch of the text of all. */
  lemma {:induction false} PartIsStretch(parts: Parts, k: nat) returns (i: nat, j: nat)
    requires k < |parts|
    ensures i <= j <= |Flat(parts)| && parts[k] == Flat(parts)[i..j]
    decreases |parts|
  {
    if k == 0 {
      i, j := 0, |parts[0]|;
    } else {
      var a, b := PartIsStretch(parts[1..], k - 1);
      i, j := |parts[0]| + a, |parts[0]| + b;
      assert Flat(parts)[i..j] == Flat(parts[1..])[a..b];
    }
  }

  lemma CleanParts(t: Tokenizer, parts: Parts)
    requires Clean(t, Flat(parts))
    ensures forall k :: 0 <= k < |parts| ==> Clean(t, parts[k])
    ensures NoneGarble(t, parts)
  {
    hide Garbles, Clean, Flat;
    forall k | 0 <= k < |parts| ensures Clean(t, parts[k]) && !Garbles(t, parts[k]) {
      var i, j := PartIsStretch(parts, k);
      CleanPart(t, Flat(parts), i, j);
      CleanSelf(t, parts[k]);
    }
  }

  lemma CleanSelf(t: Tokenizer, p: Text)
    requires Clean(t, p)
    ensures !Garbles(t, p)
  {
    hide Garbles;
    assert p[0..|p|] == p;
  }

  lemma CleanPath(t: Tokenizer, s: Text, path: seq<Unigram.Edge>)
    requires Clean(t, s)
    ensures NoneGarble(t, Stretches(s, path))
  {
    hide Garbles;
    assert s[0..0] == [];
  }

  lemma WordStands(t: Tokenizer, s: Text, ids: seq<nat>)
    requires SpLoaded(t) && Clean(t, s)
    requires if t.tables.scores == [] then ids == Encode(t.tables, s) else Unigram.Segments(t.tables, s, ids)
    ensures Decode(t, ids) == Plainly(s)
  {
    hide SpLoaded, Clean, Plainly, Decode, Loop, NoneGarble, Singles, Unigram.Reach, Unigram.Path, Encode;
    if t.tables.scores != [] && Unigram.Reach(t.tables, s, |s|) {
      var path :| Unigram.IsOptimal(t.tables, s, path) && ids == Unigram.PathIds(path);
      PathStands(t, s, path, |s|);
      CleanPath(t, s, path);
      assert s[..|s|] == s;
    } else {
      LoopKeeps(t.tables, Singles(s));
      FlatSingles(s);
      CleanParts(t, Loop(t.tables, Singles(s)));
      MergedStands(t, s);
    }
  }

  lemma {:induction false} ScoredWords(t: Tokenizer, pieces: seq<Text>, ids: seq<nat>)
    requires SpLoaded(t) && t.tables.scores != [] && SentencePiece.SegmentsAll(t.tables, pieces, ids)
    requires forall k :: 0 <= k < |pieces| ==> Clean(t, pieces[k])
    ensures Decode(t, ids) == Plainly(Flat(pieces))
    decreases |pieces|
  {
    hide SpLoaded, Clean, Plainly, Unigram.Segments;
    if pieces == [] {
      PlainlyNone();
    } else {
      var mine, rest :| ids == mine + rest && Unigram.Segments(t.tables, pieces[0], mine)
                        && SentencePiece.SegmentsAll(t.tables, pieces[1..], rest);
      WordStands(t, pieces[0], mine);
      ScoredWords(t, pieces[1..], rest);
      DecodeConcat(t, mine, rest);
      PlainlyConcat(pieces[0], Flat(pieces[1..]));
    }
  }

  lemma {:induction false} MergedWords(t: Tokenizer, pieces: seq<Text>)
    requires SpLoaded(t) && t.tables.scores == [] && forall k :: 0 <= k < |pieces| ==> Clean(t, pieces[k])
    ensures Decode(t, EncodeAll(t.tables, pieces)) == Plainly(Flat(pieces))
    decreases |pieces|
  {
    hide SpLoaded, Clean, Plainly, Encode;
    if pieces == [] {
      PlainlyNone();
    } else {
      WordStands(t, pieces[0], Encode(t.tables, pieces[0]));
      MergedWords(t, pieces[1..]);
      DecodeConcat(t, Encode(t.tables, pieces[0]), EncodeAll(t.tables, pieces[1..]));
      PlainlyConcat(pieces[0], Flat(pieces[1..]));
    }
  }

  /** Spaces become metaspaces, and come back as spaces. */
  lemma NormalizedStands(t: Tables, seg: Text, first: bool)
    ensures Plainly(SentencePiece.Normalize(t, seg, first))
            == (if t.prepend && first then [0x20] else []) + Plainly(seg)
  {
    hide Plainly;
    var head: Text := if t.prepend && first then [METASPACE] else [];
    PlainlyConcat(head, SentencePiece.Metaspaced(seg));
    SameSpaced(seg);
    PlainlyNone();
    MetaspaceStands();
  }

  lemma MetaspaceStands()
    ensures Plainly([METASPACE]) == [0x20]
  {
    assert Spaced([METASPACE]) == [0x20];
    TextOne(0x20);
  }

  lemma SameSpaced(seg: Text)
    ensures Plainly(SentencePiece.Metaspaced(seg)) == Plainly(seg)
  {
    assert Spaced(SentencePiece.Metaspaced(seg)) == Spaced(seg);
  }

  /** A segment that spells no byte token is given back, with the prepended space and with every metaspace
      character as a space. */
  lemma SegmentRoundTrip(t: Tokenizer, seg: Text, first: bool, ids: seq<nat>)
    requires SpLoaded(t) && Clean(t, SentencePiece.Normalize(t.tables, seg, first))
    requires SentencePiece.Encodes(t.tables, Pieces(SentencePiece.Normalize(t.tables, seg, first), 0, 0), ids)
    ensures Decode(t, ids) == (if t.tables.prepend && first then [0x20] else []) + Plainly(seg)
  {
    hide SpLoaded, Clean, Plainly, Pieces, SentencePiece.Normalize, SentencePiece.SegmentsAll, EncodeAll, Decode;
    var norm := SentencePiece.Normalize(t.tables, seg, first);
    var pieces := Pieces(norm, 0, 0);
    PiecesFlat(norm, 0, 0);
    assert norm[0..] == norm;
    CleanParts(t, pieces);
    if t.tables.scores == [] { MergedWords(t, pieces); } else { ScoredWords(t, pieces, ids); }
    NormalizedStands(t.tables, seg, first);
  }

  /** The same for the running code, on a text without metaspace characters. */
  method EncodeSpDecodes(t: Tokenizer, seg: Text, first: bool) returns (ids: seq<nat>)
    ensures SpLoaded(t) && Clean(t, SentencePiece.Normalize(t.tables, seg, first)) && METASPACE !in seg ==>
              Decode(t, ids) == (if t.tables.prepend && first then [0x20] else []) + TextBytes(seg)
  {
    hide SpLoaded, Clean, Plainly, SentencePiece.Encodes, SentencePiece.Normalize, Pieces, Decode;
    ghost var mine;
    ids, mine := SentencePiece.EncodeSp(t.tables, seg, first, []);
    assert ids == mine;
    if SpLoaded(t) && Clean(t, SentencePiece.Normalize(t.tables, seg, first)) && METASPACE !in seg {
      SegmentRoundTrip(t, seg, first, ids);
      NotSpaced(seg);
    }
  }

  // ---------------------------------------------------------------- the condition is needed

  /** Nothing in the vocabulary is a stretch of the text, save the whole. */
  predicate Only(t: Tokenizer, s: Text) {
    forall i, j :: 0 <= i <= j <= |s| && s[i..j] in t.tables.vocab ==> i == 0 && j == |s|
  }

  lemma OnlyPath(t: Tokenizer, s: Text, path: seq<Unigram.Edge>)
    requires Only(t, s) && Unigram.PieceAt(t.tables, s, 0, |s|) && Unigram.Path(t.tables, s, path, |s|)
    ensures s in t.tables.vocab && Unigram.PathIds(path) == [t.tables.vocab[s]]
  {
    hide Unigram.PieceEnds;
    assert s[0..|s|] == s;
    var k := |path| - 1;
    var e := path[k];
    assert Unigram.PieceEnds(t.tables, s, |s|) by { WholeEnds(t, s); }
    assert s[e.from..|s|] in t.tables.vocab;
    Unigram.PathMoves(t.tables, s, path[..k], 0);
    assert Unigram.PathIds([]) == [];
  }

  lemma WholeEnds(t: Tokenizer, s: Text)
    requires Unigram.PieceAt(t.tables, s, 0, |s|)
    ensures Unigram.PieceEnds(t.tables, s, |s|) && Unigram.Reach(t.tables, s, |s|)
  {
    assert Unigram.Reach(t.tables, s, 0);
  }

  lemma OnlyIds(t: Tokenizer, s: Text, ids: seq<nat>)
    requires Only(t, s) && Unigram.PieceAt(t.tables, s, 0, |s|) && Unigram.Segments(t.tables, s, ids)
    ensures s in t.tables.vocab && ids == [t.tables.vocab[s]]
  {
    hide Only, Unigram.Path, Unigram.PathIds, Unigram.Reach, Unigram.PieceAt;
    WholeEnds(t, s);
    var path :| Unigram.IsOptimal(t.tables, s, path) && ids == Unigram.PathIds(path);
    OnlyPath(t, s, path);
  }

  /** The spelling of a byte, written as text, is taken for the byte's token and comes back as the byte. */
  lemma SpellingIsLost(t: Tokenizer, b: Byte, ids: seq<nat>)
    requires SpLoaded(t) && t.tables.scores != [] && t.tables.maxPiece >= 6 && Only(t, ByteSpelling(b))
    requires Unigram.Segments(t.tables, ByteSpelling(b), ids)
    ensures Decode(t, ids) == [b]
  {
    hide Only, Decode, HexUpper, DecodeToken, Unigram.Segments, Unigram.PieceAt, Injective, SpTableOk, IsSpecial,
         AllScored;
    var s := ByteSpelling(b);
    SpellingStands(t, b);
    SpellingScored(t, b);
    OnlyIds(t, s, ids);
    assert Spelled(t, b);
    DecodeOne(t, t.tables.vocab[s]);
  }

  lemma SpellingScored(t: Tokenizer, b: Byte)
    requires SpLoaded(t) && t.tables.scores != [] && t.tables.maxPiece >= 6
    ensures Unigram.PieceAt(t.tables, ByteSpelling(b), 0, 6)
  {
    hide HexUpper, Injective, SpTableOk, IsSpecial;
    assert Spelled(t, b);
    var s := ByteSpelling(b);
    assert s[0..6] == s;
  }

  /** The smallest metaspace vocabulary: the tokens of the bytes, and the metaspace. */
  ghost function SmallTokens(): set<Text> { (set b: Byte | 0 <= b < 256 :: ByteSpelling(b)) + {[METASPACE]} }

  ghost function SmallId(p: Text): nat {
    if exists b: Byte :: p == ByteSpelling(b) then (var b: Byte :| p == ByteSpelling(b); b) else 256
  }

  ghost function Small(): Tokenizer {
    var vocab := map p | p in SmallTokens() :: SmallId(p);
    var bytes := map b: Byte | ByteSpelling(b) in SmallTokens() :: (b as nat);
    var table := map id: nat | id < 257 :: (if id < 256 then [id] else [0x20]);
    Tokenizer(Tables(vocab, map[], true, false, bytes, seq(257, _ => -1.0), 6, -11.0), [], table, None, false)
  }

  lemma SpellingInjective(a: Byte, b: Byte)
    requires ByteSpelling(a) == ByteSpelling(b)
    ensures a == b
  {
    hide HexUpper;
    HexUpperIs(a / 16);
    HexUpperIs(a % 16);
    HexUpperIs(b / 16);
    HexUpperIs(b % 16);
    assert ByteSpelling(a)[3] == ByteSpelling(b)[3] && ByteSpelling(a)[4] == ByteSpelling(b)[4];
  }

  lemma SmallIdIs(b: Byte)
    ensures SmallId(ByteSpelling(b)) == b && SmallId([METASPACE]) == 256
  {
    hide ByteSpelling;
    var c: Byte :| ByteSpelling(b) == ByteSpelling(c) && SmallId(ByteSpelling(b)) == c;
    SpellingInjective(b, c);
    forall d: Byte ensures [METASPACE] != ByteSpelling(d) { SpellingLong(d); }
  }

  lemma SpellingLong(b: Byte)
    ensures |ByteSpelling(b)| == 6
  {
  }

  lemma SmallBytes(b: Byte)
    ensures SpTokenBytes([], ByteSpelling(b)) == [b] && SpTokenBytes([], [METASPACE]) == [0x20]
  {
    hide HexUpper;
    HexUpperIs(b / 16);
    HexUpperIs(b % 16);
    AsciiChars(ByteSpelling(b));
    MetaspaceStands();
    OneCharIsShort(METASPACE);
  }

  lemma SmallIsLoaded()
    ensures SpLoaded(Small())
  {
    hide ByteSpelling, SmallId, SpTokenBytes;
    var t := Small();
    forall b: Byte ensures Spelled(t, b) { SmallIdIs(b); }
    forall p | p in t.tables.vocab
      ensures t.tables.vocab[p] < 257 && t.idBytes[t.tables.vocab[p]] == SpTokenBytes([], p)
      ensures p == if t.tables.vocab[p] < 256 then ByteSpelling(t.tables.vocab[p]) else [METASPACE]
    {
      if p != [METASPACE] {
        var b: Byte :| p == ByteSpelling(b);
        SmallIdIs(b);
        SmallBytes(b);
      } else {
        SmallIdIs(0);
        SmallBytes(0);
      }
    }
  }

  lemma SpellingChars(b: Byte)
    ensures forall k :: 0 <= k < 6 ==> ByteSpelling(b)[k] < 0x80
  {
    hide HexUpper;
    HexUpperIs(b / 16);
    HexUpperIs(b % 16);
  }

  lemma SmallOnly(b: Byte)
    ensures Only(Small(), ByteSpelling(b))
  {
    hide ByteSpelling;
    var s := ByteSpelling(b);
    SpellingChars(b);
    SpellingLong(b);
    forall c: Byte ensures |ByteSpelling(c)| == 6 { SpellingLong(c); }
    forall i, j | 0 <= i <= j <= |s| && s[i..j] == [METASPACE] ensures s[i] == METASPACE {
      assert s[i..j][0] == s[i];
    }
  }

  /** So for every byte there is a loaded tokenizer that gives the byte for the text that spells it. */
  lemma SpellingsAreLost(b: Byte, ids: seq<nat>)
    requires Unigram.Segments(Small().tables, ByteSpelling(b), ids)
    ensures SpLoaded(Small()) && Decode(Small(), ids) == [b] != TextBytes(ByteSpelling(b))
  {
    hide ByteSpelling, SpLoaded, Only, Unigram.Segments, Small;
    SmallIsLoaded();
    SmallOnly(b);
    SmallScored();
    SpellingIsLost(Small(), b, ids);
    SpellingStands(Small(), b);
    SpellingLong(b);
  }

  lemma SmallScored()
    ensures Small().tables.scores != [] && Small().tables.maxPiece == 6
  {
  }
}
