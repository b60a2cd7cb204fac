/** The metaspace pipeline: normalize, cut into words, encode each word. */
module SentencePiece {
  import opened Bpe
  import Unigram

  const SPACE_CHAR: nat := 0x20

  function Metaspaced(seg: Text): Text {
    seq(|seg|, i requires 0 <= i < |seg| => if seg[i] == SPACE_CHAR then METASPACE else seg[i])
  }

  function Normalize(t: Tables, seg: Text, first: bool): Text {
    (if t.prepend && first then [METASPACE] else []) + Metaspaced(seg)
  }

  /** Each word segmented on its own, the ids in order. */
  ghost predicate SegmentsAll(t: Tables, pieces: seq<Text>, ids: seq<nat>) {
    if pieces == [] then ids == []
    else
      exists mine, rest ::
        ids == mine + rest && Unigram.Segments(t, pieces[0], mine) && SegmentsAll(t, pieces[1..], rest)
  }

  lemma {:induction false} SegmentsAllSnoc(t: Tables, pieces: seq<Text>, ids: seq<nat>, piece: Text, mine: seq<nat>)
    requires SegmentsAll(t, pieces, ids) && Unigram.Segments(t, piece, mine)
    ensures SegmentsAll(t, pieces + [piece], ids + mine)
    decreases |pieces|
  {
    hide Unigram.Segments;
    var all := pieces + [piece];
    if pieces == [] {
      assert ids + mine == mine + [] && all[1..] == [] && SegmentsAll(t, all[1..], []);
    } else {
      var u, v :| ids == u + v && Unigram.Segments(t, pieces[0], u) && SegmentsAll(t, pieces[1..], v);
      SegmentsAllSnoc(t, pieces[1..], v, piece, mine);
      assert all[1..] == pieces[1..] + [piece];
      assert ids + mine == u + (v + mine);
    }
  }

  /** The ids appended for the words `pieces`. */
  ghost predicate Encodes(t: Tables, pieces: seq<Text>, ids: seq<nat>) {
    if t.scores == [] then ids == EncodeAll(t, pieces) else SegmentsAll(t, pieces, ids)
  }

  lemma {:induction false} EncodeAllSnoc(t: Tables, pieces: seq<Text>, piece: Text)
    ensures EncodeAll(t, pieces + [piece]) == EncodeAll(t, pieces) + Encode(t, piece)
    decreases |pieces|
  {
    hide Encode;
    var all := pieces + [piece];
    if pieces == [] {
      assert all[1..] == [] && Encode(t, piece) + [] == Encode(t, piece);
    } else {
      assert all[1..] == pieces[1..] + [piece];
      EncodeAllSnoc(t, pieces[1..], piece);
    }
  }

  method EncodeWord(t: Tables, piece: Text, out: seq<nat>, ghost pieces: seq<Text>, ghost ids: seq<nat>)
    returns (out': seq<nat>, ghost ids': seq<nat>)
    requires Encodes(t, pieces, ids)
    ensures Encodes(t, pieces + [piece], ids')
    ensures exists mine :: out' == out + mine && ids' == ids + mine
  {
    hide Encode, Unigram.Segments, SegmentsAll, EncodeAll;
    ghost var mine;
    if t.scores == [] {
      out' := EncodePiece(t, piece, out);
      mine := Encode(t, piece);
      EncodeAllSnoc(t, pieces, piece);
    } else {
      out', mine := Unigram.EncodeUnigram(t, piece, out);
      SegmentsAllSnoc(t, pieces, ids, piece, mine);
    }
    ids' := ids + mine;
  }

  /** Appends the ids of one text segment. */
  method EncodeSp(t: Tables, seg: Text, first: bool, out: seq<nat>) returns (ids: seq<nat>, ghost mine: seq<nat>)
    ensures ids == out + mine && Encodes(t, Pieces(Normalize(t, seg, first), 0, 0), mine)
  {
    hide Encodes;
    var norm := [];
    if t.prepend && first { norm := [METASPACE]; }
    ghost var head := norm;
    for i := 0 to |seg|
      invariant norm == head + Metaspaced(seg)[..i]
    {
      norm := norm + [if seg[i] == SPACE_CHAR then METASPACE else seg[i]];
    }
    assert Metaspaced(seg)[..|seg|] == Metaspaced(seg);
    ids, mine := EncodeWords(t, norm, out);
  }

  method EncodeWords(t: Tables, norm: Text, out: seq<nat>) returns (ids: seq<nat>, ghost mine: seq<nat>)
    ensures ids == out + mine && Encodes(t, Pieces(norm, 0, 0), mine)
  {
    hide Encodes;
    ids, mine := out, [];
    assert Encodes(t, [], []) by { NoWords(t); }
    ghost var done: seq<Text> := [];
    ghost var all := Pieces(norm, 0, 0);
    var start := 0;
    if norm == [] { return; }
    assert !Cut(norm, 0) && all == Pieces(norm, 0, 1);
    for i := 1 to |norm|
      invariant start < i && done + Pieces(norm, start, i) == all
      invariant ids == out + mine && Encodes(t, done, mine)
    {
      if norm[i] == METASPACE && norm[i - 1] != METASPACE {
        ghost var before := mine;
        ids, mine := EncodeWord(t, norm[start..i], ids, done, mine);
        assert done + ([norm[start..i]] + Pieces(norm, i, i + 1)) == done + [norm[start..i]] + Pieces(norm, i, i + 1);
        done := done + [norm[start..i]];
        start := i;
      }
    }
    ids, mine := EncodeWord(t, norm[start..], ids, done, mine);
  }

  lemma NoWords(t: Tables)
    ensures Encodes(t, [], [])
  {
  }

  /** With merges only, and no live rule crossing words, the segment is encoded as one piece would be. */
  method EncodeSpWhole(t: Tables, seg: Text, first: bool, out: seq<nat>) returns (ids: seq<nat>)
    requires t.scores == [] && KeepsWords(t)
    ensures ids == out + Encode(t, Normalize(t, seg, first))
  {
    hide KeepsWords, Encode, Normalize, EncodeAll;
    ghost var mine;
    ids, mine := EncodeSp(t, seg, first, out);
    WordsEqualWhole(t, Normalize(t, seg, first));
  }
}
