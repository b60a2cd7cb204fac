/** Where the tokenizer cuts a text: at the leftmost occurrences of the specials, special by special,
    and between them into runs of bytes of one kind. */
module TextCuts {
  import opened Bytes
  import opened Search
  import opened Bpe
  import opened ByteLevel

  // ---------------------------------------------------------------- one special

  /** `w` stands at `p` in `t` and nowhere before. */
  predicate FirstAt(t: seq<Byte>, w: seq<Byte>, p: nat) {
    Stands(t, p, w) && forall k :: 0 <= k < p ==> !Stands(t, k, w)
  }

  predicate Free(t: seq<Byte>, w: seq<Byte>) { forall k :: 0 <= k <= |t| ==> !Stands(t, k, w) }

  /** Unmarked segments are not empty and hold no occurrence, and each occurrence is the first one in
      what comes before it and itself. */
  predicate Leftmost(segs: seq<Segment>, literal: seq<Byte>)
    decreases |segs|
  {
    if segs == [] then true
    else if segs[0].special then segs[0].text == literal && Leftmost(segs[1..], literal)
    else
      && segs[0].text != [] && Free(segs[0].text, literal)
      && (|segs| > 1 ==>
            && segs[1] == Segment(true, literal) && FirstAt(segs[0].text + literal, literal, |segs[0].text|)
            && Leftmost(segs[2..], literal))
  }

  lemma FindFirst(t: seq<Byte>, w: seq<Byte>)
    ensures Find(t, w).Some? ==> FirstAt(t, w, Find(t, w).value)
    ensures Find(t, w).None? ==> Free(t, w)
  {
    hide Stands;
    forall k: nat ensures Stands(t, k, w) <==> k <= |t| && w <= t[k..] { StandsIs(t, k, w); }
  }

  lemma FirstFound(t: seq<Byte>, w: seq<Byte>, p: nat)
    requires FirstAt(t, w, p)
    ensures Find(t, w) == Some(p)
  {
    hide Stands;
    FindFirst(t, w);
    StandsIs(t, p, w);
  }

  lemma FreeNotFound(t: seq<Byte>, w: seq<Byte>)
    requires Free(t, w)
    ensures Find(t, w) == None
  {
    hide Stands;
    FindFirst(t, w);
    if Find(t, w).Some? { StandsIs(t, Find(t, w).value, w); }
  }

  /** What stands behind an occurrence does not move it. */
  lemma FirstInFront(a: seq<Byte>, w: seq<Byte>, z: seq<Byte>)
    ensures FirstAt(a + w + z, w, |a|) <==> FirstAt(a + w, w, |a|)
  {
    forall k: nat | k <= |a| ensures Stands(a + w + z, k, w) <==> Stands(a + w, k, w) { StandsInFront(a + w, z, k, w); }
    hide Stands;
  }

  lemma StandsInFront(a: seq<Byte>, z: seq<Byte>, k: nat, w: seq<Byte>)
    requires k + |w| <= |a|
    ensures Stands(a + z, k, w) <==> Stands(a, k, w)
  {
    assert (a + z)[k..k + |w|] == a[k..k + |w|];
  }

  lemma FreeBefore(a: seq<Byte>, w: seq<Byte>, z: seq<Byte>)
    requires FirstAt(a + w + z, w, |a|) && w != []
    ensures Free(a, w)
  {
    forall k: nat ensures !Stands(a, k, w) {
      if Stands(a, k, w) {
        assert a + w + z == a + (w + z);
        StandsInFront(a, w + z, k, w);
      }
    }
  }

  lemma SplitHere(a: seq<Byte>, literal: seq<Byte>, z: seq<Byte>)
    requires literal != [] && FirstAt(a + literal + z, literal, |a|)
    ensures Split(a + literal + z, literal) == Plain(a) + [Segment(true, literal)] + Split(z, literal)
  {
    FirstFound(a + literal + z, literal, |a|);
    assert (a + literal + z)[..|a|] == a && (a + literal + z)[|a| + |literal|..] == z;
  }

  lemma PartsAround(t: seq<Byte>, w: seq<Byte>, p: nat)
    requires FirstAt(t, w, p)
    ensures t == t[..p] + w + t[p + |w|..]
  {
  }

  lemma LeftmostCons(a: seq<Byte>, literal: seq<Byte>, rest: seq<Segment>)
    requires literal != [] && Leftmost(rest, literal) && FirstAt(a + literal, literal, |a|) && Free(a, literal)
    ensures Leftmost(Plain(a) + [Segment(true, literal)] + rest, literal)
  {
    hide Free, FirstAt;
    var marked := [Segment(true, literal)] + rest;
    assert marked[1..] == rest;
    if a != [] {
      var segs := Plain(a) + [Segment(true, literal)] + rest;
      assert segs[0] == Segment(false, a) && segs[1] == Segment(true, literal) && segs[2..] == rest;
    } else {
      assert Plain(a) + [Segment(true, literal)] + rest == marked;
    }
  }

  lemma {:induction false} SplitIsLeftmost(text: seq<Byte>, literal: seq<Byte>)
    requires literal != []
    ensures Leftmost(Split(text, literal), literal)
    decreases |text|
  {
    hide Find, FirstAt, Free;
    FindFirst(text, literal);
    var p := Find(text, literal);
    if p.Some? {
      var a, z := text[..p.value], text[p.value + |literal|..];
      PartsAround(text, literal, p.value);
      SplitIsLeftmost(z, literal);
      FirstInFront(a, literal, z);
      FreeBefore(a, literal, z);
      LeftmostCons(a, literal, Split(z, literal));
      SplitHere(a, literal, z);
    } else {
      assert Split(text, literal) == Plain(text);
    }
  }

  lemma {:induction false} LeftmostIsSplit(segs: seq<Segment>, literal: seq<Byte>)
    requires literal != [] && Leftmost(segs, literal)
    ensures segs == Split(Joined(segs), literal)
    decreases |segs|
  {
    hide Find, FirstAt, Free, Split;
    if segs == [] {
      NothingSplit(literal);
    } else if segs[0].special {
      LeftmostIsSplit(segs[1..], literal);
      var z := Joined(segs[1..]);
      AtOnce(literal, z);
      SplitHere([], literal, z);
      assert [] + literal + z == literal + z;
      assert segs == [Segment(true, literal)] + segs[1..];
    } else if |segs| == 1 {
      JoinedOne(segs[0]);
      assert segs == [segs[0]];
      FreeNotFound(segs[0].text, literal);
      WholePlain(segs[0].text, literal);
    } else {
      var a, z := segs[0].text, Joined(segs[2..]);
      LeftmostIsSplit(segs[2..], literal);
      assert segs[1..][1..] == segs[2..];
      assert Joined(segs) == a + literal + z by { assert Joined(segs[1..]) == literal + z; AddedUp(a, literal, z); }
      FirstInFront(a, literal, z);
      SplitHere(a, literal, z);
      assert segs == Plain(a) + [Segment(true, literal)] + segs[2..];
    }
  }

  lemma AddedUp(a: seq<Byte>, b: seq<Byte>, c: seq<Byte>)
    ensures a + (b + c) == a + b + c
  {
  }

  lemma NothingSplit(literal: seq<Byte>)
    requires literal != []
    ensures Split([], literal) == [] == Plain([])
  {
  }

  lemma WholePlain(text: seq<Byte>, literal: seq<Byte>)
    requires literal != [] && Find(text, literal).None? && text != []
    ensures Split(text, literal) == [Segment(false, text)]
  {
  }

  lemma AtOnce(literal: seq<Byte>, z: seq<Byte>)
    ensures FirstAt([] + literal + z, literal, 0)
  {
  }

  /** Splitting at one special is cutting at its leftmost occurrences, and nothing else is. */
  lemma SplitExactly(text: seq<Byte>, literal: seq<Byte>, segs: seq<Segment>)
    requires literal != []
    ensures segs == Split(text, literal) <==> Joined(segs) == text && Leftmost(segs, literal)
  {
    hide Leftmost, Split;
    SplitIsLeftmost(text, literal);
    SplitKeeps(text, literal, [literal]) by { assert [literal][0] == literal; }
    if Leftmost(segs, literal) { LeftmostIsSplit(segs, literal); }
  }

  // ---------------------------------------------------------------- all specials

  /** What becomes of one segment. */
  predicate CutOne(g: Segment, literal: seq<Byte>, parts: seq<Segment>) {
    if g.special then parts == [g] else Joined(parts) == g.text && Leftmost(parts, literal)
  }

  ghost predicate CutEach(segs: seq<Segment>, literal: seq<Byte>, next: seq<Segment>)
    decreases |segs|
  {
    if segs == [] then next == []
    else
      exists n :: 0 <= n <= |next| && CutOne(segs[0], literal, next[..n]) && CutEach(segs[1..], literal, next[n..])
  }

  /** The text cut at the first `k` specials: marked segments stay, the others are cut at the leftmost
      occurrences of the next special. */
  ghost predicate CutAt(text: seq<Byte>, specials: seq<seq<Byte>>, k: nat, segs: seq<Segment>)
    requires k <= |specials|
  {
    if k == 0 then segs == [Segment(false, text)]
    else
      var j, literal := k - 1, specials[k - 1];
      exists before :: CutAt(text, specials, j, before) && CutEach(before, literal, segs)
  }

  /** What one segment becomes in the splitting. */
  function Parts(g: Segment, literal: seq<Byte>): seq<Segment>
    requires literal != []
  {
    if g.special then [g] else Split(g.text, literal)
  }

  lemma PartsExactly(g: Segment, literal: seq<Byte>, parts: seq<Segment>)
    requires literal != []
    ensures CutOne(g, literal, parts) <==> parts == Parts(g, literal)
  {
    hide Leftmost, Split;
    if !g.special { SplitExactly(g.text, literal, parts); }
  }

  lemma SplitAllStep(segs: seq<Segment>, literal: seq<Byte>)
    requires literal != [] && segs != []
    ensures SplitAll(segs, literal) == Parts(segs[0], literal) + SplitAll(segs[1..], literal)
  {
    hide Split;
  }

  lemma Rejoined<T>(s: seq<T>, n: nat, a: seq<T>, b: seq<T>)
    requires n <= |s|
    ensures n == |a| && s == a + b ==> s[..n] == a && s[n..] == b
    ensures s[..n] == a && s[n..] == b ==> s == a + b
  {
    assert s == s[..n] + s[n..];
  }

  lemma {:induction false} SplitAllExactly(segs: seq<Segment>, literal: seq<Byte>, next: seq<Segment>)
    requires literal != []
    ensures next == SplitAll(segs, literal) <==> CutEach(segs, literal, next)
    decreases |segs|
  {
    hide CutOne, Parts;
    if segs != [] {
      hide SplitAll;
      var mine, others := Parts(segs[0], literal), SplitAll(segs[1..], literal);
      SplitAllStep(segs, literal);
      if next == SplitAll(segs, literal) {
        var n := |mine|;
        Rejoined(next, n, mine, others);
        PartsExactly(segs[0], literal, next[..n]);
        SplitAllExactly(segs[1..], literal, next[n..]);
      }
      if CutEach(segs, literal, next) {
        var n :| 0 <= n <= |next| && CutOne(segs[0], literal, next[..n]) && CutEach(segs[1..], literal, next[n..]);
        PartsExactly(segs[0], literal, next[..n]);
        SplitAllExactly(segs[1..], literal, next[n..]);
        Rejoined(next, n, mine, others);
      }
    }
  }

  /** The segments of a text are those cuts and no others. */
  lemma {:induction false} SegmentsExactly(text: seq<Byte>, specials: seq<seq<Byte>>, k: nat, segs: seq<Segment>)
    requires NoEmptyLiteral(specials) && k <= |specials|
    ensures segs == Segments(text, specials, k) <==> CutAt(text, specials, k, segs)
  {
    hide SplitAll, CutEach;
    if k > 0 {
      var j, literal := k - 1, specials[k - 1];
      forall before: seq<Segment> ensures before == Segments(text, specials, j) <==> CutAt(text, specials, j, before) {
        SegmentsExactly(text, specials, j, before);
      }
      SplitAllExactly(Segments(text, specials, j), literal, segs);
    }
  }

  // ---------------------------------------------------------------- no special is missed

  /** No unmarked segment holds the literal. */
  predicate AllFree(segs: seq<Segment>, w: seq<Byte>) {
    forall k :: 0 <= k < |segs| && !segs[k].special ==> Free(segs[k].text, w)
  }

  lemma {:induction false} LeftmostIsFree(segs: seq<Segment>, literal: seq<Byte>)
    requires Leftmost(segs, literal)
    ensures AllFree(segs, literal)
    decreases |segs|
  {
    hide Free, FirstAt;
    if segs != [] && segs[0].special {
      LeftmostIsFree(segs[1..], literal);
    } else if |segs| > 1 {
      LeftmostIsFree(segs[2..], literal);
      assert forall k :: 2 <= k < |segs| ==> segs[k] == segs[2..][k - 2];
    }
  }

  lemma StandsWithin(t: seq<Byte>, i: nat, j: nat, k: nat, w: seq<Byte>)
    requires i <= j <= |t| && Stands(t[i..j], k, w)
    ensures Stands(t, i + k, w)
  {
    forall m | 0 <= m < |w| ensures t[i + k + m] == w[m] { assert t[i..j][k..k + |w|][m] == t[i..j][k + m]; }
    assert t[i + k..i + k + |w|] == w;
  }

  lemma FreePart(t: seq<Byte>, i: nat, j: nat, w: seq<Byte>)
    requires Free(t, w) && i <= j <= |t|
    ensures Free(t[i..j], w)
  {
    hide Stands;
    forall k | 0 <= k <= j - i ensures !Stands(t[i..j], k, w) {
      assert !Stands(t, i + k, w);
      if Stands(t[i..j], k, w) { StandsWithin(t, i, j, k, w); }
    }
  }

  lemma {:induction false} SplitStaysFree(text: seq<Byte>, literal: seq<Byte>, w: seq<Byte>)
    requires literal != [] && Free(text, w)
    ensures AllFree(Split(text, literal), w)
    decreases |text|
  {
    hide Free;
    var p := Find(text, literal);
    if p.Some? {
      FreePart(text, 0, p.value, w);
      FreePart(text, p.value + |literal|, |text|, w);
      assert text[p.value + |literal|..|text|] == text[p.value + |literal|..];
      SplitStaysFree(text[p.value + |literal|..], literal, w);
    }
  }

  lemma {:induction false} SplitAllFree(segs: seq<Segment>, literal: seq<Byte>, w: seq<Byte>)
    requires literal != [] && (w == literal || AllFree(segs, w))
    ensures AllFree(SplitAll(segs, literal), w)
    decreases |segs|
  {
    hide Free, Split, Leftmost;
    if segs != [] {
      if !segs[0].special {
        if w == literal {
          SplitIsLeftmost(segs[0].text, literal);
          LeftmostIsFree(Split(segs[0].text, literal), literal);
        } else {
          SplitStaysFree(segs[0].text, literal, w);
        }
      }
      SplitAllFree(segs[1..], literal, w);
    }
  }

  /** In the text cut at the specials, no special stands in an unmarked segment. */
  lemma {:induction false} NoSpecialMissed(text: seq<Byte>, specials: seq<seq<Byte>>, k: nat, j: nat)
    requires NoEmptyLiteral(specials) && j < k <= |specials|
    ensures AllFree(Segments(text, specials, k), specials[j])
  {
    hide SplitAll, AllFree;
    if j < k - 1 { NoSpecialMissed(text, specials, k - 1, j); }
    SplitAllFree(Segments(text, specials, k - 1), specials[k - 1], specials[j]);
  }

  // ---------------------------------------------------------------- runs

  predicate IsLetter(b: Byte) { 0x41 <= b <= 0x5A || 0x61 <= b <= 0x7A || 0x80 <= b }

  predicate IsOther(b: Byte) {
    !IsLetter(b) && !(0x30 <= b <= 0x39) && b != 0x20 && b != 0x0A && b != 0x0D
  }

  /** Two bytes that may stand side by side in a piece: both letters or parts of characters beyond ASCII,
      both digits, both spaces, both line ends, or both anything else. */
  predicate Together(a: Byte, b: Byte) {
    || (IsLetter(a) && IsLetter(b)) || (0x30 <= a <= 0x39 && 0x30 <= b <= 0x39) || (a == 0x20 && b == 0x20)
    || (a in [0x0A, 0x0D] && b in [0x0A, 0x0D]) || (IsOther(a) && IsOther(b))
  }

  /** `b[i..j]` is a piece: after one space, if it starts with one, the longest run of such bytes. */
  predicate IsPiece(b: seq<Byte>, i: nat, j: nat) {
    i < |b| && i < j <= |b|
    && var s := if b[i] == 0x20 then i + 1 else i;
       if s == |b| then j == s
       else s < j && (forall k :: s <= k < j ==> Together(b[s], b[k])) && (j < |b| ==> !Together(b[s], b[j]))
  }

  predicate ArePieces(b: seq<Byte>, i: nat, pieces: seq<seq<Byte>>)
    requires i <= |b|
    decreases |pieces|
  {
    if pieces == [] then i == |b|
    else
      var j := i + |pieces[0]|;
      IsPiece(b, i, j) && pieces[0] == b[i..j] && ArePieces(b, j, pieces[1..])
  }

  lemma ClassesTogether(a: Byte, b: Byte)
    ensures Together(a, b) <==> ClassOf(a) == ClassOf(b)
  {
  }

  lemma PieceExactly(b: seq<Byte>, i: nat, j: nat)
    requires i < |b|
    ensures j == PieceEnd(b, i) <==> IsPiece(b, i, j)
  {
    hide Together, ClassOf;
    forall x: Byte, y: Byte ensures Together(x, y) <==> ClassOf(x) == ClassOf(y) { ClassesTogether(x, y); }
  }

  /** The pretokenizer cuts a text into such pieces, and there is no other way to. */
  lemma {:induction false} PreTokensExactly(b: seq<Byte>, i: nat, pieces: seq<seq<Byte>>)
    requires i <= |b|
    ensures pieces == PreTokens(b, i) <==> ArePieces(b, i, pieces)
    decreases |b| - i
  {
    hide PieceEnd, Together;
    if i < |b| && pieces != [] {
      var e, j := PieceEnd(b, i), i + |pieces[0]|;
      PieceExactly(b, i, j);
      if j == e {
        PreTokensExactly(b, e, pieces[1..]);
        assert pieces == [pieces[0]] + pieces[1..];
      }
    }
  }

  // ---------------------------------------------------------------- the ids of a text

  function AllRemapped(pieces: seq<seq<Byte>>): seq<Text> {
    if pieces == [] then [] else [Remap(pieces[0])] + AllRemapped(pieces[1..])
  }

  /** A special gives its id; any other segment the merged ids of its pieces, in the byte alphabet. */
  ghost predicate SegmentCodes(t: Tokenizer, g: Segment, ids: seq<nat>) {
    if g.special then g.text in t.tables.vocab && ids == [t.tables.vocab[g.text]]
    else exists pieces :: ArePieces(g.text, 0, pieces) && ids == EncodeAll(t.tables, AllRemapped(pieces))
  }

  ghost predicate Codes(t: Tokenizer, segs: seq<Segment>, ids: seq<nat>)
    decreases |segs|
  {
    if segs == [] then ids == []
    else exists n :: 0 <= n <= |ids| && SegmentCodes(t, segs[0], ids[..n]) && Codes(t, segs[1..], ids[n..])
  }

  lemma {:induction false} PiecesCode(t: Tokenizer, pieces: seq<seq<Byte>>)
    ensures PiecesIds(t, pieces) == EncodeAll(t.tables, AllRemapped(pieces))
  {
    hide Encode, Remap;
    if pieces != [] {
      PiecesCode(t, pieces[1..]);
      assert ([Remap(pieces[0])] + AllRemapped(pieces[1..]))[1..] == AllRemapped(pieces[1..]);
    }
  }

  lemma SegmentExactly(t: Tokenizer, g: Segment, ids: seq<nat>)
    requires g.special ==> g.text in t.tables.vocab
    ensures ids == SegmentIds(t, g) <==> SegmentCodes(t, g, ids)
  {
    hide ArePieces, PreTokens, EncodeAll, PiecesIds, AllRemapped;
    if !g.special {
      forall pieces: seq<seq<Byte>> ensures pieces == PreTokens(g.text, 0) <==> ArePieces(g.text, 0, pieces) {
        PreTokensExactly(g.text, 0, pieces);
      }
      PiecesCode(t, PreTokens(g.text, 0));
    }
  }

  lemma {:induction false} CodesExactly(t: Tokenizer, segs: seq<Segment>, ids: seq<nat>)
    requires forall k :: 0 <= k < |segs| && segs[k].special ==> segs[k].text in t.tables.vocab
    ensures ids == SegmentsIds(t, segs) <==> Codes(t, segs, ids)
    decreases |segs|
  {
    hide SegmentIds, SegmentCodes;
    if segs != [] {
      var mine := SegmentIds(t, segs[0]);
      forall part: seq<nat> ensures part == mine <==> SegmentCodes(t, segs[0], part) {
        SegmentExactly(t, segs[0], part);
      }
      if ids == SegmentsIds(t, segs) {
        var n := |mine|;
        assert ids[..n] == mine && ids[n..] == SegmentsIds(t, segs[1..]);
        CodesExactly(t, segs[1..], ids[n..]);
      }
      if Codes(t, segs, ids) {
        var n :| 0 <= n <= |ids| && SegmentCodes(t, segs[0], ids[..n]) && Codes(t, segs[1..], ids[n..]);
        CodesExactly(t, segs[1..], ids[n..]);
        assert ids == ids[..n] + ids[n..];
      }
    }
  }

  lemma KnownSegment(t: Tokenizer, text: seq<Byte>, k: nat)
    requires NoEmptyLiteral(t.specials) && SpecialsKnown(t)
    requires var segs := Segments(text, t.specials, |t.specials|); k < |segs| && segs[k].special
    ensures Segments(text, t.specials, |t.specials|)[k].text in t.tables.vocab
  {
    SpecialSegmentsKnown(t, text);
  }

  /** The beginning-of-text id, where the tokenizer has one and adds it. */
  predicate Starts(t: Tokenizer, addBos: bool, head: seq<nat>) {
    match t.bos
    case Some(id) => head == if addBos && t.addBos then [id] else []
    case None => head == []
  }

  /** Ids of a text, set down from where its specials and its pieces stand. */
  ghost predicate IsCode(t: Tokenizer, text: seq<Byte>, addBos: bool, ids: seq<nat>) {
    exists segs, head, rest ::
      CutAt(text, t.specials, |t.specials|, segs) && Starts(t, addBos, head) && Codes(t, segs, rest)
      && ids == head + rest
  }

  lemma SegmentsCode(t: Tokenizer, text: seq<Byte>, segs: seq<Segment>, rest: seq<nat>)
    requires NoEmptyLiteral(t.specials) && SpecialsKnown(t) && CutAt(text, t.specials, |t.specials|, segs)
    ensures segs == Segments(text, t.specials, |t.specials|)
    ensures Codes(t, segs, rest) <==> rest == SegmentsIds(t, segs)
  {
    hide CutAt, Codes, Segments, SegmentsIds, SpecialsKnown;
    SegmentsExactly(text, t.specials, |t.specials|, segs);
    forall k | 0 <= k < |segs| && segs[k].special ensures segs[k].text in t.tables.vocab { KnownSegment(t, text, k); }
    CodesExactly(t, segs, rest);
  }

  /** The ids of a text are those and no others. */
  lemma EncodesExactly(t: Tokenizer, text: seq<Byte>, addBos: bool, ids: seq<nat>)
    requires NoEmptyLiteral(t.specials) && SpecialsKnown(t)
    ensures ids == EncodeText(t, text, addBos) <==> IsCode(t, text, addBos, ids)
  {
    hide CutAt, Codes, Segments, SegmentsIds, SpecialsKnown;
    if ids == EncodeText(t, text, addBos) {
      var segs := Segments(text, t.specials, |t.specials|);
      SegmentsExactly(text, t.specials, |t.specials|, segs);
      SegmentsCode(t, text, segs, SegmentsIds(t, segs));
      assert Starts(t, addBos, BosIds(t, addBos));
    }
    if IsCode(t, text, addBos, ids) {
      var segs, head, rest :| CutAt(text, t.specials, |t.specials|, segs) && Starts(t, addBos, head)
                              && Codes(t, segs, rest) && ids == head + rest;
      SegmentsCode(t, text, segs, rest);
      assert head == BosIds(t, addBos);
    }
  }
}
