/** Byte-pair encoding by ranked merges: the greedy loop, the metaspace segmentation, and why
    encoding word by word equals encoding the whole segment. Text is a sequence of code points. */
module Bpe {
  import opened Bytes

  type Text = seq<nat>

  const METASPACE: nat := 0x2581

  /** A tokenizer's tables. */
  datatype Tables = Tables(vocab: map<Text, nat>, merges: map<(Text, Text), nat>, sp: bool, prepend: bool,
                           byteIds: map<Byte, nat>, scores: seq<real>, maxPiece: nat, bytePen: real)

  /** The pieces a text is in at some point of the merge loop. */
  type Parts = seq<Text>

  predicate CanMerge(t: Tables, parts: Parts, i: nat) {
    i + 1 < |parts| && (parts[i], parts[i + 1]) in t.merges
  }

  function Rank(t: Tables, parts: Parts, i: nat): nat
    requires CanMerge(t, parts, i)
  {
    t.merges[(parts[i], parts[i + 1])]
  }

  /** The pair to merge: lowest rank, leftmost among equals. */
  ghost predicate IsBest(t: Tables, parts: Parts, i: nat) {
    && CanMerge(t, parts, i)
    && (forall j: nat :: CanMerge(t, parts, j) ==> Rank(t, parts, i) <= Rank(t, parts, j))
    && (forall j: nat :: j < i && CanMerge(t, parts, j) ==> Rank(t, parts, i) < Rank(t, parts, j))
  }

  ghost predicate NoneMerges(t: Tables, parts: Parts) { forall j: nat :: !CanMerge(t, parts, j) }

  /** Best pair among the first `k`, as the scan finds it. */
  function Scan(t: Tables, parts: Parts, k: nat): Option<nat>
    requires k < |parts| || k == 0
  {
    if k == 0 then None
    else
      var b := Scan(t, parts, k - 1);
      if CanMerge(t, parts, k - 1) && (b.None? || Better(t, parts, k - 1, b.value)) then Some(k - 1) else b
  }

  predicate Better(t: Tables, parts: Parts, i: nat, j: nat) {
    CanMerge(t, parts, i) && (CanMerge(t, parts, j) ==> Rank(t, parts, i) < Rank(t, parts, j))
  }

  function Best(t: Tables, parts: Parts): Option<nat> { if parts == [] then None else Scan(t, parts, |parts| - 1) }

  ghost predicate BestBefore(t: Tables, parts: Parts, k: nat, i: nat) {
    && CanMerge(t, parts, i)
    && (forall j: nat :: j < k && CanMerge(t, parts, j) ==> Rank(t, parts, i) <= Rank(t, parts, j))
    && (forall j: nat :: j < i && CanMerge(t, parts, j) ==> Rank(t, parts, i) < Rank(t, parts, j))
  }

  lemma {:induction false} ScanFinds(t: Tables, parts: Parts, k: nat)
    requires k < |parts|
    ensures Scan(t, parts, k).None? ==> forall j: nat :: j < k ==> !CanMerge(t, parts, j)
    ensures Scan(t, parts, k).Some? ==> Scan(t, parts, k).value < k && BestBefore(t, parts, k, Scan(t, parts, k).value)
  {
    if k > 0 { ScanFinds(t, parts, k - 1); }
  }

  lemma BestIsBest(t: Tables, parts: Parts)
    ensures Best(t, parts).None? <==> NoneMerges(t, parts)
    ensures Best(t, parts).Some? ==> IsBest(t, parts, Best(t, parts).value)
  {
    if parts != [] { ScanFinds(t, parts, |parts| - 1); }
  }

  lemma BestIsUnique(t: Tables, parts: Parts, i: nat)
    requires IsBest(t, parts, i)
    ensures Best(t, parts) == Some(i)
  {
    BestIsBest(t, parts);
  }

  function MergeAt(parts: Parts, i: nat): Parts
    requires i + 1 < |parts|
  {
    parts[..i] + [parts[i] + parts[i + 1]] + parts[i + 2..]
  }

  /** The merge loop: merge the best pair until no pair merges. */
  function Loop(t: Tables, parts: Parts): Parts
    decreases |parts|
  {
    var b := Best(t, parts);
    if b.None? then parts
    else
      BestIsBest(t, parts);
      Loop(t, MergeAt(parts, b.value))
  }

  function Singles(s: Text): Parts { seq(|s|, i requires 0 <= i < |s| => [s[i]]) }

  function Flat(parts: Parts): Text { if parts == [] then [] else parts[0] + Flat(parts[1..]) }

  // ---------------------------------------------------------------- ids of the parts

  function ByteFallback(t: Tables, bs: seq<Byte>): seq<nat> {
    if bs == [] then [] else (if bs[0] in t.byteIds then [t.byteIds[bs[0]]] else []) + ByteFallback(t, bs[1..])
  }

  function CharIds(t: Tables, c: nat): seq<nat> {
    if [c] in t.vocab then [t.vocab[[c]]] else if t.sp then ByteFallback(t, Utf8(c)) else []
  }

  function SpellIds(t: Tables, s: Text): seq<nat> {
    if s == [] then [] else CharIds(t, s[0]) + SpellIds(t, s[1..])
  }

  function PartIds(t: Tables, p: Text): seq<nat> { if p in t.vocab then [t.vocab[p]] else SpellIds(t, p) }

  function PartsIds(t: Tables, parts: Parts): seq<nat> {
    if parts == [] then [] else PartIds(t, parts[0]) + PartsIds(t, parts[1..])
  }

  function Encode(t: Tables, piece: Text): seq<nat> { PartsIds(t, Loop(t, Singles(piece))) }

  lemma {:induction false} FallbackKnown(t: Tables, bs: seq<Byte>)
    requires forall k :: 0 <= k < |bs| ==> bs[k] in t.byteIds
    ensures |ByteFallback(t, bs)| == |bs|
    ensures forall k :: 0 <= k < |bs| ==> ByteFallback(t, bs)[k] == t.byteIds[bs[k]]
  {
    if bs != [] { FallbackKnown(t, bs[1..]); }
  }

  /** A character outside the vocabulary: the ids of its bytes in the metaspace family, nothing in the other. */
  lemma UnknownChar(t: Tables, c: nat)
    requires [c] !in t.vocab
    ensures !t.sp ==> CharIds(t, c) == []
    ensures t.sp && (forall b: Byte :: b in t.byteIds) ==>
              |CharIds(t, c)| == |Utf8(c)|
              && forall k :: 0 <= k < |Utf8(c)| ==> CharIds(t, c)[k] == t.byteIds[Utf8(c)[k]]
  {
    if t.sp && forall b: Byte :: b in t.byteIds { FallbackKnown(t, Utf8(c)); }
  }

  lemma {:induction false} PartsIdsConcat(t: Tables, a: Parts, b: Parts)
    ensures PartsIds(t, a + b) == PartsIds(t, a) + PartsIds(t, b)
    decreases |a|
  {
    if a == [] {
      assert a + b == b;
    } else {
      assert (a + b)[1..] == a[1..] + b;
      PartsIdsConcat(t, a[1..], b);
    }
  }

  // ---------------------------------------------------------------- the loops

  method FindBest(t: Tables, parts: Parts) returns (best: Option<nat>)
    requires parts != []
    ensures best == Best(t, parts)
  {
    best := None;
    var rank := 0;
    for i := 0 to |parts| - 1
      invariant best == Scan(t, parts, i)
      invariant best.Some? ==> CanMerge(t, parts, best.value) && rank == Rank(t, parts, best.value)
    {
      if (parts[i], parts[i + 1]) in t.merges {
        var r := t.merges[(parts[i], parts[i + 1])];
        if best.None? || r < rank { best, rank := Some(i), r; }
      }
    }
  }

  method MergeLoop(t: Tables, piece: Text) returns (parts: Parts)
    ensures parts == Loop(t, Singles(piece))
  {
    parts := Singles(piece);
    if parts == [] {
      BestIsBest(t, parts);
      return;
    }
    while true
      invariant parts != [] && Loop(t, Singles(piece)) == Loop(t, parts)
      decreases |parts|
    {
      var best := FindBest(t, parts);
      BestIsBest(t, parts);
      if best.None? { break; }
      parts := parts[..best.value] + [parts[best.value] + parts[best.value + 1]] + parts[best.value + 2..];
      if |parts| == 1 {
        BestIsBest(t, parts);
        break;
      }
    }
  }

  /** Appends the ids of one piece. */
  method EncodePiece(t: Tables, piece: Text, out: seq<nat>) returns (ids: seq<nat>)
    ensures ids == out + Encode(t, piece)
  {
    hide Loop;
    var parts := MergeLoop(t, piece);
    ids := out;
    for i := 0 to |parts|
      invariant ids + PartsIds(t, parts[i..]) == out + PartsIds(t, parts)
    {
      assert parts[i..][1..] == parts[i + 1..];
      assert ids + (PartIds(t, parts[i]) + PartsIds(t, parts[i + 1..]))
          == ids + PartIds(t, parts[i]) + PartsIds(t, parts[i + 1..]);
      if parts[i] in t.vocab {
        ids := ids + [t.vocab[parts[i]]];
      } else {
        ids := Spell(t, parts[i], ids);
      }
    }
    assert ids + [] == ids;
  }

  method Spell(t: Tables, s: Text, out: seq<nat>) returns (ids: seq<nat>)
    ensures ids == out + SpellIds(t, s)
  {
    hide CharIds;
    ids := out;
    for i := 0 to |s|
      invariant ids + SpellIds(t, s[i..]) == out + SpellIds(t, s)
    {
      assert s[i..][1..] == s[i + 1..];
      assert ids + (CharIds(t, s[i]) + SpellIds(t, s[i + 1..])) == ids + CharIds(t, s[i]) + SpellIds(t, s[i + 1..]);
      ids := SpellChar(t, s[i], ids);
    }
    assert ids + [] == ids;
  }

  method SpellChar(t: Tables, c: nat, out: seq<nat>) returns (ids: seq<nat>)
    ensures ids == out + CharIds(t, c)
  {
    ids := out;
    if [c] in t.vocab {
      ids := ids + [t.vocab[[c]]];
    } else if t.sp {
      var bs := Utf8(c);
      for i := 0 to |bs|
        invariant ids + ByteFallback(t, bs[i..]) == out + ByteFallback(t, bs)
      {
        assert bs[i..][1..] == bs[i + 1..];
        if bs[i] in t.byteIds {
          assert ids + ([t.byteIds[bs[i]]] + ByteFallback(t, bs[i + 1..]))
              == ids + [t.byteIds[bs[i]]] + ByteFallback(t, bs[i + 1..]);
          ids := ids + [t.byteIds[bs[i]]];
        } else {
          assert [] + ByteFallback(t, bs[i + 1..]) == ByteFallback(t, bs[i + 1..]);
        }
      }
      assert ids + [] == ids;
    } else {
      assert ids + [] == ids;
    }
  }

  // ---------------------------------------------------------------- what the loop keeps

  lemma {:induction false} FlatConcat(a: Parts, b: Parts)
    ensures Flat(a + b) == Flat(a) + Flat(b)
    decreases |a|
  {
    if a == [] {
      assert a + b == b;
    } else {
      assert (a + b)[1..] == a[1..] + b;
      FlatConcat(a[1..], b);
    }
  }

  lemma FlatAround(a: Parts, m: Parts, z: Parts)
    ensures Flat(a + m + z) == Flat(a) + Flat(m) + Flat(z)
  {
    FlatConcat(a + m, z);
    FlatConcat(a, m);
  }

  lemma MergeKeepsText(parts: Parts, i: nat)
    requires i + 1 < |parts|
    ensures Flat(MergeAt(parts, i)) == Flat(parts)
  {
    hide Flat;
    var a, x, y, z := parts[..i], parts[i], parts[i + 1], parts[i + 2..];
    assert parts == a + [x, y] + z;
    FlatAround(a, [x, y], z);
    FlatAround(a, [x + y], z);
    assert [x, y] == [x] + [y];
    FlatConcat([x], [y]);
    FlatOne(x);
    FlatOne(y);
    FlatOne(x + y);
  }

  lemma FlatOne(x: Text)
    ensures Flat([x]) == x
  {
    assert Flat([]) == [];
  }

  /** The loop neither loses nor reorders text, and stops only when no pair merges. */
  lemma {:induction false} LoopKeeps(t: Tables, parts: Parts)
    ensures Flat(Loop(t, parts)) == Flat(parts) && NoneMerges(t, Loop(t, parts))
    decreases |parts|
  {
    BestIsBest(t, parts);
    var b := Best(t, parts);
    if b.Some? {
      MergeKeepsText(parts, b.value);
      LoopKeeps(t, MergeAt(parts, b.value));
    }
  }

  lemma {:induction false} FlatSingles(s: Text)
    ensures Flat(Singles(s)) == s
    decreases |s|
  {
    if s != [] {
      assert Singles(s)[1..] == Singles(s[1..]);
      FlatSingles(s[1..]);
    }
  }

  // ---------------------------------------------------------------- word by word

  /** A word starts at `i`: a metaspace after something else. */
  predicate Cut(s: Text, i: nat) { 1 <= i < |s| && s[i] == METASPACE && s[i - 1] != METASPACE }

  ghost predicate OneWord(s: Text) { s != [] && forall i: nat :: !Cut(s, i) }

  /** The text where `l` and `r` meet is a word boundary. */
  predicate Crosses(l: Text, r: Text) { l != [] && r != [] && l[|l| - 1] != METASPACE && r[0] == METASPACE }

  /** The loop makes `x` of its characters, and of no more than one word. */
  ghost predicate Formed(t: Tables, x: Text) { OneWord(x) && Loop(t, Singles(x)) == [x] }

  /** A rule across a word boundary, both sides of which the loop forms. */
  ghost predicate LiveCrossing(t: Tables, l: Text, r: Text) {
    (l, r) in t.merges && Crosses(l, r) && Formed(t, l) && Formed(t, r)
  }

  ghost predicate KeepsWords(t: Tables) { forall l: Text, r: Text :: !LiveCrossing(t, l, r) }

  ghost predicate AllWords(parts: Parts) { forall k :: 0 <= k < |parts| ==> OneWord(parts[k]) }

  /** Every stretch of the parts is where the loop on its own text arrives as well. */
  ghost predicate Confluent(t: Tables, parts: Parts) {
    forall i, j :: 0 <= i <= j <= |parts| ==> Loop(t, Singles(Flat(parts[i..j]))) == Loop(t, parts[i..j])
  }

  lemma SinglesConfluent(t: Tables, s: Text)
    ensures Confluent(t, Singles(s)) && AllWords(Singles(s))
  {
    hide Loop, Flat;
    forall i, j | 0 <= i <= j <= |s| ensures Loop(t, Singles(Flat(Singles(s)[i..j]))) == Loop(t, Singles(s)[i..j]) {
      assert Singles(s)[i..j] == Singles(s[i..j]);
      FlatSingles(s[i..j]);
    }
  }

  /** The best pair of all is the best of every stretch it is in. */
  lemma BestInStretch(t: Tables, parts: Parts, k: nat, i: nat, j: nat)
    requires IsBest(t, parts, k) && i <= k && k + 1 < j <= |parts|
    ensures IsBest(t, parts[i..j], k - i)
  {
    var q := parts[i..j];
    forall m: nat ensures CanMerge(t, q, m) ==> CanMerge(t, parts, i + m) && Rank(t, q, m) == Rank(t, parts, i + m) {
      if m + 1 < |q| { assert q[m] == parts[i + m] && q[m + 1] == parts[i + m + 1]; }
    }
    assert CanMerge(t, q, k - i);
  }

  lemma MergeIndex(parts: Parts, k: nat, x: nat)
    requires k + 1 < |parts| && x < |parts| - 1
    ensures |MergeAt(parts, k)| == |parts| - 1
    ensures MergeAt(parts, k)[x]
            == if x < k then parts[x] else if x == k then parts[k] + parts[k + 1] else parts[x + 1]
  {
  }

  lemma MergeStretch(parts: Parts, k: nat, i: nat, j: nat)
    requires k + 1 < |parts| && i <= j < |parts|
    ensures |MergeAt(parts, k)| == |parts| - 1
    ensures MergeAt(parts, k)[i..j]
            == if j <= k then parts[i..j] else if k < i then parts[i + 1..j + 1] else MergeAt(parts[i..j + 1], k - i)
  {
    hide MergeAt;
    MergeIndex(parts, k, 0);
    var q := if j <= k then parts[i..j] else if k < i then parts[i + 1..j + 1] else MergeAt(parts[i..j + 1], k - i);
    if i <= k < j { MergeIndex(parts[i..j + 1], k - i, 0); }
    assert |q| == j - i;
    forall x | 0 <= x < j - i ensures MergeAt(parts, k)[i..j][x] == q[x] {
      MergeIndex(parts, k, i + x);
      if i <= k < j { MergeIndex(parts[i..j + 1], k - i, x); }
    }
  }

  lemma MergeLength(parts: Parts, k: nat)
    requires k + 1 < |parts|
    ensures |MergeAt(parts, k)| == |parts| - 1
  {
  }

  /** Merging the best pair keeps that. */
  lemma MergeConfluent(t: Tables, parts: Parts, k: nat)
    requires IsBest(t, parts, k) && Confluent(t, parts)
    ensures Confluent(t, MergeAt(parts, k))
  {
    hide Loop, Flat, IsBest, MergeAt, Singles;
    LoopStep(t, parts, k);
    MergeLength(parts, k);
    var m := MergeAt(parts, k);
    forall i, j | 0 <= i <= j <= |m| ensures Loop(t, Singles(Flat(m[i..j]))) == Loop(t, m[i..j]) {
      MergeStretch(parts, k, i, j);
      if i <= k < j {
        var q := parts[i..j + 1];
        BestInStretch(t, parts, k, i, j + 1);
        LoopStep(t, q, k - i);
        MergeLength(q, k - i);
        MergeKeepsText(q, k - i);
      }
    }
  }

  lemma LoopStep(t: Tables, parts: Parts, i: nat)
    requires IsBest(t, parts, i)
    ensures i + 1 < |parts| && Loop(t, parts) == Loop(t, MergeAt(parts, i))
  {
    BestIsUnique(t, parts, i);
  }

  lemma LoopStops(t: Tables, parts: Parts)
    requires NoneMerges(t, parts)
    ensures Loop(t, parts) == parts
  {
    BestIsBest(t, parts);
  }

  lemma LoopOne(t: Tables, x: Text)
    ensures Loop(t, [x]) == [x]
  {
    LoopStops(t, [x]);
  }

  lemma IsFormed(t: Tables, parts: Parts, k: nat)
    requires Confluent(t, parts) && AllWords(parts) && k < |parts|
    ensures Formed(t, parts[k])
  {
    hide Loop, Flat, Singles, OneWord;
    assert parts[k..k + 1] == [parts[k]];
    FlatOne(parts[k]);
    LoopOne(t, parts[k]);
  }

  /** So no rule ever applies across a word boundary. */
  lemma NeverCrosses(t: Tables, parts: Parts, k: nat)
    requires KeepsWords(t) && Confluent(t, parts) && AllWords(parts) && CanMerge(t, parts, k)
    ensures !Crosses(parts[k], parts[k + 1])
  {
    hide Confluent, AllWords, Formed;
    IsFormed(t, parts, k);
    IsFormed(t, parts, k + 1);
    assert !LiveCrossing(t, parts[k], parts[k + 1]);
  }

  lemma JoinedWord(x: Text, y: Text)
    requires OneWord(x) && OneWord(y) && !Crosses(x, y)
    ensures OneWord(x + y)
  {
    forall i: nat ensures !Cut(x + y, i) {
      assert !Cut(x, i);
      if i > |x| { assert !Cut(y, i - |x|); }
    }
  }

  lemma MergeWords(t: Tables, parts: Parts, k: nat)
    requires KeepsWords(t) && Confluent(t, parts) && AllWords(parts) && CanMerge(t, parts, k)
    ensures AllWords(MergeAt(parts, k))
  {
    hide Confluent, OneWord, KeepsWords, Crosses;
    NeverCrosses(t, parts, k);
    JoinedWord(parts[k], parts[k + 1]);
  }

  /** Parts of one text, none of which reaches over a word boundary, as the loop meets them. */
  ghost predicate Settled(t: Tables, parts: Parts) { Confluent(t, parts) && AllWords(parts) }

  /** A word ends where `a` ends, and the next starts where `b` starts. */
  predicate Boundary(a: Parts, b: Parts) { a != [] && b != [] && Crosses(a[|a| - 1], b[0]) }

  lemma MergeLeft(a: Parts, b: Parts, i: nat)
    requires i + 1 < |a|
    ensures MergeAt(a + b, i) == MergeAt(a, i) + b
  {
  }

  lemma MergeRight(a: Parts, b: Parts, i: nat)
    requires i + 1 < |b|
    ensures MergeAt(a + b, |a| + i) == a + MergeAt(b, i)
  {
  }

  /** Pairs inside either side merge as they do alone; the pair across the boundary never does. */
  lemma PairsSplit(t: Tables, a: Parts, b: Parts, j: nat)
    requires KeepsWords(t) && Settled(t, a + b) && Boundary(a, b)
    ensures CanMerge(t, a + b, j) <==> CanMerge(t, a, j) || (j >= |a| && CanMerge(t, b, j - |a|))
    ensures CanMerge(t, a, j) ==> Rank(t, a + b, j) == Rank(t, a, j)
    ensures j >= |a| && CanMerge(t, b, j - |a|) ==> Rank(t, a + b, j) == Rank(t, b, j - |a|)
  {
    hide KeepsWords, Confluent, AllWords;
    if j == |a| - 1 {
      assert (a + b)[j] == a[j] && (a + b)[j + 1] == b[0];
      if CanMerge(t, a + b, j) { NeverCrosses(t, a + b, j); }
    }
  }

  lemma BestOnLeft(t: Tables, a: Parts, b: Parts, i: nat)
    requires KeepsWords(t) && Settled(t, a + b) && Boundary(a, b) && IsBest(t, a + b, i) && i < |a|
    ensures IsBest(t, a, i)
  {
    hide KeepsWords, Settled;
    PairsSplit(t, a, b, i);
    forall j: nat | CanMerge(t, a, j)
      ensures Rank(t, a, i) <= Rank(t, a, j) && (j < i ==> Rank(t, a, i) < Rank(t, a, j))
    {
      PairsSplit(t, a, b, j);
    }
  }

  lemma BestOnRight(t: Tables, a: Parts, b: Parts, i: nat)
    requires KeepsWords(t) && Settled(t, a + b) && Boundary(a, b) && IsBest(t, a + b, |a| + i)
    ensures IsBest(t, b, i)
  {
    hide KeepsWords, Settled;
    PairsSplit(t, a, b, |a| + i);
    forall j: nat | CanMerge(t, b, j)
      ensures Rank(t, b, i) <= Rank(t, b, j) && (j < i ==> Rank(t, b, i) < Rank(t, b, j))
    {
      PairsSplit(t, a, b, |a| + j);
    }
  }

  lemma MergeKeepsBoundary(t: Tables, a: Parts, b: Parts, i: nat)
    requires Boundary(a, b) && AllWords(a + b)
    ensures i + 1 < |a| ==> Boundary(MergeAt(a, i), b)
    ensures i + 1 < |b| ==> Boundary(a, MergeAt(b, i))
  {
    hide OneWord;
    if i + 1 < |b| { assert (a + b)[|a| + i] == b[i] && OneWord(b[i]) by { assert OneWord((a + b)[|a| + i]); } }
    if i + 1 < |a| { assert OneWord((a + b)[i + 1]); }
    NonEmptyWords();
  }

  lemma NonEmptyWords()
    ensures forall x: Text :: OneWord(x) ==> x != []
  {
  }

  lemma StaysSettled(t: Tables, parts: Parts, k: nat)
    requires KeepsWords(t) && Settled(t, parts) && IsBest(t, parts, k)
    ensures Settled(t, MergeAt(parts, k))
  {
    hide KeepsWords, Confluent, AllWords, MergeAt;
    MergeConfluent(t, parts, k);
    MergeWords(t, parts, k);
  }

  /** Merging on the two sides of a word boundary interleaves without interfering. */
  lemma {:induction false} LoopSplits(t: Tables, a: Parts, b: Parts)
    requires KeepsWords(t) && Settled(t, a + b) && Boundary(a, b)
    ensures Loop(t, a + b) == Loop(t, a) + Loop(t, b)
    decreases |a| + |b|
  {
    hide Loop, KeepsWords, Boundary, IsBest, NoneMerges, Best, Settled;
    BestIsBest(t, a + b);
    var best := Best(t, a + b);
    if best.None? {
      NothingMerges(t, a, b);
      LoopStops(t, a + b);
      LoopStops(t, a);
      LoopStops(t, b);
    } else {
      var i := best.value;
      LoopStep(t, a + b, i);
      BestInside(t, a, b, i);
      StaysSettled(t, a + b, i);
      assert AllWords(a + b) by { SettledWords(t, a + b); }
      if i < |a| {
        BestOnLeft(t, a, b, i);
        LoopStep(t, a, i);
        MergeLeft(a, b, i);
        MergeKeepsBoundary(t, a, b, i);
        LoopSplits(t, MergeAt(a, i), b);
      } else {
        BestOnRight(t, a, b, i - |a|);
        LoopStep(t, b, i - |a|);
        MergeRight(a, b, i - |a|);
        MergeKeepsBoundary(t, a, b, i - |a|);
        LoopSplits(t, a, MergeAt(b, i - |a|));
      }
    }
  }

  lemma SettledWords(t: Tables, parts: Parts)
    requires Settled(t, parts)
    ensures AllWords(parts)
  {
  }

  lemma NothingMerges(t: Tables, a: Parts, b: Parts)
    requires KeepsWords(t) && Settled(t, a + b) && Boundary(a, b) && NoneMerges(t, a + b)
    ensures NoneMerges(t, a) && NoneMerges(t, b)
  {
    hide KeepsWords, Settled;
    forall j: nat ensures !CanMerge(t, a, j) { PairsSplit(t, a, b, j); }
    forall j: nat ensures !CanMerge(t, b, j) { PairsSplit(t, a, b, |a| + j); }
  }

  lemma BestInside(t: Tables, a: Parts, b: Parts, i: nat)
    requires KeepsWords(t) && Settled(t, a + b) && Boundary(a, b) && IsBest(t, a + b, i)
    ensures if i < |a| then i + 1 < |a| else i - |a| + 1 < |b|
  {
    hide KeepsWords, Settled;
    PairsSplit(t, a, b, i);
  }

  // ---------------------------------------------------------------- segmentation

  /** The pieces of `s[start..]`, cuts before `i` being settled. */
  function Pieces(s: Text, start: nat, i: nat): seq<Text>
    requires start <= i <= |s|
    decreases |s| - i
  {
    if i == |s| then (if start < |s| then [s[start..]] else [])
    else if Cut(s, i) then [s[start..i]] + Pieces(s, i, i + 1)
    else Pieces(s, start, i + 1)
  }

  function EncodeAll(t: Tables, pieces: seq<Text>): seq<nat> {
    if pieces == [] then [] else Encode(t, pieces[0]) + EncodeAll(t, pieces[1..])
  }

  lemma SinglesConcat(u: Text, v: Text)
    ensures Singles(u + v) == Singles(u) + Singles(v)
  {
  }

  lemma {:induction false} PiecesFlat(s: Text, start: nat, i: nat)
    requires start <= i <= |s|
    ensures Flat(Pieces(s, start, i)) == s[start..]
    decreases |s| - i
  {
    if i == |s| {
      if start < |s| { FlatOne(s[start..]); }
    } else if Cut(s, i) {
      PiecesFlat(s, i, i + 1);
      assert s[start..] == s[start..i] + s[i..];
    } else {
      PiecesFlat(s, start, i + 1);
    }
  }

  /** The parts of the words, each merged alone. */
  function WordParts(t: Tables, pieces: seq<Text>): Parts {
    if pieces == [] then [] else Loop(t, Singles(pieces[0])) + WordParts(t, pieces[1..])
  }

  lemma {:induction false} WordPartsIds(t: Tables, pieces: seq<Text>)
    ensures PartsIds(t, WordParts(t, pieces)) == EncodeAll(t, pieces)
  {
    hide Loop;
    if pieces != [] {
      WordPartsIds(t, pieces[1..]);
      PartsIdsConcat(t, Loop(t, Singles(pieces[0])), WordParts(t, pieces[1..]));
    }
  }

  lemma {:induction false} WordsFrom(t: Tables, s: Text, start: nat, i: nat)
    requires KeepsWords(t) && start <= i <= |s| && (start == i ==> i == 0)
    ensures WordParts(t, Pieces(s, start, i)) == Loop(t, Singles(s[start..]))
    decreases |s| - i
  {
    hide Loop, KeepsWords, Boundary, Singles;
    if i == |s| {
      if start < |s| {
        assert WordParts(t, [s[start..]]) == Loop(t, Singles(s[start..])) + WordParts(t, []);
        assert Loop(t, Singles(s[start..])) + [] == Loop(t, Singles(s[start..]));
      } else {
        NothingLoops(t);
        assert s[start..] == [];
      }
    } else if Cut(s, i) {
      WordsFrom(t, s, i, i + 1);
      LoopJoins(t, s[start..i], s[i..]);
      assert s[start..] == s[start..i] + s[i..];
    } else {
      WordsFrom(t, s, start, i + 1);
    }
  }

  lemma NothingLoops(t: Tables)
    ensures Loop(t, Singles([])) == []
  {
    LoopStops(t, []);
    assert Singles([]) == [];
  }

  lemma LoopJoins(t: Tables, u: Text, v: Text)
    requires KeepsWords(t) && Crosses(u, v)
    ensures Loop(t, Singles(u + v)) == Loop(t, Singles(u)) + Loop(t, Singles(v))
  {
    hide Loop, KeepsWords, Confluent, AllWords;
    SinglesConcat(u, v);
    SinglesConfluent(t, u + v);
    LoopSplits(t, Singles(u), Singles(v));
  }

  /** If no live rule crosses words, merging the words of a segment one by one is merging it whole. */
  lemma WordsEqualWhole(t: Tables, s: Text)
    requires KeepsWords(t)
    ensures WordParts(t, Pieces(s, 0, 0)) == Loop(t, Singles(s))
    ensures EncodeAll(t, Pieces(s, 0, 0)) == Encode(t, s)
  {
    hide Loop, KeepsWords, Pieces;
    WordsFrom(t, s, 0, 0);
    assert s[0..] == s;
    WordPartsIds(t, Pieces(s, 0, 0));
  }

  // ---------------------------------------------------------------- the condition is exact

  lemma {:induction false} NoCutUntil(s: Text, start: nat, i: nat, e: nat)
    requires start <= i <= e <= |s| && forall k: nat :: i <= k < e ==> !Cut(s, k)
    ensures Pieces(s, start, i) == Pieces(s, start, e)
    decreases e - i
  {
    if i < e {
      assert !Cut(s, i);
      NoCutUntil(s, start, i + 1, e);
    }
  }

  lemma TwoWords(l: Text, r: Text)
    requires OneWord(l) && OneWord(r) && Crosses(l, r)
    ensures Pieces(l + r, 0, 0) == [l, r]
  {
    hide Pieces, OneWord;
    var s, n := l + r, |l|;
    assert forall k: nat :: k < n ==> !Cut(s, k) by { LeftWord(l, r); }
    NoCutUntil(s, 0, 0, n);
    CutHere(s, n);
    assert forall k: nat :: n + 1 <= k < |s| ==> !Cut(s, k) by { RightWord(l, r); }
    NoCutUntil(s, n, n + 1, |s|);
    LastPiece(s, n);
    assert s[0..n] == l && s[n..] == r;
  }

  lemma LeftWord(l: Text, r: Text)
    requires OneWord(l)
    ensures forall k: nat :: k < |l| ==> !Cut(l + r, k)
  {
    forall k: nat | k < |l| ensures !Cut(l + r, k) { assert !Cut(l, k); }
  }

  lemma RightWord(l: Text, r: Text)
    requires OneWord(r)
    ensures forall k: nat :: |l| + 1 <= k < |l + r| ==> !Cut(l + r, k)
  {
    forall k: nat | |l| + 1 <= k < |l + r| ensures !Cut(l + r, k) { assert !Cut(r, k - |l|); }
  }

  lemma CutHere(s: Text, n: nat)
    requires Cut(s, n)
    ensures Pieces(s, 0, n) == [s[0..n]] + Pieces(s, n, n + 1)
  {
  }

  lemma LastPiece(s: Text, n: nat)
    requires n < |s|
    ensures Pieces(s, n, |s|) == [s[n..]]
  {
  }

  /** A live crossing rule makes the two differ on the text of its two sides. */
  lemma LiveRuleDiffers(t: Tables, l: Text, r: Text)
    requires LiveCrossing(t, l, r)
    ensures WordParts(t, Pieces(l + r, 0, 0)) == [l, r]
    ensures WordParts(t, Pieces(l + r, 0, 0)) != Loop(t, Singles(l + r))
  {
    hide Loop, Pieces, OneWord, Singles;
    TwoWords(l, r);
    assert [l, r][1..] == [r] && [r][1..] == [];
    assert WordParts(t, [r]) == Loop(t, Singles(r)) + WordParts(t, []);
    LoopKeeps(t, Singles(l + r));
    assert CanMerge(t, [l, r], 0);
  }

  /** Merging word by word is merging whole, for every segment, if and only if no rule across a word
      boundary has two sides the loop forms. */
  lemma WordsEqualWholeExactly(t: Tables)
    ensures (forall s: Text :: WordParts(t, Pieces(s, 0, 0)) == Loop(t, Singles(s))) <==> KeepsWords(t)
  {
    hide Loop, Pieces, WordParts, Singles, LiveCrossing;
    if KeepsWords(t) {
      forall s: Text ensures WordParts(t, Pieces(s, 0, 0)) == Loop(t, Singles(s)) { WordsEqualWhole(t, s); }
    } else {
      var l: Text, r: Text :| LiveCrossing(t, l, r);
      LiveRuleDiffers(t, l, r);
    }
  }

  /** No two tokens have the same id. */
  predicate Injective(vocab: map<Text, nat>) {
    forall a, b :: a in vocab && b in vocab && vocab[a] == vocab[b] ==> a == b
  }

  predicate AllKnown(t: Tables, parts: Parts) { forall k :: 0 <= k < |parts| ==> parts[k] in t.vocab }

  /** What a merge makes is a token. */
  predicate MergesKnown(t: Tables) { forall m :: m in t.merges ==> m.0 + m.1 in t.vocab }

  lemma {:induction false} LoopKnown(t: Tables, parts: Parts)
    requires AllKnown(t, parts) && MergesKnown(t)
    ensures AllKnown(t, Loop(t, parts))
    decreases |parts|
  {
    BestIsBest(t, parts);
    var b := Best(t, parts);
    if b.Some? {
      assert (parts[b.value], parts[b.value + 1]) in t.merges;
      LoopKnown(t, MergeAt(parts, b.value));
    }
  }

  lemma {:induction false} KnownIds(t: Tables, parts: Parts)
    requires AllKnown(t, parts)
    ensures |PartsIds(t, parts)| == |parts|
    ensures forall k :: 0 <= k < |parts| ==> PartsIds(t, parts)[k] == t.vocab[parts[k]]
  {
    if parts != [] {
      assert parts[0] in t.vocab;
      KnownIds(t, parts[1..]);
    }
  }

  lemma SameIds(t: Tables, a: Parts, b: Parts)
    requires Injective(t.vocab) && AllKnown(t, a) && AllKnown(t, b) && PartsIds(t, a) == PartsIds(t, b)
    ensures a == b
  {
    KnownIds(t, a);
    KnownIds(t, b);
    assert |a| == |b|;
    forall k | 0 <= k < |a| ensures a[k] == b[k] {
      assert PartsIds(t, a)[k] == t.vocab[a[k]] && PartsIds(t, b)[k] == t.vocab[b[k]];
    }
  }

  /** And the ids differ with the parts, when the characters are tokens and tokens have distinct ids. */
  lemma LiveRuleDiffersInIds(t: Tables, l: Text, r: Text)
    requires LiveCrossing(t, l, r) && Injective(t.vocab) && MergesKnown(t) && AllKnown(t, Singles(l + r))
    ensures EncodeAll(t, Pieces(l + r, 0, 0)) != Encode(t, l + r)
  {
    hide Loop, Pieces, LiveCrossing, Injective, MergesKnown, PartsIds, WordParts, EncodeAll;
    LiveRuleDiffers(t, l, r);
    WordPartsIds(t, Pieces(l + r, 0, 0));
    LoopKnown(t, Singles(l + r));
    SidesKnown(t, l, r);
    if EncodeAll(t, Pieces(l + r, 0, 0)) == Encode(t, l + r) { SameIds(t, [l, r], Loop(t, Singles(l + r))); }
  }

  lemma SidesKnown(t: Tables, l: Text, r: Text)
    requires LiveCrossing(t, l, r) && MergesKnown(t) && AllKnown(t, Singles(l + r))
    ensures AllKnown(t, [l, r])
  {
    hide Loop, MergesKnown, OneWord;
    SinglesConcat(l, r);
    assert AllKnown(t, Singles(l)) by {
      forall k | 0 <= k < |l| ensures Singles(l)[k] in t.vocab { assert Singles(l + r)[k] == Singles(l)[k]; }
    }
    assert AllKnown(t, Singles(r)) by {
      forall k | 0 <= k < |r| ensures Singles(r)[k] in t.vocab { assert Singles(l + r)[|l| + k] == Singles(r)[k]; }
    }
    LoopKnown(t, Singles(l));
    LoopKnown(t, Singles(r));
    assert [l][0] in t.vocab && [r][0] in t.vocab;
  }
}
