/** Unigram segmentation: the best path through the graph of scored vocabulary pieces, with a
    byte-fallback edge where no piece ends. Scores are reals. */
module Unigram {
  import opened Bytes
  import opened Bpe

  datatype Edge = Edge(from: nat, to: nat, score: real, ids: seq<nat>)

  /** A scored vocabulary piece spans `s[i..j]`. */
  predicate PieceAt(t: Tables, s: Text, i: nat, j: nat) {
    i < j <= |s| && j - i <= t.maxPiece && s[i..j] in t.vocab && t.vocab[s[i..j]] < |t.scores|
  }

  function PieceEdge(t: Tables, s: Text, i: nat, j: nat): Edge
    requires PieceAt(t, s, i, j)
  {
    Edge(i, j, t.scores[t.vocab[s[i..j]]], [t.vocab[s[i..j]]])
  }

  function FallbackIds(t: Tables, s: Text, i: nat): seq<nat>
    requires i < |s|
  {
    ByteFallback(t, Utf8(s[i]))
  }

  /** Positions the search reaches: by a piece, or by falling back from a reached position. */
  predicate Reach(t: Tables, s: Text, j: nat)
    decreases j
  {
    j <= |s|
    && (j == 0 || (exists i: nat | i < j :: Reach(t, s, i) && PieceAt(t, s, i, j))
        || (Reach(t, s, j - 1) && FallbackIds(t, s, j - 1) != []))
  }

  /** Some reachable position has a piece ending at `j`. */
  predicate PieceEnds(t: Tables, s: Text, j: nat) {
    exists i: nat | i < j :: Reach(t, s, i) && PieceAt(t, s, i, j)
  }

  /** An edge of the graph: a piece, or the fallback of one character into a position
      where no piece from a reachable position ends. */
  predicate IsEdge(t: Tables, s: Text, e: Edge) {
    || (PieceAt(t, s, e.from, e.to) && e == PieceEdge(t, s, e.from, e.to))
    || (e.from < |s| && FallbackIds(t, s, e.from) != [] && !PieceEnds(t, s, e.from + 1)
        && e == Edge(e.from, e.from + 1, t.bytePen, FallbackIds(t, s, e.from)))
  }

  /** A path of edges from 0 to `to`. */
  predicate Path(t: Tables, s: Text, path: seq<Edge>, to: nat)
    decreases |path|
  {
    if path == [] then to == 0
    else
      var e := path[|path| - 1];
      IsEdge(t, s, e) && e.to == to && Path(t, s, path[..|path| - 1], e.from)
  }

  function Score(path: seq<Edge>): real
    decreases |path|
  {
    if path == [] then 0.0 else Score(path[..|path| - 1]) + path[|path| - 1].score
  }

  function PathIds(path: seq<Edge>): seq<nat>
    decreases |path|
  {
    if path == [] then [] else PathIds(path[..|path| - 1]) + path[|path| - 1].ids
  }

  ghost predicate IsOptimal(t: Tables, s: Text, path: seq<Edge>) {
    Path(t, s, path, |s|) && forall q :: Path(t, s, q, |s|) ==> Score(q) <= Score(path)
  }

  /** What the search emits: the ids of an optimal path, or of the merge loop when the end is out of reach. */
  ghost predicate Segments(t: Tables, s: Text, ids: seq<nat>) {
    if Reach(t, s, |s|) then exists path :: IsOptimal(t, s, path) && ids == PathIds(path)
    else ids == Encode(t, s)
  }

  lemma {:induction false} PathReaches(t: Tables, s: Text, path: seq<Edge>, to: nat)
    requires Path(t, s, path, to)
    ensures Reach(t, s, to)
    decreases |path|
  {
    if path != [] {
      var e := path[|path| - 1];
      PathReaches(t, s, path[..|path| - 1], e.from);
    }
  }

  /** Reachable positions are exactly those some path leads to. */
  lemma {:induction false} ReachHasPath(t: Tables, s: Text, j: nat) returns (path: seq<Edge>)
    requires Reach(t, s, j)
    ensures Path(t, s, path, j)
    decreases j
  {
    hide FallbackIds, PieceAt;
    if j == 0 {
      path := [];
    } else if PieceEnds(t, s, j) {
      var i: nat :| i < j && Reach(t, s, i) && PieceAt(t, s, i, j);
      var p := ReachHasPath(t, s, i);
      path := ExtendPath(t, s, p, PieceEdge(t, s, i, j));
    } else {
      var p := ReachHasPath(t, s, j - 1);
      path := ExtendPath(t, s, p, Edge(j - 1, j, t.bytePen, FallbackIds(t, s, j - 1)));
    }
  }

  lemma ExtendPath(t: Tables, s: Text, p: seq<Edge>, e: Edge) returns (q: seq<Edge>)
    requires Path(t, s, p, e.from) && IsEdge(t, s, e)
    ensures q == p + [e] && Path(t, s, q, e.to)
  {
    q := p + [e];
    assert q[..|q| - 1] == p;
  }

  // ---------------------------------------------------------------- the table

  datatype Entry = Entry(score: real, prev: nat, ids: seq<nat>)

  type Table = seq<Option<Entry>>

  /** Each entry comes with a path it describes, extending the path of its predecessor. */
  ghost predicate Witnessed(t: Tables, s: Text, b: Table, p: seq<seq<Edge>>, i: nat) {
    && |b| == |p| == |s| + 1 && b[0].Some? && p[0] == [] && b[0].value.score == 0.0
    && forall k :: 0 < k <= |s| && b[k].Some? ==> Extends(t, s, b, p, k, i)
  }

  ghost predicate Extends(t: Tables, s: Text, b: Table, p: seq<seq<Edge>>, k: nat, i: nat)
    requires |b| == |p| == |s| + 1 && 0 < k <= |s| && b[k].Some?
  {
    var v := b[k].value;
    v.prev < k && v.prev < i && b[v.prev].Some? && p[k] != []
    && var e := p[k][|p[k]| - 1];
       IsEdge(t, s, e) && e.from == v.prev && e.to == k && e.ids == v.ids
       && p[k] == p[v.prev] + [e] && v.score == b[v.prev].value.score + e.score
  }

  /** No edge from a position before `i` improves the table. */
  ghost predicate Relaxed(t: Tables, s: Text, b: Table, i: nat) {
    |b| == |s| + 1 && forall e :: IsEdge(t, s, e) && e.from < i ==> EdgeRelaxed(b, e)
  }

  predicate EdgeRelaxed(b: Table, e: Edge) {
    e.from < |b| && e.to < |b| && b[e.from].Some? ==>
      b[e.to].Some? && b[e.from].value.score + e.score <= b[e.to].value.score
  }

  /** No piece from position `i` ending by `j` improves the table. */
  ghost predicate PiecesRelaxed(t: Tables, s: Text, b: Table, i: nat, j: nat) {
    forall k: nat :: PieceAt(t, s, i, k) && k <= j ==> EdgeRelaxed(b, PieceEdge(t, s, i, k))
  }

  /** Positions up to `i` are filled exactly when reachable. */
  ghost predicate Settled(t: Tables, s: Text, b: Table, i: nat) {
    |b| == |s| + 1 && forall k: nat :: k <= i && k <= |s| ==> (b[k].Some? <==> Reach(t, s, k))
  }

  lemma {:induction false} Witness(t: Tables, s: Text, b: Table, p: seq<seq<Edge>>, i: nat, k: nat)
    requires Witnessed(t, s, b, p, i) && k <= |s| && b[k].Some?
    ensures Path(t, s, p[k], k) && Score(p[k]) == b[k].value.score
  {
    if k > 0 {
      assert Extends(t, s, b, p, k, i);
      var v := b[k].value;
      Witness(t, s, b, p, i, v.prev);
      assert p[k][..|p[k]| - 1] == p[v.prev];
    }
  }

  lemma {:induction false} NoBetterPath(t: Tables, s: Text, b: Table, q: seq<Edge>, to: nat)
    requires Relaxed(t, s, b, |s|) && Path(t, s, q, to) && b[0].Some? && b[0].value.score == 0.0
    ensures to <= |s| && b[to].Some? && Score(q) <= b[to].value.score
    decreases |q|
  {
    if q != [] {
      var e := q[|q| - 1];
      NoBetterPath(t, s, b, q[..|q| - 1], e.from);
      assert EdgeRelaxed(b, e);
    }
  }

  /** Improving one later entry keeps every edge relaxed. */
  lemma ImproveKeeps(t: Tables, s: Text, b: Table, i: nat, j: nat, v: Entry)
    requires Relaxed(t, s, b, i) && i <= j <= |s| && (b[j].Some? ==> b[j].value.score <= v.score)
    ensures Relaxed(t, s, b[j := Some(v)], i)
  {
    forall e | IsEdge(t, s, e) && e.from < i ensures EdgeRelaxed(b[j := Some(v)], e) {
      assert EdgeRelaxed(b, e);
    }
  }

  lemma ImproveKeepsPieces(t: Tables, s: Text, b: Table, i: nat, j: nat, m: nat, v: Entry)
    requires PiecesRelaxed(t, s, b, i, m) && i < j < |b| && (b[j].Some? ==> b[j].value.score <= v.score)
    ensures PiecesRelaxed(t, s, b[j := Some(v)], i, m)
  {
    forall k: nat | PieceAt(t, s, i, k) && k <= m ensures EdgeRelaxed(b[j := Some(v)], PieceEdge(t, s, i, k)) {
      assert EdgeRelaxed(b, PieceEdge(t, s, i, k));
    }
  }

  lemma ImproveWitness(t: Tables, s: Text, b: Table, p: seq<seq<Edge>>, i: nat, e: Edge)
    requires Witnessed(t, s, b, p, i + 1) && e.from == i < e.to <= |s| && b[i].Some? && IsEdge(t, s, e)
    ensures Witnessed(t, s, b[e.to := Some(Entry(b[i].value.score + e.score, i, e.ids))],
                      p[e.to := p[i] + [e]], i + 1)
  {
    hide IsEdge;
    var b', p' := b[e.to := Some(Entry(b[i].value.score + e.score, i, e.ids))], p[e.to := p[i] + [e]];
    forall k | 0 < k <= |s| && b'[k].Some? ensures Extends(t, s, b', p', k, i + 1) {
      if k != e.to { assert Extends(t, s, b, p, k, i + 1); }
    }
  }

  /** After the pieces from `i`, the next position is filled exactly when a piece from a
      reachable position ends there. */
  lemma NextFilled(t: Tables, s: Text, b: Table, i: nat)
    requires i < |s| && Relaxed(t, s, b, i) && Settled(t, s, b, i) && PiecesRelaxed(t, s, b, i, |s|)
    requires PiecesAfter(t, s, b, i)
    ensures b[i + 1].Some? <==> PieceEnds(t, s, i + 1)
  {
    hide IsEdge, Relaxed;
    if PieceEnds(t, s, i + 1) {
      var k: nat :| k < i + 1 && Reach(t, s, k) && PieceAt(t, s, k, i + 1);
      RelaxedPiece(t, s, b, i, k);
    }
  }

  lemma RelaxedPiece(t: Tables, s: Text, b: Table, i: nat, k: nat)
    requires k <= i < |s| && PieceAt(t, s, k, i + 1) && Relaxed(t, s, b, i) && PiecesRelaxed(t, s, b, i, |s|)
    ensures EdgeRelaxed(b, PieceEdge(t, s, k, i + 1))
  {
    if k < i { assert IsEdge(t, s, PieceEdge(t, s, k, i + 1)); }
  }

  /** Entries beyond `i` were entered by pieces, from reachable positions up to `i`. */
  ghost predicate PiecesAfter(t: Tables, s: Text, b: Table, i: nat) {
    |b| == |s| + 1
    && forall k :: i < k <= |s| && b[k].Some? ==>
         b[k].value.prev <= i && Reach(t, s, b[k].value.prev) && PieceAt(t, s, b[k].value.prev, k)
  }

  /** Everything the outer loop keeps when it is about to treat position `i`. */
  ghost predicate Searched(t: Tables, s: Text, b: Table, p: seq<seq<Edge>>, i: nat) {
    Witnessed(t, s, b, p, i) && Relaxed(t, s, b, i) && Settled(t, s, b, i) && PiecesAfter(t, s, b, i)
  }

  lemma SearchStarts(t: Tables, s: Text, b: Table)
    requires |b| == |s| + 1 && b[0] == Some(Entry(0.0, 0, [])) && forall k :: 0 < k <= |s| ==> b[k].None?
    ensures Searched(t, s, b, seq(|s| + 1, _ => []), 0)
  {
  }

  /** One piece from `i`, taken when it improves its end. */
  lemma PieceStep(t: Tables, s: Text, b: Table, p: seq<seq<Edge>>, i: nat, j: nat, v: Entry)
    returns (p': seq<seq<Edge>>)
    requires i <= j < |s| && PieceAt(t, s, i, j + 1) && HasEntry(b, i) && Reach(t, s, i)
    requires Witnessed(t, s, b, p, i + 1) && Relaxed(t, s, b, i) && Settled(t, s, b, i) && PiecesAfter(t, s, b, i)
    requires PiecesRelaxed(t, s, b, i, j)
    requires var e := PieceEdge(t, s, i, j + 1); v == Entry(b[i].value.score + e.score, i, e.ids)
    requires b[j + 1].Some? ==> b[j + 1].value.score <= v.score
    ensures var b' := b[j + 1 := Some(v)];
            Witnessed(t, s, b', p', i + 1) && Relaxed(t, s, b', i) && Settled(t, s, b', i)
            && PiecesAfter(t, s, b', i) && PiecesRelaxed(t, s, b', i, j + 1)
  {
    hide Extends, Witnessed, Relaxed, Settled, PiecesAfter, PiecesRelaxed, PieceAt, IsEdge, Reach;
    var e := PieceEdge(t, s, i, j + 1);
    PieceIsEdge(t, s, i, j + 1);
    WitnessLength(t, s, b, p, i + 1);
    p' := p[e.to := p[i] + [e]];
    ImproveWitness(t, s, b, p, i, e);
    ImproveKeeps(t, s, b, i, j + 1, v);
    ImproveKeepsPieces(t, s, b, i, j + 1, j, v);
    PiecesGrow(t, s, b[j + 1 := Some(v)], i, j);
    SettledKeeps(t, s, b, i, j + 1, v);
    AfterKeeps(t, s, b, i, j + 1, v);
  }

  lemma PieceIsEdge(t: Tables, s: Text, i: nat, j: nat)
    requires PieceAt(t, s, i, j)
    ensures IsEdge(t, s, PieceEdge(t, s, i, j))
    ensures PieceEdge(t, s, i, j).from == i && PieceEdge(t, s, i, j).to == j
  {
  }

  lemma WitnessLength(t: Tables, s: Text, b: Table, p: seq<seq<Edge>>, i: nat)
    requires Witnessed(t, s, b, p, i)
    ensures |b| == |p| == |s| + 1
  {
  }

  lemma SettledKeeps(t: Tables, s: Text, b: Table, i: nat, j: nat, v: Entry)
    requires Settled(t, s, b, i) && i < j < |b|
    ensures Settled(t, s, b[j := Some(v)], i)
  {
  }

  lemma AfterKeeps(t: Tables, s: Text, b: Table, i: nat, j: nat, v: Entry)
    requires PiecesAfter(t, s, b, i) && i < j < |b| && v.prev == i && Reach(t, s, i) && PieceAt(t, s, i, j)
    ensures PiecesAfter(t, s, b[j := Some(v)], i)
  {
  }

  lemma SettledAt(t: Tables, s: Text, b: Table, i: nat)
    requires Settled(t, s, b, i) && i <= |s|
    ensures b[i].Some? <==> Reach(t, s, i)
  {
  }

  predicate HasEntry(b: Table, i: nat) { i < |b| && b[i].Some? }

  lemma PiecesGrow(t: Tables, s: Text, b: Table, i: nat, j: nat)
    requires PiecesRelaxed(t, s, b, i, j)
    requires PieceAt(t, s, i, j + 1) ==> EdgeRelaxed(b, PieceEdge(t, s, i, j + 1))
    ensures PiecesRelaxed(t, s, b, i, j + 1)
  {
  }

  /** The pieces from `i` done, the fallback edge is taken exactly when it is in the graph. */
  lemma FallbackStep(t: Tables, s: Text, b: Table, p: seq<seq<Edge>>, i: nat) returns (p': seq<seq<Edge>>)
    requires i < |s| && HasEntry(b, i) && Witnessed(t, s, b, p, i + 1) && Relaxed(t, s, b, i) && Settled(t, s, b, i)
    requires PiecesAfter(t, s, b, i) && PiecesRelaxed(t, s, b, i, |s|)
    ensures var ids := FallbackIds(t, s, i);
            var b' := if b[i + 1].None? && ids != []
                      then b[i + 1 := Some(Entry(b[i].value.score + t.bytePen, i, ids))] else b;
            Searched(t, s, b', p', i + 1)
  {
    hide Witnessed, Settled, Relaxed, PiecesRelaxed, PiecesAfter, PieceAt, FallbackIds;
    var ids := FallbackIds(t, s, i);
    var b', e := b, Edge(i, i + 1, t.bytePen, ids);
    p' := p;
    WitnessLength(t, s, b, p, i + 1);
    SettledAt(t, s, b, i);
    NextFilled(t, s, b, i);
    if b[i + 1].None? && ids != [] {
      var v := Entry(b[i].value.score + e.score, i, ids);
      b', p' := b[i + 1 := Some(v)], p[e.to := p[i] + [e]];
      assert IsEdge(t, s, e);
      ImproveWitness(t, s, b, p, i, e);
      ImproveKeeps(t, s, b, i, i + 1, v);
      ImproveKeepsPieces(t, s, b, i, i + 1, |s|, v);
      PiecesAfterNext(t, s, b, i, Some(v));
    } else {
      PiecesAfterNext(t, s, b, i, b[i + 1]);
      assert b[i + 1 := b[i + 1]] == b;
    }
    RelaxNext(t, s, b', i);
    SettleNext(t, s, b', i, b);
  }

  lemma PiecesAfterNext(t: Tables, s: Text, b: Table, i: nat, v: Option<Entry>)
    requires i < |s| && PiecesAfter(t, s, b, i)
    ensures PiecesAfter(t, s, b[i + 1 := v], i + 1)
  {
  }

  lemma RelaxNext(t: Tables, s: Text, b: Table, i: nat)
    requires i < |s| && Relaxed(t, s, b, i) && PiecesRelaxed(t, s, b, i, |s|)
    requires FallbackIds(t, s, i) != [] && !PieceEnds(t, s, i + 1) ==>
               EdgeRelaxed(b, Edge(i, i + 1, t.bytePen, FallbackIds(t, s, i)))
    ensures Relaxed(t, s, b, i + 1)
  {
    hide FallbackIds;
    forall e | IsEdge(t, s, e) && e.from < i + 1 ensures EdgeRelaxed(b, e) {
      if e.from == i {
        if PieceAt(t, s, i, e.to) && e == PieceEdge(t, s, i, e.to) { }
      }
    }
  }

  lemma SettleNext(t: Tables, s: Text, b: Table, i: nat, old_b: Table)
    requires i < |s| && |b| == |old_b| == |s| + 1 && Settled(t, s, old_b, i)
    requires forall k :: 0 <= k <= i ==> b[k] == old_b[k]
    requires b[i + 1].Some? <==> PieceEnds(t, s, i + 1) || (Reach(t, s, i) && FallbackIds(t, s, i) != [])
    ensures Settled(t, s, b, i + 1)
  {
    hide FallbackIds, PieceAt, Reach, PieceEnds;
    ReachNext(t, s, i);
  }

  lemma ReachNext(t: Tables, s: Text, i: nat)
    requires i < |s|
    ensures Reach(t, s, i + 1) <==> PieceEnds(t, s, i + 1) || (Reach(t, s, i) && FallbackIds(t, s, i) != [])
  {
    hide FallbackIds, PieceAt;
  }

  /** No edge leaves an unreachable position that was never filled. */
  lemma UnreachedStep(t: Tables, s: Text, b: Table, p: seq<seq<Edge>>, i: nat)
    requires i < |s| && Searched(t, s, b, p, i) && b[i].None?
    ensures Searched(t, s, b, p, i + 1)
  {
    hide Witnessed, Settled, Relaxed, PiecesRelaxed, PiecesAfter, PieceAt, FallbackIds, PieceEnds;
    WitnessLength(t, s, b, p, i);
    SettledAt(t, s, b, i);
    NoPieces(t, s, b, i);
    NextFilled(t, s, b, i);
    PiecesAfterNext(t, s, b, i, b[i + 1]);
    assert b[i + 1 := b[i + 1]] == b;
    WitnessLater(t, s, b, p, i);
    RelaxNext(t, s, b, i);
    SettleNext(t, s, b, i, b);
  }

  lemma NoPieces(t: Tables, s: Text, b: Table, i: nat)
    requires i < |b| && b[i].None?
    ensures PiecesRelaxed(t, s, b, i, |s|)
  {
  }

  lemma WitnessLater(t: Tables, s: Text, b: Table, p: seq<seq<Edge>>, i: nat)
    requires Witnessed(t, s, b, p, i)
    ensures Witnessed(t, s, b, p, i + 1)
  {
    hide IsEdge;
    forall k | 0 < k <= |s| && b[k].Some? ensures Extends(t, s, b, p, k, i + 1) {
      assert Extends(t, s, b, p, k, i);
    }
  }

  // ---------------------------------------------------------------- the search

  /** Pieces from position `i`: the inner loop. */
  method TakePieces(t: Tables, s: Text, best: array<Option<Entry>>, i: nat, ghost p: seq<seq<Edge>>)
    returns (ghost p': seq<seq<Edge>>)
    requires i < |s| && Searched(t, s, best[..], p, i) && HasEntry(best[..], i)
    modifies best
    ensures Witnessed(t, s, best[..], p', i + 1) && Relaxed(t, s, best[..], i) && Settled(t, s, best[..], i)
    ensures PiecesAfter(t, s, best[..], i) && PiecesRelaxed(t, s, best[..], i, |s|)
    ensures best[i] == old(best[i])
  {
    hide Witnessed, Settled, Relaxed, PiecesRelaxed, PiecesAfter, Reach;
    WitnessLength(t, s, best[..], p, i);
    SettledAt(t, s, best[..], i);
    WitnessLater(t, s, best[..], p, i);
    PiecesNone(t, s, best[..], i);
    p' := p;
    var base := best[i].value.score;
    var end := if i + t.maxPiece < |s| then i + t.maxPiece else |s|;
    for j := i to end
      invariant best[i] == old(best[i]) && best.Length == |s| + 1
      invariant Witnessed(t, s, best[..], p', i + 1) && Relaxed(t, s, best[..], i) && Settled(t, s, best[..], i)
      invariant PiecesAfter(t, s, best[..], i) && PiecesRelaxed(t, s, best[..], i, j)
    {
      ghost var b := best[..];
      var piece := s[i..j + 1];
      if piece in t.vocab && t.vocab[piece] < |t.scores| {
        var id := t.vocab[piece];
        var cand := base + t.scores[id];
        if best[j + 1].None? || cand > best[j + 1].value.score {
          p' := PieceStep(t, s, b, p', i, j, Entry(cand, i, [id]));
          best[j + 1] := Some(Entry(cand, i, [id]));
          assert best[..] == b[j + 1 := Some(Entry(cand, i, [id]))];
        } else {
          PiecesGrow(t, s, b, i, j);
        }
      } else {
        PiecesGrow(t, s, b, i, j);
      }
    }
    PiecesDone(t, s, best[..], i, end);
  }

  lemma PiecesNone(t: Tables, s: Text, b: Table, i: nat)
    ensures PiecesRelaxed(t, s, b, i, i)
  {
  }

  lemma PiecesDone(t: Tables, s: Text, b: Table, i: nat, end: nat)
    requires PiecesRelaxed(t, s, b, i, end) && (end == |s| || end == i + t.maxPiece)
    ensures PiecesRelaxed(t, s, b, i, |s|)
  {
  }

  method FillTable(t: Tables, s: Text) returns (best: array<Option<Entry>>, ghost p: seq<seq<Edge>>)
    ensures fresh(best) && Searched(t, s, best[..], p, |s|)
  {
    hide Witnessed, Settled, Relaxed, PiecesRelaxed, PiecesAfter, Reach, Searched, FallbackIds;
    best := new Option<Entry>[|s| + 1](_ => None);
    best[0] := Some(Entry(0.0, 0, []));
    SearchStarts(t, s, best[..]);
    p := seq(|s| + 1, _ => []);
    for i := 0 to |s|
      invariant fresh(best) && best.Length == |s| + 1 && Searched(t, s, best[..], p, i)
    {
      ghost var b := best[..];
      if best[i].None? {
        UnreachedStep(t, s, b, p, i);
      } else {
        p := TakePieces(t, s, best, i, p);
        b := best[..];
        var ids := FallbackIds(t, s, i);
        ghost var p' := FallbackStep(t, s, b, p, i);
        p := p';
        if best[i + 1].None? && ids != [] {
          best[i + 1] := Some(Entry(best[i].value.score + t.bytePen, i, ids));
        }
        assert best[..] == if b[i + 1].None? && ids != []
                           then b[i + 1 := Some(Entry(b[i].value.score + t.bytePen, i, ids))] else b;
      }
    }
  }

  lemma {:induction false} BestIsOptimal(t: Tables, s: Text, b: Table, p: seq<seq<Edge>>)
    requires Searched(t, s, b, p, |s|)
    ensures b[|s|].Some? <==> Reach(t, s, |s|)
    ensures b[|s|].Some? ==> IsOptimal(t, s, p[|s|])
  {
    hide Reach, IsEdge;
    SettledAt(t, s, b, |s|);
    if b[|s|].Some? {
      Witness(t, s, b, p, |s|, |s|);
      forall q | Path(t, s, q, |s|) ensures Score(q) <= Score(p[|s|]) {
        NoBetterPath(t, s, b, q, |s|);
      }
    }
  }

  function Concat(xs: seq<seq<nat>>): seq<nat> {
    if xs == [] then [] else xs[0] + Concat(xs[1..])
  }

  /** Walks the table back from the end, then emits the edges in order. */
  method Backtrack(t: Tables, s: Text, best: array<Option<Entry>>, ghost p: seq<seq<Edge>>, out: seq<nat>)
    returns (ids: seq<nat>)
    requires Searched(t, s, best[..], p, |s|) && HasEntry(best[..], |s|)
    ensures ids == out + PathIds(p[|s|])
  {
    hide Settled, Relaxed, PiecesAfter, IsEdge, Reversed, Witnessed, PathIds, Concat;
    WitnessLength(t, s, best[..], p, |s|);
    PathIdsNone(p[0], t, s, best[..], p);
    var edges: seq<seq<nat>> := [];
    var at: nat := |s|;
    while at > 0
      invariant at <= |s| && best[..][at].Some?
      invariant PathIds(p[at]) + Concat(Reversed(edges)) == PathIds(p[|s|])
    {
      var e := best[at].value;
      StepBack(t, s, best[..], p, at, Concat(Reversed(edges)));
      ReversedSnoc(edges, e.ids);
      edges := edges + [e.ids];
      at := e.prev;
    }
    assert [] + Concat(Reversed(edges)) == Concat(Reversed(edges));
    ids := Emit(edges, out);
  }

  lemma StepBack(t: Tables, s: Text, b: Table, p: seq<seq<Edge>>, at: nat, rest: seq<nat>)
    requires Witnessed(t, s, b, p, |s|) && 0 < at <= |s| && b[at].Some?
    ensures b[at].value.prev < at && b[b[at].value.prev].Some?
    ensures PathIds(p[at]) + rest == PathIds(p[b[at].value.prev]) + (b[at].value.ids + rest)
  {
    hide IsEdge;
    var e := b[at].value;
    assert Extends(t, s, b, p, at, |s|);
    assert p[at][..|p[at]| - 1] == p[e.prev];
    assert PathIds(p[at]) == PathIds(p[e.prev]) + e.ids;
  }

  lemma PathIdsNone(q: seq<Edge>, t: Tables, s: Text, b: Table, p: seq<seq<Edge>>)
    requires Witnessed(t, s, b, p, |s|) && q == p[0]
    ensures PathIds(q) == [] && Concat(Reversed([])) == []
  {
  }

  function Reversed(xs: seq<seq<nat>>): seq<seq<nat>> {
    seq(|xs|, i requires 0 <= i < |xs| => xs[|xs| - 1 - i])
  }

  lemma ReversedSnoc(xs: seq<seq<nat>>, x: seq<nat>)
    ensures Concat(Reversed(xs + [x])) == x + Concat(Reversed(xs))
  {
    assert Reversed(xs + [x])[1..] == Reversed(xs);
  }

  method Emit(edges: seq<seq<nat>>, out: seq<nat>) returns (ids: seq<nat>)
    ensures ids == out + Concat(Reversed(edges))
  {
    ids := out;
    ghost var rev := Reversed(edges);
    var k := |edges|;
    while k > 0
      invariant 0 <= k <= |edges| && ids + Concat(rev[|edges| - k..]) == out + Concat(rev)
    {
      k := k - 1;
      ghost var i := |edges| - 1 - k;
      assert rev[i..][1..] == rev[i + 1..] && rev[i] == edges[k];
      assert ids + (edges[k] + Concat(rev[i + 1..])) == ids + edges[k] + Concat(rev[i + 1..]);
      ids := ids + edges[k];
    }
    assert rev[|edges|..] == [] && ids + [] == ids;
  }

  /** Appends the ids of the best segmentation of `s`. */
  method EncodeUnigram(t: Tables, s: Text, out: seq<nat>) returns (ids: seq<nat>, ghost mine: seq<nat>)
    ensures ids == out + mine && Segments(t, s, mine)
  {
    hide Searched, Reach, IsOptimal, Path;
    if s == [] {
      mine := [];
      ids := out;
      EmptySegments(t);
      return;
    }
    ghost var p;
    var best;
    best, p := FillTable(t, s);
    BestIsOptimal(t, s, best[..], p);
    SearchedLength(t, s, best[..], p);
    if best[|s|].None? {
      ids := EncodePiece(t, s, out);
      mine := Encode(t, s);
    } else {
      ids := Backtrack(t, s, best, p, out);
      mine := PathIds(p[|s|]);
    }
  }

  lemma SearchedLength(t: Tables, s: Text, b: Table, p: seq<seq<Edge>>)
    requires Searched(t, s, b, p, |s|)
    ensures |b| == |p| == |s| + 1
  {
  }

  lemma EmptySegments(t: Tables)
    ensures Segments(t, [], [])
  {
    var s: Text := [];
    forall q | Path(t, s, q, 0) ensures Score(q) <= Score([]) { PathMoves(t, s, q, 0); }
    assert IsOptimal(t, s, []);
  }

  lemma PathMoves(t: Tables, s: Text, q: seq<Edge>, to: nat)
    requires Path(t, s, q, to)
    ensures to == 0 ==> q == []
  {
  }

  // ---------------------------------------------------------------- segmentations into tokens

  /** A way to cut the text into scored tokens, none longer than the longest piece considered. */
  predicate IsSegmentation(t: Tables, s: Text, parts: Parts) {
    Flat(parts) == s
    && forall k :: 0 <= k < |parts| ==>
         0 < |parts[k]| <= t.maxPiece && parts[k] in t.vocab && t.vocab[parts[k]] < |t.scores|
  }

  function Total(t: Tables, parts: Parts): real {
    if parts == [] then 0.0
    else
      var k := |parts| - 1;
      Total(t, parts[..k])
      + if parts[k] in t.vocab && t.vocab[parts[k]] < |t.scores| then t.scores[t.vocab[parts[k]]] else 0.0
  }

  lemma FlatSnoc(parts: Parts)
    requires parts != []
    ensures var k := |parts| - 1; Flat(parts) == Flat(parts[..k]) + parts[k]
  {
    var k := |parts| - 1;
    assert parts == parts[..k] + [parts[k]];
    FlatConcat(parts[..k], [parts[k]]);
    FlatOne(parts[k]);
  }

  /** A segmentation of the front of the text is a path with the same score and the ids of its tokens. */
  lemma {:induction false} SegmentationPath(t: Tables, s: Text, parts: Parts) returns (path: seq<Edge>)
    requires Flat(parts) <= s && IsSegmentation(t, Flat(parts), parts)
    ensures Path(t, s, path, |Flat(parts)|) && Score(path) == Total(t, parts)
    ensures |PathIds(path)| == |parts| && forall k :: 0 <= k < |parts| ==> PathIds(path)[k] == t.vocab[parts[k]]
    decreases |parts|
  {
    hide Flat, PieceEnds, FallbackIds;
    if parts == [] {
      path := [];
      assert Flat(parts) == [] by { FlatNone(); }
    } else {
      var k := |parts| - 1;
      FlatSnoc(parts);
      var i, j := |Flat(parts[..k])|, |Flat(parts)|;
      var front := SegmentationPath(t, s, parts[..k]);
      assert s[i..j] == parts[k];
      var e := PieceEdge(t, s, i, j);
      path := ExtendPath(t, s, front, e);
      assert path[..|path| - 1] == front;
    }
  }

  lemma FlatNone()
    ensures Flat([]) == []
  {
  }

  /** No way to cut the text into tokens scores more than the path the search takes. */
  lemma NoneScoresMore(t: Tables, s: Text, path: seq<Edge>, parts: Parts)
    requires IsOptimal(t, s, path) && IsSegmentation(t, s, parts)
    ensures Total(t, parts) <= Score(path)
  {
    hide Path, Total, Score, PathIds, Flat;
    var q := SegmentationPath(t, s, parts);
  }

  predicate OnlyPieces(t: Tables, s: Text, path: seq<Edge>) {
    forall k :: 0 <= k < |path| ==> PieceAt(t, s, path[k].from, path[k].to)
                                    && path[k] == PieceEdge(t, s, path[k].from, path[k].to)
  }

  /** A path without fallback edges is such a segmentation, with its score. */
  lemma {:induction false} PiecesPath(t: Tables, s: Text, path: seq<Edge>, to: nat) returns (parts: Parts)
    requires Path(t, s, path, to) && OnlyPieces(t, s, path)
    ensures to <= |s| && IsSegmentation(t, s[..to], parts) && Total(t, parts) == Score(path)
    ensures |PathIds(path)| == |parts| && forall k :: 0 <= k < |parts| ==> PathIds(path)[k] == t.vocab[parts[k]]
    decreases |path|
  {
    hide PieceEnds, FallbackIds, Flat, Reach;
    if path == [] {
      parts := [];
      FlatNone();
      assert s[..0] == [];
    } else {
      var k := |path| - 1;
      var e := path[k];
      assert OnlyPieces(t, s, path[..k]);
      var front := PiecesPath(t, s, path[..k], e.from);
      var p := s[e.from..e.to];
      parts := front + [p];
      assert parts[..|parts| - 1] == front;
      FlatSnoc(parts);
      assert s[..e.from] + p == s[..to];
    }
  }

  /** So when the search needs no fallback, its ids are those of a best segmentation into tokens. */
  lemma BestSegmentation(t: Tables, s: Text, path: seq<Edge>) returns (parts: Parts)
    requires IsOptimal(t, s, path) && OnlyPieces(t, s, path)
    ensures IsSegmentation(t, s, parts) && |PathIds(path)| == |parts|
    ensures forall k :: 0 <= k < |parts| ==> PathIds(path)[k] == t.vocab[parts[k]]
    ensures forall other :: IsSegmentation(t, s, other) ==> Total(t, other) <= Total(t, parts)
  {
    hide Path, IsSegmentation, OnlyPieces, Total, Score;
    parts := PiecesPath(t, s, path, |s|);
    assert s[..|s|] == s;
    forall other | IsSegmentation(t, s, other) ensures Total(t, other) <= Total(t, parts) {
      NoneScoresMore(t, s, path, other);
    }
    TokensOf(t, s, parts);
  }

  lemma TokensOf(t: Tables, s: Text, parts: Parts)
    requires IsSegmentation(t, s, parts)
    ensures forall k :: 0 <= k < |parts| ==> parts[k] in t.vocab
  {
  }
}
