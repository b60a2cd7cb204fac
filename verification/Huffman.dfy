/** Canonical Huffman codes: code assignment (section 3.2.2 of RFC 1951), the table builder and
    the bit-by-bit decoder of the inflater, and why decoding inverts the assignment. */
module Huffman {
  import opened Bytes
  import opened Arithmetic

  type Bit = b: int | 0 <= b < 2

  datatype InflateError = Truncated | OverSubscribed | BadCode | BadStored | BadRepeat | RunOverflow
                        | BadLength | BadDistance | BadBlock | BadHeader

  function Pow2(n: nat): (r: nat)
    ensures r > 0
  {
    if n == 0 then 1 else 2 * Pow2(n - 1)
  }

  lemma PowStep(k: nat)
    ensures Pow2(0) == 1 && Pow2(k + 1) == 2 * Pow2(k)
  {
  }

  lemma SmallPowers()
    ensures Pow2(0) == 1 && Pow2(1) == 2 && Pow2(2) == 4 && Pow2(3) == 8 && Pow2(4) == 16 && Pow2(5) == 32
    ensures Pow2(6) == 64 && Pow2(7) == 128 && Pow2(8) == 256 && Pow2(9) == 512 && Pow2(10) == 1024
    ensures Pow2(11) == 2048 && Pow2(12) == 4096 && Pow2(13) == 8192
  {
  }

  lemma QuotientStep(v: nat, k: nat)
    ensures v / Pow2(k + 1) == v / 2 / Pow2(k)
  {
    hide Pow2;
    PowStep(k);
    DigitFirst(v % 2, v / 2, 2, Pow2(k));
  }

  // ---------------------------------------------------------------- canonical codes

  /** How many codes have each length; the entry for length 0 is 0. */
  type Counts = seq<nat>

  /** First code of length `l`: twice what follows the codes one bit shorter. */
  function First(c: Counts, l: nat): nat
    requires l <= |c|
  {
    if l <= 1 then 0 else 2 * (First(c, l - 1) + c[l - 1])
  }

  /** Number of codes shorter than `l`. */
  function Index(c: Counts, l: nat): nat
    requires l <= |c|
  {
    if l <= 1 then 0 else Index(c, l - 1) + c[l - 1]
  }

  lemma FirstStep(c: Counts, l: nat)
    requires l < |c|
    ensures l == 0 ==> First(c, 1) == 0 && Index(c, 1) == 0
    ensures l > 0 ==> First(c, l + 1) == 2 * (First(c, l) + c[l]) && Index(c, l + 1) == Index(c, l) + c[l]
  {
  }

  /** No length is over-subscribed. */
  predicate Kraft(c: Counts) { forall l :: 1 <= l < |c| ==> First(c, l) + c[l] <= Pow2(l) }

  /** A code of `len` bits, most significant first. */
  function CodeBits(code: nat, len: nat): seq<Bit>
    decreases len
  {
    if len == 0 then [] else CodeBits(code / 2, len - 1) + [code % 2]
  }

  lemma {:induction false} CodeBitsLength(code: nat, len: nat)
    ensures |CodeBits(code, len)| == len
    decreases len
  {
    if len > 0 { CodeBitsLength(code / 2, len - 1); }
  }

  /** The bits of a code, by weight. */
  lemma {:induction false} CodeBitAt(code: nat, len: nat, k: nat)
    requires k < len
    ensures |CodeBits(code, len)| == len && CodeBits(code, len)[k] == code / Pow2(len - 1 - k) % 2
    decreases len
  {
    hide Pow2;
    CodeBitsLength(code, len);
    CodeBitsLength(code / 2, len - 1);
    if k < len - 1 {
      CodeBitAt(code / 2, len - 1, k);
      QuotientStep(code, len - 2 - k);
    } else {
      PowStep(0);
    }
  }

  // ---------------------------------------------------------------- length tables

  /** Symbols below `k` with length `l`. */
  function CountBelow(lengths: seq<nat>, k: nat, l: nat): nat
    requires k <= |lengths|
  {
    if k == 0 then 0 else CountBelow(lengths, k - 1, l) + if lengths[k - 1] == l then 1 else 0
  }

  function CountsOf(lengths: seq<nat>): Counts {
    seq(16, l requires 0 <= l < 16 => if l == 0 then 0 else CountBelow(lengths, |lengths|, l))
  }

  /** The code of a symbol: the first of its length, plus its rank among equals. */
  function Code(lengths: seq<nat>, sym: nat): nat
    requires sym < |lengths| && lengths[sym] < 16
  {
    First(CountsOf(lengths), lengths[sym]) + CountBelow(lengths, sym, lengths[sym])
  }

  /** Where a symbol stands in the order by length, then by number. */
  function Slot(lengths: seq<nat>, sym: nat): nat
    requires sym < |lengths| && lengths[sym] < 16
  {
    Index(CountsOf(lengths), lengths[sym]) + CountBelow(lengths, sym, lengths[sym])
  }

  function SymbolBits(lengths: seq<nat>, sym: nat): seq<Bit>
    requires sym < |lengths| && lengths[sym] < 16
  {
    CodeBits(Code(lengths, sym), lengths[sym])
  }

  predicate Lengths(lengths: seq<nat>) { forall k :: 0 <= k < |lengths| ==> lengths[k] < 16 }

  function Repeat(v: nat, n: nat): (w: seq<nat>)
    ensures |w| == n && (forall k :: 0 <= k < n ==> w[k] == v) && (v < 16 ==> Lengths(w))
  {
    seq(n, _ => v)
  }

  predicate HasCode(lengths: seq<nat>, sym: nat) { sym < |lengths| && 0 < lengths[sym] < 16 }

  lemma {:induction false} CountBelowMonotone(lengths: seq<nat>, i: nat, j: nat, l: nat)
    requires i <= j <= |lengths|
    ensures CountBelow(lengths, i, l) <= CountBelow(lengths, j, l)
    ensures i < j && lengths[i] == l ==> CountBelow(lengths, i, l) < CountBelow(lengths, j, l)
    decreases j - i
  {
    if i < j {
      CountBelowMonotone(lengths, i, j - 1, l);
    }
  }

  lemma {:induction false} IndexMonotone(c: Counts, i: nat, j: nat)
    requires 1 <= i <= j <= |c|
    ensures Index(c, i) <= Index(c, j)
    ensures i < j ==> Index(c, i) + c[i] <= Index(c, j)
    decreases j - i
  {
    if i < j { IndexMonotone(c, i, j - 1); }
  }

  lemma RankBelowCount(lengths: seq<nat>, sym: nat)
    requires HasCode(lengths, sym)
    ensures CountBelow(lengths, sym, lengths[sym]) < CountsOf(lengths)[lengths[sym]]
  {
    CountBelowMonotone(lengths, sym, |lengths|, lengths[sym]);
  }

  /** Symbols occupy distinct slots. */
  lemma SlotsDiffer(lengths: seq<nat>, a: nat, b: nat)
    requires HasCode(lengths, a) && HasCode(lengths, b) && a < b
    ensures Slot(lengths, a) != Slot(lengths, b)
  {
    var c := CountsOf(lengths);
    RankBelowCount(lengths, a);
    RankBelowCount(lengths, b);
    if lengths[a] == lengths[b] {
      CountBelowMonotone(lengths, a, b, lengths[a]);
    } else if lengths[a] < lengths[b] {
      IndexMonotone(c, lengths[a], lengths[b]);
    } else {
      IndexMonotone(c, lengths[b], lengths[a]);
    }
  }

  // ---------------------------------------------------------------- code space

  /** The code space of the symbols below `k` with a code shorter than `l`, a code of `m` bits taking
      2^(15 - m) of 2^15. */
  function SpaceBelow(lengths: seq<nat>, k: nat, l: nat): nat
    requires k <= |lengths| && l <= 16
  {
    if k == 0 then 0
    else SpaceBelow(lengths, k - 1, l) + if 0 < lengths[k - 1] < l then Pow2(15 - lengths[k - 1]) else 0
  }

  lemma OneMore(n: nat, x: nat)
    ensures (n + 1) * x == n * x + x && 0 * x == 0
  {
  }

  lemma {:induction false} NoSpace(lengths: seq<nat>, k: nat)
    requires k <= |lengths|
    ensures SpaceBelow(lengths, k, 1) == 0
  {
    if k > 0 { NoSpace(lengths, k - 1); }
  }

  lemma {:induction false} SpaceStep(lengths: seq<nat>, k: nat, l: nat)
    requires k <= |lengths| && 1 <= l < 16
    ensures SpaceBelow(lengths, k, l + 1) == SpaceBelow(lengths, k, l) + CountBelow(lengths, k, l) * Pow2(15 - l)
  {
    hide Pow2;
    OneMore(if k > 0 then CountBelow(lengths, k - 1, l) else 0, Pow2(15 - l));
    if k > 0 { SpaceStep(lengths, k - 1, l); }
  }

  /** The first code of a length starts where the space of the shorter codes ends. */
  lemma {:induction false} FirstIsSpace(lengths: seq<nat>, l: nat)
    requires 1 <= l < 16
    ensures First(CountsOf(lengths), l) * Pow2(15 - l) == SpaceBelow(lengths, |lengths|, l)
  {
    hide Pow2, CountBelow, SpaceBelow;
    if l == 1 {
      NoSpace(lengths, |lengths|);
    } else {
      SpaceStep(lengths, |lengths|, l - 1);
      FirstIsSpace(lengths, l - 1);
      PowStep(15 - l);
      FirstStep(CountsOf(lengths), l - 1);
      Doubled(First(CountsOf(lengths), l - 1), CountsOf(lengths)[l - 1], Pow2(15 - l));
    }
  }

  lemma Doubled(a: nat, b: nat, x: nat)
    ensures (2 * (a + b)) * x == a * (2 * x) + b * (2 * x)
  {
  }

  /** Section 3.2.2: a code starts where the space of the codes before it ends, shorter codes coming
      first and, among equal lengths, lower symbols. */
  lemma CodeIsSpace(lengths: seq<nat>, sym: nat)
    requires HasCode(lengths, sym)
    ensures Code(lengths, sym) * Pow2(15 - lengths[sym])
            == SpaceBelow(lengths, |lengths|, lengths[sym])
               + CountBelow(lengths, sym, lengths[sym]) * Pow2(15 - lengths[sym])
  {
    hide Pow2, CountBelow, SpaceBelow, First;
    FirstIsSpace(lengths, lengths[sym]);
  }

  lemma {:induction false} SpaceGrows(lengths: seq<nat>, l: nat)
    requires 1 <= l <= 16
    ensures SpaceBelow(lengths, |lengths|, l) <= SpaceBelow(lengths, |lengths|, 16)
    decreases 16 - l
  {
    hide Pow2, CountBelow, SpaceBelow;
    if l < 16 {
      SpaceStep(lengths, |lengths|, l);
      SpaceGrows(lengths, l + 1);
    }
  }

  lemma Subscribed(lengths: seq<nat>, l: nat)
    requires 1 <= l < 16
    ensures First(CountsOf(lengths), l) + CountsOf(lengths)[l] <= Pow2(l)
            <==> SpaceBelow(lengths, |lengths|, l + 1) <= Pow2(15)
  {
    var c := CountsOf(lengths);
    assert c[l] == CountBelow(lengths, |lengths|, l);
    hide *;
    FirstIsSpace(lengths, l);
    SpaceStep(lengths, |lengths|, l);
    PowSum(l, 15 - l);
    Scaled(First(c, l), c[l], Pow2(l), Pow2(15 - l));
  }

  /** Kraft's inequality: no length is over-subscribed exactly when all codes fit the code space. */
  lemma KraftInequality(lengths: seq<nat>)
    ensures Kraft(CountsOf(lengths)) <==> SpaceBelow(lengths, |lengths|, 16) <= Pow2(15)
  {
    hide Pow2, CountBelow, SpaceBelow, First;
    var c := CountsOf(lengths);
    forall l | 1 <= l < 16
      ensures First(c, l) + c[l] <= Pow2(l) <==> SpaceBelow(lengths, |lengths|, l + 1) <= Pow2(15)
      ensures SpaceBelow(lengths, |lengths|, l + 1) <= SpaceBelow(lengths, |lengths|, 16)
    {
      Subscribed(lengths, l);
      SpaceGrows(lengths, l + 1);
    }
  }

  lemma Scaled(a: nat, b: nat, m: nat, x: nat)
    requires x > 0
    ensures a + b <= m <==> a * x + b * x <= m * x
  {
    assert a * x + b * x == (a + b) * x;
    if a + b > m { Larger(x, a + b - m); }
    if a + b < m { Larger(x, m - (a + b)); }
  }

  // ---------------------------------------------------------------- the decoder

  /** Decoding tables: code counts by length, and the symbols in code order. */
  datatype Table = Table(counts: Counts, symbols: seq<nat>)

  predicate TableOk(h: Table) { |h.counts| == 16 && Index(h.counts, 16) <= |h.symbols| }

  /** The table of a list of code lengths. */
  ghost predicate TableFor(h: Table, lengths: seq<nat>) {
    && TableOk(h) && h.counts == CountsOf(lengths) && Lengths(lengths)
    && forall k: nat :: HasCode(lengths, k) ==> Slot(lengths, k) < |h.symbols| && h.symbols[Slot(lengths, k)] == k
  }

  /** Reading from position `p` at code length `l`, with the code read so far already shifted. */
  function DecodeFrom(h: Table, s: seq<Bit>, p: nat, l: nat, code: nat): (r: Result<(nat, nat), InflateError>)
    requires TableOk(h) && 1 <= l <= 16 && First(h.counts, l) <= code
    ensures r.Ok? ==> p < r.value.1 <= |s|
    decreases 16 - l
  {
    if l == 16 then Err(BadCode)
    else if p >= |s| then Err(Truncated)
    else
      var code' := code + s[p];
      var k := code' - First(h.counts, l);
      IndexMonotone(h.counts, l, 16);
      if k < h.counts[l] then Ok((h.symbols[Index(h.counts, l) + k], p + 1))
      else DecodeFrom(h, s, p + 1, l + 1, 2 * code')
  }

  function Decode(h: Table, s: seq<Bit>, p: nat): (r: Result<(nat, nat), InflateError>)
    requires TableOk(h)
    ensures r.Ok? ==> p < r.value.1 <= |s|
  {
    DecodeFrom(h, s, p, 1, 0)
  }

  // ---------------------------------------------------------------- decoding inverts the assignment

  lemma {:induction false} PowSum(a: nat, b: nat)
    ensures Pow2(a + b) == Pow2(a) * Pow2(b)
  {
    if a > 0 { PowSum(a - 1, b); }
  }

  /** A code shortened to `l` of its `len` bits. */
  function Shorten(code: nat, len: nat, l: nat): nat
    requires l <= len
    decreases len - l
  {
    if l == len then code else Shorten(code / 2, len - 1, l)
  }

  lemma {:induction false} ShortenStep(code: nat, len: nat, l: nat)
    requires l < len
    ensures Shorten(code, len, l) == Shorten(code, len, l + 1) / 2
    ensures |CodeBits(code, len)| == len && CodeBits(code, len)[l] == Shorten(code, len, l + 1) % 2
    decreases len - l
  {
    CodeBitsLength(code, len);
    CodeBitsLength(code / 2, len - 1);
    if l + 1 < len {
      ShortenStep(code / 2, len - 1, l);
    }
  }

  /** Codes of later lengths, shortened, lie beyond all codes of length `l`. */
  lemma {:induction false} ShortenBeyond(c: Counts, code: nat, len: nat, l: nat)
    requires 1 <= l < len < |c| && First(c, len) <= code
    ensures First(c, l) + c[l] <= Shorten(code, len, l)
    decreases len - l
  {
    assert First(c, len - 1) + c[len - 1] <= code / 2;
    if l + 1 < len { ShortenBeyond(c, code / 2, len - 1, l); }
  }

  lemma {:induction false} ShortenTop(code: nat, len: nat)
    requires code < Pow2(len)
    ensures Shorten(code, len, 0) == 0
    decreases len
  {
    if len > 0 { ShortenTop(code / 2, len - 1); }
  }

  /** The bits of `w` stand in `s` at position `p`. */
  predicate BitsAt(s: seq<Bit>, p: nat, w: seq<Bit>) {
    p + |w| <= |s| && forall k :: 0 <= k < |w| ==> s[p + k] == w[k]
  }

  /** One bit of a code that stands at a position. */
  lemma NextCodeBit(s: seq<Bit>, p: nat, code: nat, len: nat, l: nat)
    requires 1 <= l <= len && BitsAt(s, p, CodeBits(code, len))
    ensures p + l - 1 < |s| && 2 * Shorten(code, len, l - 1) + s[p + l - 1] == Shorten(code, len, l)
    ensures p + len <= |s|
  {
    CodeBitsLength(code, len);
    ShortenStep(code, len, l - 1);
    assert s[p + l - 1] == CodeBits(code, len)[l - 1];
  }

  lemma {:induction false} DecodesCode(h: Table, s: seq<Bit>, p: nat, code: nat, len: nat, l: nat)
    requires TableOk(h) && 1 <= l <= len < 16 && BitsAt(s, p, CodeBits(code, len))
    requires First(h.counts, len) <= code < First(h.counts, len) + h.counts[len]
    requires First(h.counts, l) <= 2 * Shorten(code, len, l - 1)
    ensures Index(h.counts, len) + code - First(h.counts, len) < |h.symbols|
    ensures DecodeFrom(h, s, p + l - 1, l, 2 * Shorten(code, len, l - 1))
            == Ok((h.symbols[Index(h.counts, len) + code - First(h.counts, len)], p + len))
    decreases len - l
  {
    hide First, Index, CodeBits, BitsAt;
    NextCodeBit(s, p, code, len, l);
    IndexMonotone(h.counts, len, 16);
    FirstStep(h.counts, len);
    if l < len {
      hide Shorten;
      ShortenBeyond(h.counts, code, len, l);
      FirstStep(h.counts, l);
      DecodesCode(h, s, p, code, len, l + 1);
    } else {
      ShortenWhole(code, len);
    }
  }

  lemma ShortenWhole(code: nat, len: nat)
    ensures Shorten(code, len, len) == code
  {
  }

  /** Decoding the code of a symbol gives the symbol and consumes exactly its length. */
  lemma DecodeInvertsCode(h: Table, lengths: seq<nat>, s: seq<Bit>, p: nat, sym: nat)
    requires TableFor(h, lengths) && Kraft(h.counts) && HasCode(lengths, sym)
    requires BitsAt(s, p, SymbolBits(lengths, sym))
    ensures Decode(h, s, p) == Ok((sym, p + lengths[sym]))
  {
    hide Index, CodeBits, CountBelow, Shorten, DecodeFrom, BitsAt, Pow2;
    var code, len := Code(lengths, sym), lengths[sym];
    RankBelowCount(lengths, sym);
    CodeFits(lengths, sym);
    ShortenTop(code, len);
    DecodesCode(h, s, p, code, len, 1);
    SlotOfCode(h, lengths, sym);
  }

  /** Codes of a table that is not over-subscribed fit their length. */
  lemma CodeFits(lengths: seq<nat>, sym: nat)
    requires HasCode(lengths, sym) && Kraft(CountsOf(lengths))
    ensures Code(lengths, sym) < Pow2(lengths[sym])
  {
    hide First, CountBelow, Pow2;
    RankBelowCount(lengths, sym);
  }

  lemma SlotOfCode(h: Table, lengths: seq<nat>, sym: nat)
    requires TableFor(h, lengths) && HasCode(lengths, sym)
    ensures Index(h.counts, lengths[sym]) + Code(lengths, sym) - First(h.counts, lengths[sym]) == Slot(lengths, sym)
    ensures Slot(lengths, sym) < |h.symbols| && h.symbols[Slot(lengths, sym)] == sym
  {
  }

  /** The `k`-th symbol of length `l`. */
  lemma {:induction false} NthSymbol(lengths: seq<nat>, n: nat, l: nat, k: nat) returns (sym: nat)
    requires n <= |lengths| && k < CountBelow(lengths, n, l)
    ensures sym < n && lengths[sym] == l && CountBelow(lengths, sym, l) == k
    decreases n
  {
    if k < CountBelow(lengths, n - 1, l) {
      sym := NthSymbol(lengths, n - 1, l, k);
    } else {
      sym := n - 1;
    }
  }

  /** Bits read from `p` and their value `code`: reading one more bit shifts it in. */
  lemma CodeBitsGrow(s: seq<Bit>, p: nat, n: nat, code: nat)
    requires BitsAt(s, p, CodeBits(code, n)) && p + n < |s|
    ensures BitsAt(s, p, CodeBits(2 * code + s[p + n], n + 1))
  {
    CodeBitsLength(code, n);
  }

  lemma {:induction false} DecodeFromFinds(h: Table, lengths: seq<nat>, s: seq<Bit>, p: nat, l: nat, code: nat)
    returns (sym: nat)
    requires TableFor(h, lengths) && 1 <= l <= 16 && First(h.counts, l) <= 2 * code
    requires BitsAt(s, p, CodeBits(code, l - 1)) && DecodeFrom(h, s, p + l - 1, l, 2 * code).Ok?
    ensures HasCode(lengths, sym) && BitsAt(s, p, SymbolBits(lengths, sym))
    ensures DecodeFrom(h, s, p + l - 1, l, 2 * code).value == (sym, p + lengths[sym])
    decreases 16 - l
  {
    hide CodeBits, CountBelow, BitsAt, Index;
    CodeBitsGrow(s, p, l - 1, code);
    var code' := 2 * code + s[p + l - 1];
    var k := code' - First(h.counts, l);
    IndexMonotone(h.counts, l, 16);
    if k < h.counts[l] {
      sym := NthSymbol(lengths, |lengths|, l, k);
      SlotOfCode(h, lengths, sym);
    } else {
      sym := DecodeFromFinds(h, lengths, s, p, l + 1, code');
    }
  }

  /** Decoding succeeds only on the code of a symbol: it is the exact inverse of the assignment. */
  lemma DecodeFindsCode(h: Table, lengths: seq<nat>, s: seq<Bit>, p: nat) returns (sym: nat)
    requires TableFor(h, lengths) && Decode(h, s, p).Ok?
    ensures HasCode(lengths, sym) && BitsAt(s, p, SymbolBits(lengths, sym))
    ensures Decode(h, s, p).value == (sym, p + lengths[sym])
  {
    sym := DecodeFromFinds(h, lengths, s, p, 1, 0);
  }

  // ---------------------------------------------------------------- building the table

  lemma {:induction false} IndexTotal(lengths: seq<nat>, l: nat)
    requires Lengths(lengths) && 1 <= l <= 16
    ensures Index(CountsOf(lengths), l) <= |lengths|
    ensures Index(CountsOf(lengths), l) == ShorterThan(lengths, |lengths|, l)
  {
    hide CountBelow;
    if l > 1 {
      IndexTotal(lengths, l - 1);
      ShorterStep(lengths, |lengths|, l - 1);
    } else {
      NoneShorter(lengths, |lengths|);
    }
    ShorterBound(lengths, |lengths|, l);
  }

  /** Symbols below `k` with a code shorter than `l`. */
  function ShorterThan(lengths: seq<nat>, k: nat, l: nat): nat
    requires k <= |lengths|
  {
    if k == 0 then 0 else ShorterThan(lengths, k - 1, l) + if 0 < lengths[k - 1] < l then 1 else 0
  }

  lemma {:induction false} ShorterStep(lengths: seq<nat>, k: nat, l: nat)
    requires k <= |lengths| && l > 0
    ensures ShorterThan(lengths, k, l + 1) == ShorterThan(lengths, k, l) + CountBelow(lengths, k, l)
  {
    if k > 0 { ShorterStep(lengths, k - 1, l); }
  }

  lemma {:induction false} NoneShorter(lengths: seq<nat>, k: nat)
    requires k <= |lengths|
    ensures ShorterThan(lengths, k, 1) == 0
  {
    if k > 0 { NoneShorter(lengths, k - 1); }
  }

  lemma {:induction false} ShorterBound(lengths: seq<nat>, k: nat, l: nat)
    requires k <= |lengths|
    ensures ShorterThan(lengths, k, l) <= k
  {
    if k > 0 { ShorterBound(lengths, k - 1, l); }
  }

  /** Counts of each code length, length 0 cleared. */
  method CountLengths(lengths: seq<nat>) returns (counts: array<nat>)
    requires Lengths(lengths)
    ensures fresh(counts) && counts[..] == CountsOf(lengths)
  {
    counts := new nat[16](_ => 0);
    for i := 0 to |lengths|
      invariant fresh(counts) && forall l :: 0 <= l < 16 ==> counts[l] == CountBelow(lengths, i, l)
    {
      counts[lengths[i]] := counts[lengths[i]] + 1;
    }
    counts[0] := 0;
  }

  /** Codes of `l` bits still free when all codes up to that length are given out. */
  function Left(counts: seq<nat>, l: nat): int
    requires l < |counts|
  {
    if l == 0 then 1 else 2 * Left(counts, l - 1) - counts[l]
  }

  lemma {:induction false} LeftIs(counts: seq<nat>, l: nat)
    requires l < |counts|
    ensures Left(counts, l) == if l == 0 then 1 else Pow2(l) - First(counts, l) - counts[l]
  {
    if l > 0 { LeftIs(counts, l - 1); }
  }

  /** The over-subscription check. */
  method CheckKraft(counts: seq<nat>) returns (ok: bool)
    requires |counts| == 16
    ensures ok == Kraft(counts)
  {
    hide Kraft, First, Pow2;
    var left: int := 1;
    for l := 1 to 16
      invariant left == Left(counts, l - 1)
      invariant forall k: nat :: 1 <= k < l ==> First(counts, k) + counts[k] <= Pow2(k)
    {
      left := left * 2;
      left := left - counts[l];
      LeftIs(counts, l);
      if left < 0 {
        NotKraft(counts, l);
        return false;
      }
    }
    IsKraft(counts);
    return true;
  }

  lemma NotKraft(counts: seq<nat>, l: nat)
    requires 1 <= l < |counts| && First(counts, l) + counts[l] > Pow2(l)
    ensures !Kraft(counts)
  {
  }

  lemma IsKraft(counts: seq<nat>)
    requires forall l :: 1 <= l < |counts| ==> First(counts, l) + counts[l] <= Pow2(l)
    ensures Kraft(counts)
  {
  }

  /** The first free slot of each length. */
  method Offsets(counts: seq<nat>) returns (offs: array<nat>)
    requires |counts| == 16 && counts[0] == 0
    ensures fresh(offs) && offs.Length == 16 && forall l :: 1 <= l < 16 ==> offs[l] == Index(counts, l)
  {
    offs := new nat[16](_ => 0);
    for l := 1 to 15
      invariant fresh(offs) && forall k :: 1 <= k <= l ==> offs[k] == Index(counts, k)
    {
      offs[l + 1] := offs[l] + counts[l];
    }
  }

  /** The symbols in code order, those below `k` placed; unused places hold 0. */
  function SymbolsUpTo(lengths: seq<nat>, k: nat): (symbols: seq<nat>)
    requires Lengths(lengths) && k <= |lengths|
    ensures |symbols| == |lengths|
  {
    if k == 0 then seq(|lengths|, _ => 0)
    else
      var before := SymbolsUpTo(lengths, k - 1);
      if lengths[k - 1] == 0 then before
      else
        SlotInRange(lengths, k - 1);
        before[Slot(lengths, k - 1) := k - 1]
  }

  function TableOf(lengths: seq<nat>): (h: Table)
    requires Lengths(lengths)
    ensures TableOk(h)
  {
    IndexTotal(lengths, 16);
    Table(CountsOf(lengths), SymbolsUpTo(lengths, |lengths|))
  }

  lemma SlotInRange(lengths: seq<nat>, k: nat)
    requires Lengths(lengths) && HasCode(lengths, k)
    ensures Slot(lengths, k) < |lengths|
  {
    hide CountBelow;
    RankBelowCount(lengths, k);
    IndexMonotone(CountsOf(lengths), lengths[k], 16);
    IndexTotal(lengths, 16);
  }

  lemma {:induction false} SymbolsPlaced(lengths: seq<nat>, k: nat, j: nat)
    requires Lengths(lengths) && k <= |lengths| && j < k && HasCode(lengths, j)
    ensures Slot(lengths, j) < |lengths| && SymbolsUpTo(lengths, k)[Slot(lengths, j)] == j
  {
    hide Slot;
    SlotInRange(lengths, j);
    if j < k - 1 {
      SymbolsPlaced(lengths, k - 1, j);
      if lengths[k - 1] != 0 { SlotsDiffer(lengths, j, k - 1); }
    }
  }

  /** The built table is the table of its lengths. */
  lemma TableOfIsFor(lengths: seq<nat>)
    requires Lengths(lengths)
    ensures TableFor(TableOf(lengths), lengths)
  {
    hide Slot;
    forall k: nat | HasCode(lengths, k)
      ensures Slot(lengths, k) < |lengths| && SymbolsUpTo(lengths, |lengths|)[Slot(lengths, k)] == k
    {
      SymbolsPlaced(lengths, |lengths|, k);
    }
  }

  lemma NoSymbols(lengths: seq<nat>)
    requires Lengths(lengths)
    ensures SymbolsUpTo(lengths, 0) == seq(|lengths|, _ => 0)
  {
  }

  lemma SymbolsStep(lengths: seq<nat>, i: nat)
    requires Lengths(lengths) && i < |lengths|
    ensures lengths[i] == 0 ==> SymbolsUpTo(lengths, i + 1) == SymbolsUpTo(lengths, i)
    ensures lengths[i] != 0 ==>
              Slot(lengths, i) < |lengths|
              && SymbolsUpTo(lengths, i + 1) == SymbolsUpTo(lengths, i)[Slot(lengths, i) := i]
  {
    if lengths[i] != 0 { SlotInRange(lengths, i); }
  }

  /** Fills the symbols, each in the next free slot of its length. */
  method PlaceSymbols(lengths: seq<nat>, counts: seq<nat>) returns (symbols: seq<nat>)
    requires Lengths(lengths) && counts == CountsOf(lengths)
    ensures symbols == SymbolsUpTo(lengths, |lengths|)
  {
    hide Lengths, Index, SymbolsUpTo;
    NoSymbols(lengths);
    var offs := Offsets(counts);
    var a := new nat[|lengths|](_ => 0);
    for i := 0 to |lengths|
      invariant fresh(offs) && fresh(a) && offs.Length == 16 && a.Length == |lengths|
      invariant a[..] == SymbolsUpTo(lengths, i)
      invariant forall l :: 1 <= l < 16 ==> offs[l] == Index(counts, l) + CountBelow(lengths, i, l)
    {
      var l := lengths[i];
      assert l < 16 by { LengthAt(lengths, i); }
      SymbolsStep(lengths, i);
      if l != 0 {
        SlotInRange(lengths, i);
        ghost var before := a[..];
        assert offs[l] == Slot(lengths, i);
        a[offs[l]] := i;
        assert a[..] == before[Slot(lengths, i) := i];
        offs[l] := offs[l] + 1;
      }
    }
    symbols := a[..];
  }

  lemma LengthAt(lengths: seq<nat>, i: nat)
    requires Lengths(lengths) && i < |lengths|
    ensures lengths[i] < 16
  {
  }

  /** The builder: refuses over-subscribed lengths, otherwise gives their decoding table. */
  method Build(lengths: seq<nat>) returns (r: Result<Table, InflateError>)
    requires Lengths(lengths)
    ensures r == if Kraft(CountsOf(lengths)) then Ok(TableOf(lengths)) else Err(OverSubscribed)
    ensures r.Ok? ==> TableFor(r.value, lengths)
  {
    hide Kraft, Index, CountBelow, SymbolsUpTo, TableFor;
    var counts := CountLengths(lengths);
    var ok := CheckKraft(counts[..]);
    if !ok { return Err(OverSubscribed); }
    var symbols := PlaceSymbols(lengths, counts[..]);
    TableOfIsFor(lengths);
    return Ok(Table(counts[..], symbols));
  }
}
