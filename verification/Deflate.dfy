/** The inflater computes what RFC 1951 says a stream encodes: it succeeds exactly on encodings,
    with the bytes their tokens stand for. */
module Deflate {
  import opened Bytes
  import opened Huffman
  import opened Inflate
  import opened DeflateFormat

  // ---------------------------------------------------------------- bits

  /** The bits the inflater reads are those of the stream. */
  lemma StreamIsBits(d: seq<Byte>)
    ensures Stream(d) == BitsOf(d)
  {
    forall p | 0 <= p < 8 * |d| ensures Stream(d)[p] == BitsOf(d)[p] { ShrDivides(d[p / 8], p % 8); }
  }

  /** A field is its lowest bit and the field of the others. */
  lemma FieldTail(s: seq<Bit>, p: nat, n: nat, v: nat)
    requires n > 0 && FieldAt(s, p, n, v)
    ensures s[p] == v % 2 && FieldAt(s, p + 1, n - 1, v / 2)
  {
    hide Pow2;
    PowStep(n - 1);
    assert s[p + 0] == v / Pow2(0) % 2;
    forall k | 0 <= k < n - 1 ensures s[p + 1 + k] == v / 2 / Pow2(k) % 2 {
      QuotientStep(v, k);
      assert s[p + (k + 1)] == v / Pow2(k + 1) % 2;
    }
  }

  lemma FieldCons(s: seq<Bit>, p: nat, n: nat, v: nat)
    requires n > 0 && p + n <= |s| && s[p] == v % 2 && FieldAt(s, p + 1, n - 1, v / 2)
    ensures FieldAt(s, p, n, v)
  {
    hide Pow2;
    PowStep(n - 1);
    forall k | 0 <= k < n ensures s[p + k] == v / Pow2(k) % 2 {
      if k > 0 {
        QuotientStep(v, k - 1);
        assert s[p + 1 + (k - 1)] == v / 2 / Pow2(k - 1) % 2;
      }
    }
  }

  lemma {:induction false} FieldOfLsb(s: seq<Bit>, p: nat, n: nat)
    requires p + n <= |s|
    ensures FieldAt(s, p, n, Lsb(s, p, n))
    decreases n
  {
    if n > 0 {
      hide FieldAt;
      FieldOfLsb(s, p + 1, n - 1);
      FieldCons(s, p, n, Lsb(s, p, n));
    }
  }

  /** A field holds one number only. */
  lemma {:induction false} FieldIsLsb(s: seq<Bit>, p: nat, n: nat, v: nat)
    requires FieldAt(s, p, n, v)
    ensures Lsb(s, p, n) == v
    decreases n
  {
    if n > 0 {
      FieldTail(s, p, n, v);
      FieldIsLsb(s, p + 1, n - 1, v / 2);
    }
  }

  // ---------------------------------------------------------------- the tables

  /** The lengths of a code end where those of the next begin. */
  lemma LengthsMeet(li: nat)
    requires li < 27
    ensures LenBase(li + 1) == LenBase(li) + Pow2(LenExtra(li))
  {
    hide Pow2;
    SmallPowers();
  }

  lemma DistancesMeet(di: nat)
    requires di < 29
    ensures DistBase(di + 1) == DistBase(di) + Pow2(DistExtra(di))
  {
    hide Pow2, DistanceExtra;
    SmallPowers();
  }

  lemma LengthExtras(li: nat)
    requires li < 29
    ensures LenExtra(li) == LengthExtra(li)
  {
  }

  lemma DistanceExtras(di: nat)
    requires di < 30
    ensures DistExtra(di) == DistanceExtra(di)
  {
  }

  lemma TableEnds()
    ensures LenBase(0) == 3 && LenBase(28) == 258 && DistBase(0) == 1
  {
  }

  /** The inflater's tables are those of section 3.2.5. */
  lemma {:induction false} LengthTables(li: nat)
    requires li < 29
    ensures LenBase(li) == LengthBase(li) && LenExtra(li) == LengthExtra(li)
  {
    hide LenBase, LenExtra, LengthExtra, Pow2;
    LengthExtras(li);
    TableEnds();
    if 0 < li < 28 {
      LengthsMeet(li - 1);
      LengthTables(li - 1);
    }
  }

  lemma {:induction false} DistanceTables(di: nat)
    requires di < 30
    ensures DistBase(di) == DistanceBase(di) && DistExtra(di) == DistanceExtra(di)
  {
    hide DistBase, DistExtra, DistanceExtra, Pow2;
    DistanceExtras(di);
    TableEnds();
    if di > 0 {
      DistancesMeet(di - 1);
      DistanceTables(di - 1);
    }
  }

  lemma {:induction false} LengthNamed(li: nat, len: nat) returns (code: nat, lx: nat)
    requires li < 28 && 3 <= len < LengthBase(li) + Pow2(LengthExtra(li))
    ensures code < 28 && lx < Pow2(LengthExtra(code)) && LengthBase(code) + lx == len
  {
    if len >= LengthBase(li) {
      code, lx := li, len - LengthBase(li);
    } else {
      code, lx := LengthNamed(li - 1, len);
    }
  }

  lemma {:induction false} DistanceNamed(di: nat, dist: nat) returns (code: nat, dx: nat)
    requires di < 30 && 1 <= dist < DistanceBase(di) + Pow2(DistanceExtra(di))
    ensures code < 30 && dx < Pow2(DistanceExtra(code)) && DistanceBase(code) + dx == dist
  {
    if dist >= DistanceBase(di) {
      code, dx := di, dist - DistanceBase(di);
    } else {
      code, dx := DistanceNamed(di - 1, dist);
    }
  }

  /** Every length from 3 to 258 and every distance from 1 to 32768 has a token. */
  lemma EveryMatchNamed(len: nat, dist: nat) returns (t: Token)
    requires 3 <= len <= 258 && 1 <= dist <= 32768
    ensures t.Match? && TokenOk(t) && Meaning(t) == Back(len, dist)
    ensures t.lx < Pow2(LengthExtra(t.li)) && t.dx < Pow2(DistanceExtra(t.di))
  {
    hide LengthBase, DistanceBase, Pow2;
    LastTables();
    var li, lx := LengthNamed(27, len);
    var di, dx := DistanceNamed(29, dist);
    t := Match(li, lx, di, dx);
  }

  lemma LastTables()
    ensures LengthBase(27) + Pow2(LengthExtra(27)) == 259 && DistanceBase(29) + Pow2(DistanceExtra(29)) == 32769
  {
    hide LengthBase, DistanceBase, Pow2;
    LengthTables(27);
    DistanceTables(29);
    SmallPowers();
  }

  lemma {:induction false} LengthRange(li: nat)
    requires li < 28
    ensures 3 <= LengthBase(li) && LengthBase(li) + Pow2(LengthExtra(li)) <= 259
    decreases 28 - li
  {
    hide LengthBase, Pow2;
    if li < 27 {
      LengthRange(li + 1);
      LengthGrows(li);
    } else {
      LastTables();
      LengthTables(27);
    }
  }

  lemma LengthGrows(li: nat)
    requires li < 27
    ensures LengthBase(li + 1) == LengthBase(li) + Pow2(LengthExtra(li)) && 3 <= LengthBase(li)
  {
  }

  lemma {:induction false} DistanceRange(di: nat)
    requires di < 30
    ensures DistanceBase(di) + Pow2(DistanceExtra(di)) <= 32769
    decreases 30 - di
  {
    hide DistanceExtra;
    if di < 29 { DistanceRange(di + 1); } else { LastTables(); }
  }

  /** A token in a stream names only such lengths and distances. */
  lemma MatchInRange(ll: seq<nat>, dl: seq<nat>, s: seq<Bit>, p: nat, t: Token)
    requires t.Match? && TokenAt(ll, dl, s, p, t)
    ensures var i := Meaning(t); 3 <= i.len <= 258 && 1 <= i.dist <= 32768
  {
    hide LengthBase, DistanceBase, Pow2, SymAt;
    if t.li < 28 {
      LengthRange(t.li);
    } else {
      LengthTables(28);
      SmallPowers();
    }
    DistanceRange(t.di);
  }

  lemma OrderIsSent(k: nat)
    requires k < 19
    ensures Order(k) == Sent(k)
  {
  }

  lemma FixedTables()
    ensures FixedLiterals() == FixedLiteralLengths() && FixedDistances() == FixedDistanceLengths()
  {
  }

  // ---------------------------------------------------------------- LZ77 expansion

  /** The output after one item; none when a distance reaches before the start. */
  function Expand(out: seq<nat>, i: Item): Option<seq<nat>> {
    match i
    case Raw(b) => Some(out + [b])
    case Back(len, dist) => if dist == 0 || dist > |out| then None else Some(CopyBack(out, dist, len))
  }

  function ExpandAll(out: seq<nat>, items: seq<Item>): Option<seq<nat>>
    decreases |items|
  {
    if items == [] then Some(out)
    else
      var o := Expand(out, items[0]);
      if o.None? then None else ExpandAll(o.value, items[1..])
  }

  /** A back-reference extends the output so that every new byte equals the byte `dist` before it,
      the copied bytes themselves included. */
  ghost predicate Copies(out: seq<nat>, dist: nat, len: nat, out': seq<nat>) {
    |out'| == |out| + len && out <= out' && 0 < dist <= |out|
    && forall k :: |out| <= k < |out'| ==> out'[k] == out'[k - dist]
  }

  lemma {:induction false} CopyBackCopies(out: seq<nat>, dist: nat, len: nat)
    requires 0 < dist <= |out|
    ensures Copies(out, dist, len, CopyBack(out, dist, len))
    decreases len
  {
    if len > 0 { CopyBackCopies(out + [out[|out| - dist]], dist, len - 1); }
  }

  /** That condition determines the copy. */
  lemma {:induction false} CopiesUnique(out: seq<nat>, dist: nat, len: nat, a: seq<nat>, b: seq<nat>, k: nat)
    requires Copies(out, dist, len, a) && Copies(out, dist, len, b) && k <= |a|
    ensures a[..k] == b[..k]
  {
    if k > 0 {
      CopiesUnique(out, dist, len, a, b, k - 1);
      assert a[k - 1] == b[k - 1] by {
        if k - 1 < |out| {
          assert a[k - 1] == out[k - 1] && b[k - 1] == out[k - 1];
        } else {
          assert a[k - 1] == a[..k - 1][k - 1 - dist] && b[k - 1] == b[..k - 1][k - 1 - dist];
        }
      }
    }
  }

  // ---------------------------------------------------------------- tokens

  lemma TakeField(s: seq<Bit>, p: nat, n: nat, v: nat)
    requires FieldAt(s, p, n, v)
    ensures Take(s, p, n) == Ok((v, p + n))
  {
    hide Lsb;
    FieldIsLsb(s, p, n, v);
  }

  /** Decoding the code that stands at a position. */
  lemma DecodeSymAt(lengths: seq<nat>, s: seq<Bit>, p: nat, sym: nat)
    requires Lengths(lengths) && Kraft(CountsOf(lengths)) && SymAt(lengths, s, p, sym)
    ensures Decode(TableOf(lengths), s, p) == Ok((sym, p + LengthOf(lengths, sym)))
  {
    hide Decode, TableFor, BitsAt, SymbolBits, Kraft;
    TableOfIsFor(lengths);
    DecodeInvertsCode(TableOf(lengths), lengths, s, p, sym);
  }

  lemma DistanceRuns(dl: seq<nat>, s: seq<Bit>, p: nat, di: nat, dx: nat, len: nat, out: seq<nat>)
    requires Lengths(dl) && Kraft(CountsOf(dl)) && di < 30 && DistanceBase(di) + dx <= |out|
    requires SymAt(dl, s, p, di) && FieldAt(s, p + LengthOf(dl, di), DistanceExtra(di), dx)
    ensures InflateDistance(TableOf(dl), s, p, len, out)
            == Ok((CopyBack(out, DistanceBase(di) + dx, len), p + LengthOf(dl, di) + DistanceExtra(di)))
  {
    hide Decode, CopyBack, SymAt, FieldAt, LengthOf, Kraft, CountsOf, TableOf, Lengths, Take, DistBase, DistExtra,
         DistanceBase, DistanceExtra;
    DistanceTables(di);
    DecodeSymAt(dl, s, p, di);
    TakeField(s, p + LengthOf(dl, di), DistExtra(di), dx);
  }

  lemma MatchRuns(ll: seq<nat>, dl: seq<nat>, s: seq<Bit>, p: nat, t: Token, out: seq<nat>)
    requires Lengths(dl) && Kraft(CountsOf(dl)) && t.Match? && TokenAt(ll, dl, s, p, t)
    requires Expand(out, Meaning(t)).Some?
    ensures InflateMatch(TableOf(dl), s, p + LengthOf(ll, 257 + t.li), t.li, out)
            == Ok((Expand(out, Meaning(t)).value, TokenEnd(ll, dl, p, t)))
  {
    hide InflateDistance, CopyBack, SymAt, FieldAt, LengthOf, Kraft, CountsOf, TableOf, Lengths, Take,
         LenBase, LenExtra, LengthBase, LengthExtra, DistanceBase, DistanceExtra;
    var p1 := p + LengthOf(ll, 257 + t.li);
    LengthTables(t.li);
    TakeField(s, p1, LenExtra(t.li), t.lx);
    DistanceRuns(dl, s, p1 + LenExtra(t.li), t.di, t.dx, LenBase(t.li) + t.lx, out);
  }

  /** One token read by the symbol loop. */
  lemma TokenRuns(ll: seq<nat>, dl: seq<nat>, s: seq<Bit>, p: nat, t: Token, out: seq<nat>)
    requires Usable(ll, dl) && TokenAt(ll, dl, s, p, t) && Expand(out, Meaning(t)).Some?
    ensures InflateSymbols(TableOf(ll), TableOf(dl), s, p, out)
            == InflateSymbols(TableOf(ll), TableOf(dl), s, TokenEnd(ll, dl, p, t), Expand(out, Meaning(t)).value)
  {
    hide Decode, CopyBack, SymAt, FieldAt, LengthOf, Kraft, CountsOf, TableOf, Lengths, Take, InflateMatch;
    match t
    case Literal(b) => DecodeSymAt(ll, s, p, b);
    case Match(li, _, _, _) =>
      DecodeSymAt(ll, s, p, 257 + li);
      MatchRuns(ll, dl, s, p, t, out);
  }

  lemma ItemsStep(ts: seq<Token>)
    requires ts != []
    ensures ItemsOf(ts) == [Meaning(ts[0])] + ItemsOf(ts[1..])
  {
  }

  lemma {:induction false} TokensRun(ll: seq<nat>, dl: seq<nat>, s: seq<Bit>, p: nat, ts: seq<Token>, out: seq<nat>)
    requires Usable(ll, dl) && TokensOk(ts) && TokensAt(ll, dl, s, p, ts)
    requires ExpandAll(out, ItemsOf(ts)).Some?
    ensures InflateSymbols(TableOf(ll), TableOf(dl), s, p, out)
            == Ok((ExpandAll(out, ItemsOf(ts)).value, TokensEnd(ll, dl, p, ts)))
    decreases |ts|
  {
    hide Decode, Expand, SymAt, LengthOf, Kraft, CountsOf, TableOf, Lengths, TokenAt, TokenEnd, InflateMatch;
    if ts == [] {
      DecodeSymAt(ll, s, p, 256);
    } else {
      ItemsStep(ts);
      TokenRuns(ll, dl, s, p, ts[0], out);
      TokensRun(ll, dl, s, TokenEnd(ll, dl, p, ts[0]), ts[1..], Expand(out, Meaning(ts[0])).value);
    }
  }

  /** What a decoded symbol says about the stream. */
  lemma SymFound(lengths: seq<nat>, s: seq<Bit>, p: nat)
    requires Lengths(lengths) && Decode(TableOf(lengths), s, p).Ok?
    ensures var v := Decode(TableOf(lengths), s, p).value;
            SymAt(lengths, s, p, v.0) && v.1 == p + LengthOf(lengths, v.0)
  {
    hide Decode, TableFor, BitsAt, SymbolBits;
    TableOfIsFor(lengths);
    var sym := DecodeFindsCode(TableOf(lengths), lengths, s, p);
  }

  lemma FieldFound(s: seq<Bit>, p: nat, n: nat)
    requires Take(s, p, n).Ok?
    ensures FieldAt(s, p, n, Take(s, p, n).value.0) && Take(s, p, n).value.1 == p + n
  {
    hide Lsb;
    FieldOfLsb(s, p, n);
  }

  lemma DistanceFound(dl: seq<nat>, s: seq<Bit>, p: nat, len: nat, out: seq<nat>) returns (di: nat, dx: nat)
    requires Lengths(dl) && InflateDistance(TableOf(dl), s, p, len, out).Ok?
    ensures di < 30 && SymAt(dl, s, p, di) && FieldAt(s, p + LengthOf(dl, di), DistanceExtra(di), dx)
    ensures DistanceBase(di) + dx <= |out|
    ensures InflateDistance(TableOf(dl), s, p, len, out).value
            == (CopyBack(out, DistanceBase(di) + dx, len), p + LengthOf(dl, di) + DistanceExtra(di))
  {
    hide Decode, CopyBack, SymAt, FieldAt, LengthOf, TableOf, Lengths, Take, DistBase, DistExtra,
         DistanceBase, DistanceExtra;
    SymFound(dl, s, p);
    var ds := Decode(TableOf(dl), s, p).value;
    DistanceTables(ds.0);
    FieldFound(s, ds.1, DistExtra(ds.0));
    di, dx := ds.0, Take(s, ds.1, DistExtra(ds.0)).value.0;
  }

  lemma MatchFound(ll: seq<nat>, dl: seq<nat>, s: seq<Bit>, p: nat, li: nat, out: seq<nat>) returns (t: Token)
    requires Lengths(dl) && li < 29 && SymAt(ll, s, p, 257 + li)
    requires InflateMatch(TableOf(dl), s, p + LengthOf(ll, 257 + li), li, out).Ok?
    ensures TokenAt(ll, dl, s, p, t)
    ensures var r := InflateMatch(TableOf(dl), s, p + LengthOf(ll, 257 + li), li, out).value;
            Expand(out, Meaning(t)) == Some(r.0) && TokenEnd(ll, dl, p, t) == r.1
  {
    hide InflateDistance, CopyBack, SymAt, FieldAt, LengthOf, TableOf, Lengths, Take,
         LenBase, LenExtra, LengthBase, LengthExtra, DistanceBase, DistanceExtra;
    var p1 := p + LengthOf(ll, 257 + li);
    LengthTables(li);
    FieldFound(s, p1, LenExtra(li));
    var lx := Take(s, p1, LenExtra(li)).value.0;
    var di, dx := DistanceFound(dl, s, p1 + LenExtra(li), LenBase(li) + lx, out);
    t := Match(li, lx, di, dx);
  }

  /** Whatever the symbol loop accepts is a run of tokens and an end-of-block symbol. */
  lemma {:induction false} TokensFound(ll: seq<nat>, dl: seq<nat>, s: seq<Bit>, p: nat, out: seq<nat>)
    returns (ts: seq<Token>)
    requires Lengths(ll) && Lengths(dl) && InflateSymbols(TableOf(ll), TableOf(dl), s, p, out).Ok?
    ensures TokensOk(ts) && TokensAt(ll, dl, s, p, ts)
    ensures InflateSymbols(TableOf(ll), TableOf(dl), s, p, out).value.1 == TokensEnd(ll, dl, p, ts)
    ensures ExpandAll(out, ItemsOf(ts)) == Some(InflateSymbols(TableOf(ll), TableOf(dl), s, p, out).value.0)
    decreases |s| - p
  {
    hide Decode, CopyBack, SymAt, LengthOf, TableOf, Lengths, InflateMatch;
    SymFound(ll, s, p);
    var sym := Decode(TableOf(ll), s, p).value;
    if sym.0 == 256 {
      ts := [];
    } else {
      var t: Token;
      if sym.0 < 256 {
        t := Literal(sym.0);
      } else {
        t := MatchFound(ll, dl, s, p, sym.0 - 257, out);
      }
      assert InflateSymbols(TableOf(ll), TableOf(dl), s, p, out)
          == InflateSymbols(TableOf(ll), TableOf(dl), s, TokenEnd(ll, dl, p, t), Expand(out, Meaning(t)).value);
      var rest := TokensFound(ll, dl, s, TokenEnd(ll, dl, p, t), Expand(out, Meaning(t)).value);
      TokensCons(ll, dl, s, p, t, rest, out);
      ts := [t] + rest;
    }
  }

  lemma TokensCons(ll: seq<nat>, dl: seq<nat>, s: seq<Bit>, p: nat, t: Token, rest: seq<Token>, out: seq<nat>)
    requires TokenAt(ll, dl, s, p, t) && TokensOk(rest) && TokensAt(ll, dl, s, TokenEnd(ll, dl, p, t), rest)
    requires Expand(out, Meaning(t)).Some?
    ensures TokensOk([t] + rest) && TokensAt(ll, dl, s, p, [t] + rest)
    ensures TokensEnd(ll, dl, p, [t] + rest) == TokensEnd(ll, dl, TokenEnd(ll, dl, p, t), rest)
    ensures ExpandAll(out, ItemsOf([t] + rest)) == ExpandAll(Expand(out, Meaning(t)).value, ItemsOf(rest))
  {
    hide TokenAt, TokenEnd, Expand, SymAt;
    assert TokenOk(t) by { TokenIsOk(ll, dl, s, p, t); }
    assert ([t] + rest)[1..] == rest;
    ItemsStep([t] + rest);
  }

  lemma TokenIsOk(ll: seq<nat>, dl: seq<nat>, s: seq<Bit>, p: nat, t: Token)
    requires TokenAt(ll, dl, s, p, t)
    ensures TokenOk(t)
  {
  }

  // ---------------------------------------------------------------- the fixed tables

  lemma {:induction false} FixedCount(k: nat, l: nat)
    requires k <= 288
    ensures CountBelow(FixedLiterals(), k, l)
            == if l == 8 then (if k <= 144 then k else if k <= 280 then 144 else k - 136)
               else if l == 9 then (if k <= 144 then 0 else if k <= 256 then k - 144 else 112)
               else if l == 7 then (if k <= 256 then 0 else if k <= 280 then k - 256 else 24)
               else 0
  {
    if k > 0 { FixedCount(k - 1, l); }
  }

  lemma {:induction false} SameCount(v: nat, n: nat, k: nat, l: nat)
    requires k <= n
    ensures CountBelow(Repeat(v, n), k, l) == if l == v then k else 0
  {
    if k > 0 { SameCount(v, n, k - 1, l); }
  }

  /** First codes beyond the longest used length keep doubling. */
  lemma {:induction false} FirstTail(c: Counts, from: nat, l: nat)
    requires 1 <= from <= l < |c| && First(c, from) + c[from] <= Pow2(from)
    requires forall k :: from < k <= l ==> c[k] == 0
    ensures First(c, l) + c[l] <= Pow2(l)
    decreases l
  {
    if l > from { FirstTail(c, from, l - 1); }
  }

  lemma {:induction false} FirstHead(c: Counts, l: nat)
    requires 1 <= l < |c| && forall k :: 1 <= k < l ==> c[k] == 0
    ensures First(c, l) == 0
    decreases l
  {
    if l > 1 { FirstHead(c, l - 1); }
  }

  /** How many fixed literal codes have each length. */
  function FixedCountOf(l: nat): nat { if l == 7 then 24 else if l == 8 then 152 else if l == 9 then 112 else 0 }

  lemma FixedKraft()
    ensures Kraft(CountsOf(FixedLiterals())) && Kraft(CountsOf(FixedDistances()))
  {
    hide CountBelow, First, Pow2;
    var c, d := CountsOf(FixedLiterals()), CountsOf(FixedDistances());
    assert forall l :: 0 <= l < 16 ==> c[l] == FixedCountOf(l) by {
      forall l | 0 < l < 16 ensures c[l] == CountBelow(FixedLiterals(), 288, l) { FixedCount(288, l); }
      forall l: nat { FixedCount(288, l); }
    }
    assert forall l :: 0 <= l < 16 ==> d[l] == (if l == 5 then 30 else 0) by {
      forall l: nat { SameCount(5, 30, 30, l); }
    }
    FixedFirst(c);
    DistanceFirst(d);
    forall l | 1 <= l < 16 ensures First(c, l) + c[l] <= Pow2(l) && First(d, l) + d[l] <= Pow2(l) {
      if l < 9 { SmallFixed(c, l); } else { FirstTail(c, 9, l); }
      if l < 5 { FirstHead(d, l); } else { FirstTail(d, 5, l); }
    }
  }

  predicate FixedShape(c: Counts) {
    |c| == 16 && forall l :: 0 <= l < 16 ==> c[l] == FixedCountOf(l)
  }

  lemma SmallFixed(c: Counts, l: nat)
    requires FixedShape(c) && 1 <= l <= 9
    ensures First(c, l) + c[l] <= Pow2(l)
  {
    if l <= 7 { FirstHead(c, l); }
    if l >= 7 {
      FirstHead(c, 7);
      assert First(c, 8) == 48 && First(c, 9) == 400;
      assert Pow2(7) == 128 && Pow2(8) == 256 && Pow2(9) == 512 by { assert Pow2(4) == 16; }
    }
  }

  lemma FixedFirst(c: Counts)
    requires FixedShape(c)
    ensures First(c, 9) + c[9] <= Pow2(9)
  {
    SmallFixed(c, 9);
  }

  lemma DistanceFirst(d: Counts)
    requires |d| == 16 && forall l :: 0 <= l < 16 ==> d[l] == (if l == 5 then 30 else 0)
    ensures First(d, 5) + d[5] <= Pow2(5)
  {
    FirstHead(d, 5);
    assert Pow2(5) == 32;
  }

  /** The fixed codes: 8 bits from 00110000, 9 bits from 110010000, 7 bits from 0000000 and 8 bits
      from 11000000. */
  lemma FixedCodes(sym: nat)
    requires sym < 288
    ensures Code(FixedLiteralLengths(), sym) == if sym < 144 then 0x30 + sym
                                                else if sym < 256 then 0x190 + (sym - 144)
                                                else if sym < 280 then sym - 256
                                                else 0xC0 + (sym - 280)
  {
    hide CountBelow, First;
    FixedTables();
    var c := CountsOf(FixedLiterals());
    forall l | 0 < l < 16 ensures c[l] == FixedCountOf(l) { FixedCount(288, l); }
    FixedStarts(c);
    FixedCount(sym, FixedLength(sym));
  }

  lemma FixedStarts(c: Counts)
    requires FixedShape(c)
    ensures First(c, 7) == 0 && First(c, 8) == 48 && First(c, 9) == 400
  {
    FirstHead(c, 7);
  }

  lemma FixedUsable()
    ensures Usable(FixedLiterals(), FixedDistances())
  {
    FixedKraft();
  }

  // ---------------------------------------------------------------- code-length runs

  lemma RunTaken(cl: seq<nat>, s: seq<Bit>, p: nat, r: Run, acc: seq<nat>)
    requires Lengths(cl) && Lengths(acc) && RunAt(cl, s, p, r) && RunLengths(acc, r).Some?
    ensures RunOf(s, p + LengthOf(cl, RunSym(r)), RunSym(r), acc)
            == Ok((RunLengths(acc, r).value, RunStop(cl, p, r)))
    ensures Lengths(acc + RunLengths(acc, r).value)
  {
    hide SymAt, LengthOf, Take;
    if !r.One? { TakeField(s, p + LengthOf(cl, RunSym(r)), RunWidth(r), r.n); }
  }

  lemma {:induction false} RunsTaken(cl: seq<nat>, s: seq<Bit>, p: nat, rs: seq<Run>, acc: seq<nat>, total: nat)
    requires Lengths(cl) && Kraft(CountsOf(cl)) && RunsAt(cl, s, p, rs) && Lengths(acc) && |acc| <= total
    requires ExpandRuns(acc, rs).Some? && |ExpandRuns(acc, rs).value| == total
    ensures ReadLengths(TableOf(cl), s, p, total, acc) == Ok((ExpandRuns(acc, rs).value, RunsStop(cl, p, rs)))
    decreases |rs|
  {
    hide Decode, SymAt, LengthOf, Kraft, CountsOf, TableOf, Lengths, RunOf, RunLengths, RunStop;
    if rs != [] {
      DecodeSymAt(cl, s, p, RunSym(rs[0]));
      RunTaken(cl, s, p, rs[0], acc);
      RunsTaken(cl, s, RunStop(cl, p, rs[0]), rs[1..], acc + RunLengths(acc, rs[0]).value, total);
    }
  }

  lemma RunFound(cl: seq<nat>, s: seq<Bit>, p: nat, sym: nat, acc: seq<nat>) returns (r: Run)
    requires Lengths(acc) && SymAt(cl, s, p, sym) && RunOf(s, p + LengthOf(cl, sym), sym, acc).Ok?
    ensures RunAt(cl, s, p, r) && RunSym(r) == sym
    ensures RunOf(s, p + LengthOf(cl, sym), sym, acc).value.1 == RunStop(cl, p, r)
    ensures RunLengths(acc, r) == Some(RunOf(s, p + LengthOf(cl, sym), sym, acc).value.0)
    ensures Lengths(acc + RunLengths(acc, r).value)
  {
    hide SymAt, LengthOf, Lsb, FieldAt;
    var q := p + LengthOf(cl, sym);
    if sym <= 15 {
      r := One(sym);
    } else if sym == 16 {
      FieldOfLsb(s, q, 2);
      r := Previous(Lsb(s, q, 2));
    } else if sym == 17 {
      FieldOfLsb(s, q, 3);
      r := Zeros3(Lsb(s, q, 3));
    } else {
      FieldOfLsb(s, q, 7);
      r := Zeros7(Lsb(s, q, 7));
    }
  }

  lemma {:induction false} RunsFound(cl: seq<nat>, s: seq<Bit>, p: nat, acc: seq<nat>, total: nat)
    returns (rs: seq<Run>)
    requires Lengths(cl) && Lengths(acc) && |acc| <= total && ReadLengths(TableOf(cl), s, p, total, acc).Ok?
    ensures RunsAt(cl, s, p, rs) && RunsStop(cl, p, rs) == ReadLengths(TableOf(cl), s, p, total, acc).value.1
    ensures ExpandRuns(acc, rs) == Some(ReadLengths(TableOf(cl), s, p, total, acc).value.0)
    decreases total - |acc|
  {
    hide Decode, SymAt, LengthOf, TableOf, Lengths, RunOf, RunLengths, RunAt, RunStop;
    if |acc| == total {
      rs := [];
    } else {
      SymFound(cl, s, p);
      var sym := Decode(TableOf(cl), s, p).value;
      var r := RunFound(cl, s, p, sym.0, acc);
      var rest := RunsFound(cl, s, RunStop(cl, p, r), acc + RunLengths(acc, r).value, total);
      rs := [r] + rest;
      assert rs[1..] == rest;
    }
  }

  // ---------------------------------------------------------------- code-length code lengths

  lemma {:induction false} OrderedLengths(s: seq<Bit>, p: nat, order: seq<nat>, n: nat)
    requires n <= |order| <= 19 && OrderAt(s, p, order)
    ensures Lengths(Ordered(order, n))
  {
    if n > 0 {
      OrderedLengths(s, p, order, n - 1);
      assert order[n - 1] < Pow2(3) == 8;
    }
  }

  lemma EntryTaken(s: seq<Bit>, p: nat, order: seq<nat>, k: nat)
    requires k < |order| && OrderAt(s, p, order)
    ensures Take(s, p + 3 * k, 3) == Ok((order[k], p + 3 * (k + 1)))
  {
    hide Lsb, Take;
    TakeField(s, p + 3 * k, 3, order[k]);
  }

  lemma {:induction false} OrderTaken(s: seq<Bit>, p: nat, order: seq<nat>, k: nat)
    requires k <= |order| <= 19 && OrderAt(s, p, order) && Lengths(Ordered(order, k))
    ensures ReadOrdered(s, p + 3 * k, |order|, Ordered(order, k), k)
            == Ok((Ordered(order, |order|), p + 3 * |order|))
    decreases |order| - k
  {
    hide Lsb, Lengths, Take, OrderAt, Order, Sent;
    if k < |order| {
      OrderIsSent(k);
      OrderedLengths(s, p, order, k + 1);
      EntryTaken(s, p, order, k);
      OrderTaken(s, p, order, k + 1);
    }
  }

  lemma {:induction false} OrderComplete(s: seq<Bit>, p: nat, n: nat, cl: seq<nat>, k: nat)
    requires |cl| == 19 && k <= n <= 19 && Lengths(cl) && ReadOrdered(s, p, n, cl, k).Ok?
    ensures p + 3 * (n - k) <= |s| || k == n
    decreases n - k
  {
    hide Lengths, Lsb;
    if k < n {
      SmallEntry(s, p, cl, Order(k));
      OrderComplete(s, p + 3, n, cl[Order(k) := Lsb(s, p, 3)], k + 1);
    }
  }

  function Fields(s: seq<Bit>, p: nat, n: nat): seq<nat>
    requires p + 3 * n <= |s|
  {
    seq(n, k requires 0 <= k < n => Lsb(s, p + 3 * k, 3))
  }

  lemma FieldsAreOrdered(s: seq<Bit>, p: nat, n: nat)
    requires p + 3 * n <= |s|
    ensures |Fields(s, p, n)| == n && OrderAt(s, p, Fields(s, p, n))
  {
    hide Lsb, FieldAt;
    forall k | 0 <= k < n ensures FieldAt(s, p + 3 * k, 3, Fields(s, p, n)[k]) { FieldOfLsb(s, p + 3 * k, 3); }
  }

  lemma OrderStart(order: seq<nat>)
    requires |order| <= 19
    ensures Ordered(order, 0) == Repeat(0, 19) && Lengths(Ordered(order, 0))
  {
  }

  // ---------------------------------------------------------------- dynamic blocks

  /** The three counts at the head of a dynamic block. */
  lemma HeaderFields(s: seq<Bit>, p: nat, b: Block)
    requires b.Dynamic? && DynamicAt(s, p, b)
    ensures p + 14 <= |s| && Lsb(s, p, 5) + 257 == b.hlit && Lsb(s, p + 5, 5) + 1 == b.hdist
    ensures Lsb(s, p + 10, 4) + 4 == |b.order|
  {
    hide Lsb, Kraft, CountsOf, RunsAt, TokensAt, ExpandRuns, OrderAt, Ordered, Lengths, Usable;
    FieldIsLsb(s, p, 5, b.hlit - 257);
    FieldIsLsb(s, p + 5, 5, b.hdist - 1);
    FieldIsLsb(s, p + 10, 4, |b.order| - 4);
  }

  lemma HeaderFound(s: seq<Bit>, p: nat)
    requires p + 14 <= |s|
    ensures FieldAt(s, p, 5, Lsb(s, p, 5)) && FieldAt(s, p + 5, 5, Lsb(s, p + 5, 5))
    ensures FieldAt(s, p + 10, 4, Lsb(s, p + 10, 4)) && Lsb(s, p + 10, 4) < 16
  {
    hide Lsb, FieldAt;
    FieldOfLsb(s, p, 5);
    FieldOfLsb(s, p + 5, 5);
    FieldOfLsb(s, p + 10, 4);
    SmallTake(s, p + 10);
  }

  lemma DynamicRuns(s: seq<Bit>, p: nat, b: Block, out: seq<nat>)
    requires b.Dynamic? && DynamicAt(s, p, b) && ExpandAll(out, BlockItems(b)).Some?
    ensures BlockAt(s, p, b)
    ensures InflateDynamic(s, p, out) == Ok((ExpandAll(out, BlockItems(b)).value, BlockEnd(s, p, b)))
  {
    hide Lsb, Kraft, CountsOf, TableOf, RunsAt, TokensAt, ExpandAll, ExpandRuns, OrderAt, Ordered, InflateSymbols,
         TokensEnd, RunsStop, ReadLengths, ReadOrdered, Lengths, Repeat, FieldAt, ItemsOf;
    var cl := Ordered(b.order, |b.order|);
    var q := p + 14 + 3 * |b.order|;
    HeaderFields(s, p, b);
    OrderStart(b.order);
    OrderTaken(s, p + 14, b.order, 0);
    OrderedLengths(s, p + 14, b.order, |b.order|);
    NoLengths();
    RunsTaken(cl, s, q, b.runs, [], b.hlit + b.hdist);
    var all := DynamicLengths(b).value;
    TokensRun(all[..b.hlit], all[b.hlit..], s, RunsStop(cl, q, b.runs), b.tokens, out);
  }

  lemma NoLengths()
    ensures Lengths([])
  {
  }

  lemma DynamicFound(s: seq<Bit>, p: nat, out: seq<nat>) returns (b: Block)
    requires InflateDynamic(s, p, out).Ok?
    ensures b.Dynamic? && DynamicAt(s, p, b) && BlockAt(s, p, b)
    ensures InflateDynamic(s, p, out).value.1 == BlockEnd(s, p, b)
    ensures ExpandAll(out, BlockItems(b)) == Some(InflateDynamic(s, p, out).value.0)
  {
    hide Lsb, Kraft, CountsOf, TableOf, RunsAt, TokensAt, ExpandAll, ExpandRuns, OrderAt, Ordered, InflateSymbols,
         TokensEnd, RunsStop, ReadLengths, ReadOrdered, Lengths, Repeat, Fields, FieldAt, ItemsOf;
    HeaderFound(s, p);
    var hlit, hdist, hclen := Lsb(s, p, 5) + 257, Lsb(s, p + 5, 5) + 1, Lsb(s, p + 10, 4) + 4;
    OrderComplete(s, p + 14, hclen, Repeat(0, 19), 0);
    var order := Fields(s, p + 14, hclen);
    FieldsAreOrdered(s, p + 14, hclen);
    OrderStart(order);
    OrderTaken(s, p + 14, order, 0);
    var cl := Ordered(order, hclen);
    OrderedLengths(s, p + 14, order, hclen);
    NoLengths();
    var q := p + 14 + 3 * hclen;
    var runs := RunsFound(cl, s, q, [], hlit + hdist);
    var all := ExpandRuns([], runs).value;
    SplitLengths(all, hlit);
    var ts := TokensFound(all[..hlit], all[hlit..], s, RunsStop(cl, q, runs), out);
    b := Dynamic(hlit, hdist, order, runs, ts);
  }

  // ---------------------------------------------------------------- stored blocks

  lemma BoundaryIsAlign(p: nat)
    ensures Boundary(p) == Align(p)
  {
  }

  lemma LsbStep(s: seq<Bit>, p: nat, n: nat)
    requires n > 0 && p + n <= |s|
    ensures Lsb(s, p, n) == s[p] + 2 * Lsb(s, p + 1, n - 1)
  {
  }

  lemma TwiceProduct(a: nat, b: nat, x: nat)
    requires b == 2 * a
    ensures b * x == 2 * (a * x)
  {
  }

  /** A field of `n + m` bits is two fields, the low one first. */
  lemma {:induction false} LsbSplit(s: seq<Bit>, p: nat, n: nat, m: nat)
    requires p + n + m <= |s|
    ensures Lsb(s, p, n + m) == Lsb(s, p, n) + Pow2(n) * Lsb(s, p + n, m)
    decreases n
  {
    hide Pow2;
    PowStep(if n > 0 then n - 1 else 0);
    if n > 0 {
      hide Lsb;
      LsbSplit(s, p + 1, n - 1, m);
      LsbStep(s, p, n + m);
      LsbStep(s, p, n);
      TwiceProduct(Pow2(n - 1), Pow2(n), Lsb(s, p + n, m));
    } else {
      assert Lsb(s, p, n) == 0;
    }
  }

  lemma WordIsField(s: seq<Bit>, p: nat)
    requires p + 16 <= |s|
    ensures Word(s, p) == Lsb(s, p, 16)
  {
    hide Lsb;
    LsbSplit(s, p, 8, 8);
    assert Pow2(4) == 16 && Pow2(8) == 256;
  }

  lemma StoredRuns(s: seq<Bit>, p: nat, data: seq<Byte>, out: seq<nat>)
    requires StoredAt(s, Boundary(p), data)
    ensures InflateStored(s, p, out) == Ok((out + data, Boundary(p) + 32 + 8 * |data|))
  {
    hide Lsb, Word, FieldAt;
    var q := Boundary(p);
    BoundaryIsAlign(p);
    WordIsField(s, q);
    WordIsField(s, q + 16);
    FieldIsLsb(s, q, 16, |data|);
    FieldIsLsb(s, q + 16, 16, 65535 - |data|);
    forall k | 0 <= k < |data| ensures BytesAt(s, q + 32, |data|)[k] == data[k] {
      FieldIsLsb(s, q + 32 + 8 * k, 8, data[k]);
    }
    assert BytesAt(s, q + 32, |data|) == data;
  }

  lemma ByteField(s: seq<Bit>, p: nat)
    requires p + 8 <= |s|
    ensures FieldAt(s, p, 8, Lsb(s, p, 8)) && Lsb(s, p, 8) < 256
  {
    FieldOfLsb(s, p, 8);
    assert Pow2(4) == 16 && Pow2(8) == 256;
  }

  lemma WordField(s: seq<Bit>, p: nat)
    requires p + 16 <= |s|
    ensures FieldAt(s, p, 16, Word(s, p))
  {
    hide Lsb, Word, FieldAt;
    WordIsField(s, p);
    FieldOfLsb(s, p, 16);
  }

  lemma StoredFound(s: seq<Bit>, p: nat, out: seq<nat>) returns (data: seq<Byte>)
    requires InflateStored(s, p, out).Ok?
    ensures StoredAt(s, Boundary(p), data)
    ensures InflateStored(s, p, out).value == (out + data, Boundary(p) + 32 + 8 * |data|)
  {
    hide Lsb, Word, FieldAt;
    var q := Boundary(p);
    BoundaryIsAlign(p);
    WordField(s, q);
    WordField(s, q + 16);
    forall k | 0 <= k < Word(s, q)
      ensures FieldAt(s, q + 32 + 8 * k, 8, Lsb(s, q + 32 + 8 * k, 8)) && Lsb(s, q + 32 + 8 * k, 8) < 256
    {
      ByteField(s, q + 32 + 8 * k);
    }
    data := seq(Word(s, q), k requires 0 <= k < Word(s, q) => Lsb(s, q + 32 + 8 * k, 8));
    assert BytesAt(s, q + 32, |data|) == data;
  }

  lemma {:induction false} PlainExpands(out: seq<nat>, data: seq<Byte>)
    ensures ExpandAll(out, Plain(data)) == Some(out + data)
    decreases |data|
  {
    if data != [] {
      assert Plain(data) == [Raw(data[0])] + Plain(data[1..]);
      PlainExpands(out + [data[0]], data[1..]);
      assert (out + [data[0]]) + data[1..] == out + data;
    } else {
      assert out + data == out;
    }
  }

  // ---------------------------------------------------------------- blocks

  lemma BlockRuns(s: seq<Bit>, p: nat, b: Block, out: seq<nat>)
    requires BlockAt(s, p, b) && ExpandAll(out, BlockItems(b)).Some?
    ensures InflateBlock(s, p, BlockType(b), out) == Ok((ExpandAll(out, BlockItems(b)).value, BlockEnd(s, p, b)))
  {
    hide InflateStored, StoredAt, Plain, ItemsOf, Kraft, CountsOf, TableOf, TokensAt, ExpandAll, InflateSymbols,
         TokensEnd, Boundary, FixedLiterals, FixedDistances, FixedLiteralLengths, FixedDistanceLengths, DynamicAt,
         InflateDynamic;
    match b
    case Stored(data) =>
      StoredRuns(s, p, data, out);
      PlainExpands(out, data);
    case Fixed(ts) =>
      FixedUsable();
      FixedTables();
      TokensRun(FixedLiterals(), FixedDistances(), s, p, ts, out);
    case Dynamic(_, _, _, _, _) => DynamicRuns(s, p, b, out);
  }

  lemma BlockFound(s: seq<Bit>, p: nat, btype: nat, out: seq<nat>) returns (b: Block)
    requires InflateBlock(s, p, btype, out).Ok?
    ensures BlockAt(s, p, b) && BlockType(b) == btype
    ensures InflateBlock(s, p, btype, out).value.1 == BlockEnd(s, p, b)
    ensures ExpandAll(out, BlockItems(b)) == Some(InflateBlock(s, p, btype, out).value.0)
  {
    hide InflateStored, StoredAt, Plain, ItemsOf, Kraft, CountsOf, TableOf, TokensAt, ExpandAll, InflateSymbols,
         TokensEnd, Boundary, FixedLiterals, FixedDistances, FixedLiteralLengths, FixedDistanceLengths, DynamicAt,
         InflateDynamic;
    if btype == 0 {
      var data := StoredFound(s, p, out);
      PlainExpands(out, data);
      b := Stored(data);
    } else if btype == 1 {
      FixedTables();
      var ts := TokensFound(FixedLiterals(), FixedDistances(), s, p, out);
      b := Fixed(ts);
    } else {
      b := DynamicFound(s, p, out);
    }
  }

  // ---------------------------------------------------------------- block lists

  lemma {:induction false} AllConcat(out: seq<nat>, a: seq<Item>, b: seq<Item>)
    ensures ExpandAll(out, a + b) == (if ExpandAll(out, a).None? then None else ExpandAll(ExpandAll(out, a).value, b))
    decreases |a|
  {
    hide Expand;
    if a == [] {
      assert a + b == b;
    } else {
      assert (a + b)[0] == a[0] && (a + b)[1..] == a[1..] + b;
      var o := Expand(out, a[0]);
      if o.Some? { AllConcat(o.value, a[1..], b); }
    }
  }

  lemma NoItems(bs: seq<Block>)
    requires |bs| == 1
    ensures Items(bs) == BlockItems(bs[0])
  {
    assert Items(bs[1..]) == [];
  }

  lemma {:induction false} BlocksRun(s: seq<Bit>, p: nat, bs: seq<Block>, out: seq<nat>)
    requires BlocksAt(s, p, bs) && ExpandAll(out, Items(bs)).Some?
    ensures InflateBlocks(s, p, out).Ok? && InflateBlocks(s, p, out).value.0 == ExpandAll(out, Items(bs)).value
    decreases |bs|
  {
    hide Lsb, InflateBlock, BlockAt, ExpandAll, BlockEnd, BlockItems, FieldAt;
    FieldIsLsb(s, p + 1, 2, BlockType(bs[0]));
    AllConcat(out, BlockItems(bs[0]), Items(bs[1..]));
    BlockRuns(s, p + 3, bs[0], out);
    if |bs| > 1 {
      BlocksRun(s, BlockEnd(s, p + 3, bs[0]), bs[1..], ExpandAll(out, BlockItems(bs[0])).value);
    } else {
      NoItems(bs);
    }
  }

  lemma {:induction false} BlocksFound(s: seq<Bit>, p: nat, out: seq<nat>) returns (bs: seq<Block>)
    requires InflateBlocks(s, p, out).Ok?
    ensures BlocksAt(s, p, bs) && ExpandAll(out, Items(bs)) == Some(InflateBlocks(s, p, out).value.0)
    decreases |s| - p
  {
    hide Lsb, InflateBlock, BlockAt, ExpandAll, BlockEnd, BlockItems, FieldAt;
    FieldOfLsb(s, p + 1, 2);
    var b := BlockFound(s, p + 3, Lsb(s, p + 1, 2), out);
    var r := InflateBlock(s, p + 3, Lsb(s, p + 1, 2), out).value;
    if s[p] == 1 {
      bs := [b];
      NoItems(bs);
    } else {
      var rest := BlocksFound(s, r.1, r.0);
      bs := [b] + rest;
      assert bs[1..] == rest;
      AllConcat(out, BlockItems(b), Items(rest));
    }
  }

  // ---------------------------------------------------------------- what the output is

  lemma PrefixKept(out: seq<nat>, i: Item)
    requires Expand(out, i).Some?
    ensures out <= Expand(out, i).value
  {
    if i.Back? { CopyBackCopies(out, i.dist, i.len); }
  }

  /** Expanding items one by one gives an output that reads as they say. */
  lemma {:induction false} ExpandedReads(out: seq<nat>, items: seq<Item>)
    requires ExpandAll(out, items).Some?
    ensures out <= ExpandAll(out, items).value && Reads(items, |out|, ExpandAll(out, items).value)
    decreases |items|
  {
    hide CopyBack;
    if items != [] {
      var o := Expand(out, items[0]).value;
      ExpandedReads(o, items[1..]);
      PrefixKept(out, items[0]);
      var whole := ExpandAll(out, items).value;
      match items[0]
      case Raw(b) => assert whole[|out|] == o[|out|];
      case Back(len, dist) =>
        CopyBackCopies(out, dist, len);
        forall k | |out| <= k < |out| + len ensures whole[k] == whole[k - dist] {
          assert whole[k] == o[k] && whole[k - dist] == o[k - dist];
        }
    }
  }

  lemma CopyIsRead(out: seq<nat>, p: nat, len: nat, dist: nat)
    requires 0 < dist <= p && p + len <= |out| && forall k :: p <= k < p + len ==> out[k] == out[k - dist]
    ensures CopyBack(out[..p], dist, len) == out[..p + len]
  {
    hide CopyBack;
    var a, b := CopyBack(out[..p], dist, len), out[..p + len];
    CopyBackCopies(out[..p], dist, len);
    CopiesUnique(out[..p], dist, len, a, b, p + len);
    assert a[..p + len] == a && b[..p + len] == b;
  }

  /** An output that reads as the items say is their expansion. */
  lemma {:induction false} ReadsExpanded(items: seq<Item>, p: nat, out: seq<nat>)
    requires p <= |out| && Reads(items, p, out)
    ensures ExpandAll(out[..p], items) == Some(out)
    decreases |items|
  {
    hide CopyBack;
    if items == [] {
      assert out[..p] == out;
    } else {
      match items[0]
      case Raw(b) =>
        assert out[..p] + [out[p]] == out[..p + 1];
        ReadsExpanded(items[1..], p + 1, out);
      case Back(len, dist) =>
        CopyIsRead(out, p, len, dist);
        ReadsExpanded(items[1..], p + len, out);
    }
  }

  lemma StreamBit(d: seq<Byte>, i: nat, k: nat)
    requires i < |d| && k < 8
    ensures Stream(d)[8 * i + k] == d[i] / Pow2(k) % 2
  {
    assert (8 * i + k) / 8 == i && (8 * i + k) % 8 == k;
  }

  lemma LowHalf(b: Byte)
    ensures b % 16 == 8 <==> b % 2 == 0 && b / 2 % 2 == 0 && b / 4 % 2 == 0 && b / 8 % 2 == 1
  {
    assert b % 16 == 8 * (b / 8 % 2) + b % 8;
    assert b % 8 == 4 * (b / 4 % 2) + b % 4;
    assert b % 4 == 2 * (b / 2 % 2) + b % 2;
  }

  lemma MethodField(s: seq<Bit>)
    requires |s| >= 16
    ensures FieldAt(s, 0, 4, 8) <==> s[0] == 0 && s[1] == 0 && s[2] == 0 && s[3] == 1
  {
    hide Pow2;
    SmallPowers();
    if FieldAt(s, 0, 4, 8) { assert s[0 + 0] == 0 && s[0 + 1] == 0 && s[0 + 2] == 0 && s[0 + 3] == 1; }
  }

  /** The method is the low half of the first byte, the dictionary flag bit 5 of the second. */
  lemma HeaderBits(d: seq<Byte>)
    requires |d| >= 2
    ensures HeaderOk(d) <==> FieldAt(Stream(d), 0, 4, 8) && Stream(d)[13] == 0
  {
    hide Stream, FieldAt, Pow2;
    SmallPowers();
    StreamBit(d, 0, 0);
    StreamBit(d, 0, 1);
    StreamBit(d, 0, 2);
    StreamBit(d, 0, 3);
    StreamBit(d, 1, 5);
    LowHalf(d[0]);
    MethodField(Stream(d));
  }

  /** Inflating an encoding gives what its tokens stand for. */
  lemma InflateDecodes(d: seq<Byte>, bs: seq<Block>, out: seq<nat>)
    requires Encodes(d, bs) && Reads(Items(bs), 0, out)
    ensures Inflated(d) == Ok(out)
  {
    hide InflateBlocks, BlocksAt, ExpandAll, BitsOf, HeaderOk, FieldAt, Stream, Reads, Items;
    HeaderBits(d);
    StreamIsBits(d);
    ReadsExpanded(Items(bs), 0, out);
    assert out[..0] == [];
    BlocksRun(BitsOf(d), 16, bs, []);
  }

  /** Inflating succeeds only on encodings. */
  lemma InflateAcceptsEncodings(d: seq<Byte>) returns (bs: seq<Block>)
    requires Inflated(d).Ok?
    ensures Encodes(d, bs) && Reads(Items(bs), 0, Inflated(d).value)
  {
    hide InflateBlocks, BlocksAt, ExpandAll, BitsOf, FieldAt, Stream, Reads, Items;
    HeaderBits(d);
    StreamIsBits(d);
    bs := BlocksFound(BitsOf(d), 16, []);
    ExpandedReads([], Items(bs));
  }

  /** The inflater accepts a stream, with an output, exactly when the stream encodes blocks whose
      tokens stand for that output. */
  lemma InflatesExactly(d: seq<Byte>, out: seq<nat>)
    ensures Inflated(d) == Ok(out) <==> exists bs :: Encodes(d, bs) && Reads(Items(bs), 0, out)
  {
    hide *;
    if Inflated(d) == Ok(out) {
      var bs := InflateAcceptsEncodings(d);
    }
    forall bs | Encodes(d, bs) && Reads(Items(bs), 0, out) ensures Inflated(d) == Ok(out) {
      InflateDecodes(d, bs, out);
    }
  }
}
