/** The inflater of a zlib stream (RFC 1950, RFC 1951): what it computes over the bit stream,
    and the class whose bit cursor and output it advances. */
module Inflate {
  import opened Bytes
  import opened Huffman
  import opened Arithmetic

  const LEN_BASE: seq<nat> := [
    3, 4, 5, 6, 7, 8, 9, 10, 11, 13, 15, 17, 19, 23, 27, 31, 35, 43, 51, 59, 67, 83, 99, 115, 131,
    163, 195, 227, 258]
  const LEN_EXTRA: seq<nat> := [
    0, 0, 0, 0, 0, 0, 0, 0, 1, 1, 1, 1, 2, 2, 2, 2, 3, 3, 3, 3, 4, 4, 4, 4, 5, 5, 5, 5, 0]
  const DIST_BASE: seq<nat> := [
    1, 2, 3, 4, 5, 7, 9, 13, 17, 25, 33, 49, 65, 97, 129, 193, 257, 385, 513, 769, 1025, 1537,
    2049, 3073, 4097, 6145, 8193, 12289, 16385, 24577]
  const DIST_EXTRA: seq<nat> := [
    0, 0, 0, 0, 1, 1, 2, 2, 3, 3, 4, 4, 5, 5, 6, 6, 7, 7, 8, 8, 9, 9, 10, 10, 11, 11, 12, 12, 13,
    13]
  const ORDER: seq<nat> := [16, 17, 18, 0, 8, 7, 9, 6, 10, 5, 11, 4, 12, 3, 13, 2, 14, 1, 15]

  function LenBase(li: nat): nat
    requires li < 29
  {
    LEN_BASE[li]
  }

  function LenExtra(li: nat): nat
    requires li < 29
  {
    LEN_EXTRA[li]
  }

  function DistBase(di: nat): (d: nat)
    requires di < 30
    ensures d > 0
  {
    DIST_BASE[di]
  }

  function DistExtra(di: nat): nat
    requires di < 30
  {
    DIST_EXTRA[di]
  }

  /** Where the `k`-th code length of the code-length alphabet belongs. */
  function Order(k: nat): (sym: nat)
    requires k < 19
    ensures sym < 19
  {
    ORDER[k]
  }

  type Decoded<T> = Result<(T, nat), InflateError>

  // ---------------------------------------------------------------- the bit stream

  /** `b` shifted right by `k` bits. */
  function Shr(b: nat, k: nat): nat { if k == 0 then b else Shr(b, k - 1) / 2 }

  lemma {:induction false} ShrTail(v: nat, k: nat)
    ensures Shr(v, k + 1) == Shr(v / 2, k)
  {
    if k > 0 { ShrTail(v, k - 1); }
  }

  lemma {:induction false} ShrDivides(v: nat, k: nat)
    ensures Shr(v, k) == v / Pow2(k)
  {
    if k > 0 {
      ShrTail(v, k - 1);
      ShrDivides(v / 2, k - 1);
      DigitFirst(v % 2, v / 2, 2, Pow2(k - 1));
    }
  }

  function BitOf(b: Byte, k: nat): Bit { Shr(b, k) % 2 }

  /** The bits of the bytes, least significant first. */
  function BitsOf(d: seq<Byte>): (s: seq<Bit>)
    ensures |s| == 8 * |d|
  {
    seq(8 * |d|, p requires 0 <= p < 8 * |d| => BitOf(d[p / 8], p % 8))
  }

  /** `n` bits from position `p`, least significant first. */
  function Lsb(s: seq<Bit>, p: nat, n: nat): nat
    requires p + n <= |s|
    decreases n
  {
    if n == 0 then 0 else s[p] + 2 * Lsb(s, p + 1, n - 1)
  }

  function Take(s: seq<Bit>, p: nat, n: nat): (r: Decoded<nat>)
    ensures r.Ok? ==> r.value.1 == p + n <= |s|
  {
    if p + n <= |s| then Ok((Lsb(s, p, n), p + n)) else Err(Truncated)
  }

  lemma {:induction false} LsbBound(s: seq<Bit>, p: nat, n: nat)
    requires p + n <= |s|
    ensures Lsb(s, p, n) < Pow2(n)
    decreases n
  {
    if n > 0 { LsbBound(s, p + 1, n - 1); }
  }

  lemma SmallTake(s: seq<Bit>, p: nat)
    requires p + 3 <= |s|
    ensures Lsb(s, p, 3) < 8 && (p + 4 <= |s| ==> Lsb(s, p, 4) < 16)
  {
    LsbBound(s, p, 3);
    assert Pow2(3) == 8 && Pow2(4) == 16;
    if p + 4 <= |s| { LsbBound(s, p, 4); }
  }

  /** Two bytes, low first. */
  function Word(s: seq<Bit>, p: nat): nat
    requires p + 16 <= |s|
  {
    Lsb(s, p, 8) + 256 * Lsb(s, p + 8, 8)
  }

  function Align(p: nat): (q: nat)
    ensures p <= q < p + 8 && q % 8 == 0
  {
    if p % 8 == 0 then p else p - p % 8 + 8
  }

  /** `n` whole bytes from position `p`. */
  function BytesAt(s: seq<Bit>, p: nat, n: nat): (w: seq<nat>)
    requires p + 8 * n <= |s|
    ensures |w| == n
  {
    seq(n, k requires 0 <= k < n => Lsb(s, p + 8 * k, 8))
  }

  // ---------------------------------------------------------------- blocks

  /** Copying `len` bytes from `dist` back, each new byte being the one `dist` earlier. */
  function CopyBack(out: seq<nat>, dist: nat, len: nat): seq<nat>
    requires 0 < dist <= |out|
    decreases len
  {
    if len == 0 then out else CopyBack(out + [out[|out| - dist]], dist, len - 1)
  }

  function InflateStored(s: seq<Bit>, p: nat, out: seq<nat>): (r: Decoded<seq<nat>>)
    ensures r.Ok? ==> p <= r.value.1 <= |s|
  {
    var q := Align(p);
    if q + 32 > |s| then Err(Truncated)
    else
      var len, nlen := Word(s, q), Word(s, q + 16);
      if 65535 - len != nlen then Err(BadStored)
      else if q + 32 + 8 * len > |s| then Err(Truncated)
      else Ok((out + BytesAt(s, q + 32, len), q + 32 + 8 * len))
  }

  /** A length symbol read: the rest of the match, applied to the output. */
  /** A distance code with its extra bits, and the copy. */
  function InflateDistance(dist: Table, s: seq<Bit>, p: nat, len: nat, out: seq<nat>): (r: Decoded<seq<nat>>)
    requires TableOk(dist)
    ensures r.Ok? ==> p < r.value.1 <= |s|
  {
    hide *;
    var ds := Decode(dist, s, p);
    if ds.Err? then Err(ds.error)
    else if ds.value.0 > 29 then Err(BadDistance)
    else
      var dx := Take(s, ds.value.1, DistExtra(ds.value.0));
      if dx.Err? then Err(dx.error)
      else
        var dv := DistBase(ds.value.0) + dx.value.0;
        if dv > |out| then Err(BadDistance) else Ok((CopyBack(out, dv, len), dx.value.1))
  }

  function InflateMatch(dist: Table, s: seq<Bit>, p: nat, li: nat, out: seq<nat>): (r: Decoded<seq<nat>>)
    requires TableOk(dist) && li < 29
    ensures r.Ok? ==> p < r.value.1 <= |s|
  {
    var lx := Take(s, p, LenExtra(li));
    if lx.Err? then Err(lx.error)
    else InflateDistance(dist, s, lx.value.1, LenBase(li) + lx.value.0, out)
  }

  function InflateSymbols(lit: Table, dist: Table, s: seq<Bit>, p: nat, out: seq<nat>): (r: Decoded<seq<nat>>)
    requires TableOk(lit) && TableOk(dist)
    ensures r.Ok? ==> p < r.value.1 <= |s|
    decreases |s| - p
  {
    var sym := Decode(lit, s, p);
    if sym.Err? then Err(sym.error)
    else
      var q := sym.value.1;
      if sym.value.0 < 256 then InflateSymbols(lit, dist, s, q, out + [sym.value.0])
      else if sym.value.0 == 256 then Ok((out, q))
      else if sym.value.0 <= 285 then
        var m := InflateMatch(dist, s, q, sym.value.0 - 257, out);
        if m.Err? then Err(m.error) else InflateSymbols(lit, dist, s, m.value.1, m.value.0)
      else Err(BadLength)
  }

  function InflateCoded(ll: seq<nat>, dl: seq<nat>, s: seq<Bit>, p: nat, out: seq<nat>): (r: Decoded<seq<nat>>)
    requires Lengths(ll) && Lengths(dl)
    ensures r.Ok? ==> p <= r.value.1 <= |s|
  {
    if !Kraft(CountsOf(ll)) || !Kraft(CountsOf(dl)) then Err(OverSubscribed)
    else InflateSymbols(TableOf(ll), TableOf(dl), s, p, out)
  }

  function FixedLength(i: nat): nat { if i <= 143 then 8 else if i <= 255 then 9 else if i <= 279 then 7 else 8 }

  function FixedLiterals(): (w: seq<nat>)
    ensures |w| == 288 && Lengths(w)
  {
    seq(288, i requires 0 <= i < 288 => FixedLength(i))
  }

  function FixedDistances(): (w: seq<nat>)
    ensures |w| == 30 && Lengths(w)
  {
    Repeat(5, 30)
  }

  // ---------------------------------------------------------------- dynamic tables

  /** Code lengths of the code-length alphabet: `k` of them read, in the fixed order. */
  function ReadOrdered(s: seq<Bit>, p: nat, n: nat, cl: seq<nat>, k: nat): (r: Decoded<seq<nat>>)
    requires |cl| == 19 && k <= n <= 19 && Lengths(cl)
    ensures r.Ok? ==> |r.value.0| == 19 && Lengths(r.value.0) && r.value.1 == p + 3 * (n - k)
    decreases n - k
  {
    if k == n then Ok((cl, p))
    else
      var v := Take(s, p, 3);
      if v.Err? then Err(v.error)
      else
        SmallTake(s, p);
        ReadOrdered(s, v.value.1, n, cl[Order(k) := v.value.0], k + 1)
  }

  /** What one code-length symbol appends, and where reading goes on. */
  function RunOf(s: seq<Bit>, p: nat, sym: nat, acc: seq<nat>): (r: Decoded<seq<nat>>)
    requires Lengths(acc)
    ensures r.Ok? ==> |r.value.0| > 0 && Lengths(r.value.0) && p <= r.value.1
  {
    if sym <= 15 then Ok(([sym], p))
    else if sym == 16 then
      if acc == [] then Err(BadRepeat)
      else
        var n := Take(s, p, 2);
        if n.Err? then Err(n.error) else Ok((Repeat(acc[|acc| - 1], n.value.0 + 3), n.value.1))
    else if sym == 17 then
      var n := Take(s, p, 3);
      if n.Err? then Err(n.error) else Ok((Repeat(0, n.value.0 + 3), n.value.1))
    else if sym == 18 then
      var n := Take(s, p, 7);
      if n.Err? then Err(n.error) else Ok((Repeat(0, n.value.0 + 11), n.value.1))
    else Err(BadLength)
  }

  /** The literal and distance code lengths, run-length coded. */
  function ReadLengths(h: Table, s: seq<Bit>, p: nat, total: nat, acc: seq<nat>): (r: Decoded<seq<nat>>)
    requires TableOk(h) && |acc| <= total && Lengths(acc)
    ensures r.Ok? ==> |r.value.0| == total && Lengths(r.value.0) && p <= r.value.1
    decreases total - |acc|
  {
    if |acc| == total then Ok((acc, p))
    else
      var sym := Decode(h, s, p);
      if sym.Err? then Err(sym.error)
      else
        var run := RunOf(s, sym.value.1, sym.value.0, acc);
        if run.Err? then Err(run.error)
        else if |acc| + |run.value.0| > total then Err(RunOverflow)
        else ReadLengths(h, s, run.value.1, total, acc + run.value.0)
  }

  function InflateDynamic(s: seq<Bit>, p: nat, out: seq<nat>): (r: Decoded<seq<nat>>)
    ensures r.Ok? ==> p <= r.value.1 <= |s|
  {
    if p + 14 > |s| then Err(Truncated)
    else
      SmallTake(s, p + 10);
      var hlit, hdist, hclen := Lsb(s, p, 5) + 257, Lsb(s, p + 5, 5) + 1, Lsb(s, p + 10, 4) + 4;
      var cl := ReadOrdered(s, p + 14, hclen, Repeat(0, 19), 0);
      if cl.Err? then Err(cl.error)
      else if !Kraft(CountsOf(cl.value.0)) then Err(OverSubscribed)
      else
        var all := ReadLengths(TableOf(cl.value.0), s, cl.value.1, hlit + hdist, []);
        if all.Err? then Err(all.error)
        else InflateCoded(all.value.0[..hlit], all.value.0[hlit..], s, all.value.1, out)
  }

  function InflateBlock(s: seq<Bit>, p: nat, btype: nat, out: seq<nat>): (r: Decoded<seq<nat>>)
    ensures r.Ok? ==> p <= r.value.1 <= |s|
  {
    if btype == 0 then InflateStored(s, p, out)
    else if btype == 1 then InflateCoded(FixedLiterals(), FixedDistances(), s, p, out)
    else if btype == 2 then InflateDynamic(s, p, out)
    else Err(BadBlock)
  }

  /** Blocks one after another, up to the one marked final. */
  function InflateBlocks(s: seq<Bit>, p: nat, out: seq<nat>): Decoded<seq<nat>>
    decreases |s| - p
  {
    if p + 3 > |s| then Err(Truncated)
    else
      var b := InflateBlock(s, p + 3, Lsb(s, p + 1, 2), out);
      if b.Err? then Err(b.error)
      else if s[p] == 1 then b
      else InflateBlocks(s, b.value.1, b.value.0)
  }

  /** The zlib wrapper: method 8, no preset dictionary. */
  function HeaderOk(d: seq<Byte>): bool {
    |d| >= 2 && d[0] % 16 == 8 && d[1] / 32 % 2 == 0
  }

  function Inflated(d: seq<Byte>): Result<seq<nat>, InflateError> {
    if !HeaderOk(d) then Err(BadHeader)
    else
      var r := InflateBlocks(BitsOf(d), 16, []);
      if r.Err? then Err(r.error) else Ok(r.value.0)
  }

  // ---------------------------------------------------------------- the bit reader

  lemma {:induction false} LsbSnoc(s: seq<Bit>, p: nat, n: nat)
    requires p + n < |s|
    ensures Lsb(s, p, n + 1) == Lsb(s, p, n) + if s[p + n] == 1 then Pow2(n) else 0
    decreases n
  {
    if n > 0 { LsbSnoc(s, p + 1, n - 1); }
  }

  class ZBits {
    const d: seq<Byte>
    var pos: nat
    var bit: nat

    ghost function Pos(): nat
      reads this
    {
      8 * pos + bit
    }

    ghost function Bits(): (s: seq<Bit>)
      ensures |s| == 8 * |d|
    {
      BitsOf(d)
    }

    ghost predicate Inside()
      reads this
    {
      bit < 8 && Pos() <= 8 * |d|
    }

    constructor (d: seq<Byte>, pos: nat)
      requires pos <= |d|
      ensures this.d == d && Pos() == 8 * pos && Inside()
    {
      this.d := d;
      this.pos := pos;
      bit := 0;
    }

    method TakeBits(n: nat) returns (r: Result<nat, InflateError>)
      requires Inside()
      modifies this
      ensures Inside() && Agrees(r, Pos(), Take(Bits(), old(Pos()), n))
    {
      hide BitsOf, BitOf;
      var v := 0;
      var scale := 1;
      for i := 0 to n
        invariant Inside() && Pos() == old(Pos()) + i && scale == Pow2(i)
        invariant v == Lsb(Bits(), old(Pos()), i)
      {
        if pos >= |d| { return Err(Truncated); }
        LsbSnoc(Bits(), old(Pos()), i);
        BitPlace(d, pos, bit);
        if BitOf(d[pos], bit) == 1 { v := v + scale; }
        scale := 2 * scale;
        bit := bit + 1;
        if bit == 8 {
          bit := 0;
          pos := pos + 1;
        }
      }
      return Ok(v);
    }

    method AlignByte()
      requires Inside()
      modifies this
      ensures Inside() && bit == 0 && Pos() == Align(old(Pos()))
    {
      if bit != 0 {
        bit := 0;
        pos := pos + 1;
      }
    }

    method DecodeSymbol(h: Table) returns (r: Result<nat, InflateError>)
      requires Inside() && TableOk(h)
      modifies this
      ensures Inside() && Agrees(r, Pos(), Decode(h, Bits(), old(Pos())))
    {
      hide Take, DecodeFrom, First, Index, BitsOf;
      FirstStep(h.counts, 0);
      var code, first, index := 0, 0, 0;
      for l := 1 to 16
        invariant Inside() && first == First(h.counts, l) <= code && index == Index(h.counts, l)
        invariant Decode(h, Bits(), old(Pos())) == DecodeFrom(h, Bits(), Pos(), l, code)
      {
        ghost var p := Pos();
        var b := TakeBits(1);
        TakeOne(Bits(), p);
        DecodeStep(h, Bits(), p, l, code);
        FirstStep(h.counts, l);
        if b.Err? { return Err(b.error); }
        code := code + b.value;
        var count := h.counts[l];
        IndexMonotone(h.counts, l, 16);
        if code - first < count { return Ok(h.symbols[index + (code - first)]); }
        index := index + count;
        first := (first + count) * 2;
        code := code * 2;
      }
      DecodeEnd(h, Bits(), Pos(), code);
      return Err(BadCode);
    }
  }

  lemma DecodeStep(h: Table, s: seq<Bit>, p: nat, l: nat, code: nat)
    requires TableOk(h) && 1 <= l < 16 && First(h.counts, l) <= code
    ensures p >= |s| ==> DecodeFrom(h, s, p, l, code) == Err(Truncated)
    ensures p < |s| ==>
              var k := code + s[p] - First(h.counts, l);
              if k < h.counts[l]
              then Index(h.counts, l) + k < |h.symbols|
                   && DecodeFrom(h, s, p, l, code) == Ok((h.symbols[Index(h.counts, l) + k], p + 1))
              else First(h.counts, l + 1) <= 2 * (code + s[p])
                   && DecodeFrom(h, s, p, l, code) == DecodeFrom(h, s, p + 1, l + 1, 2 * (code + s[p]))
  {
    IndexMonotone(h.counts, l, 16);
  }

  lemma DecodeEnd(h: Table, s: seq<Bit>, p: nat, code: nat)
    requires TableOk(h) && First(h.counts, 16) <= code
    ensures DecodeFrom(h, s, p, 16, code) == Err(BadCode)
  {
  }

  lemma TakeOne(s: seq<Bit>, p: nat)
    ensures Take(s, p, 1) == if p < |s| then Ok((s[p], p + 1)) else Err(Truncated)
  {
  }

  // ---------------------------------------------------------------- the inflater

  method CopyMatch(out: seq<nat>, dist: nat, len: nat) returns (out': seq<nat>)
    requires 0 < dist <= |out|
    ensures out' == CopyBack(out, dist, len)
  {
    out' := out;
    var from := |out| - dist;
    for k := 0 to len
      invariant |out'| == |out| + k && CopyBack(out', dist, len - k) == CopyBack(out, dist, len)
    {
      var v := out'[from + k];
      out' := out' + [v];
    }
  }

  method TakeMatch(b: ZBits, dist: Table, li: nat, out: seq<nat>) returns (r: Result<seq<nat>, InflateError>)
    requires b.Inside() && TableOk(dist) && li < 29
    modifies b
    ensures b.Inside() && Agrees(r, b.Pos(), InflateMatch(dist, b.Bits(), old(b.Pos()), li, out))
  {
    hide Take, Decode, CopyBack, BitsOf, LenBase, LenExtra, DistBase, DistExtra;
    var lx := b.TakeBits(LenExtra(li));
    if lx.Err? { return Err(lx.error); }
    var ds := b.DecodeSymbol(dist);
    if ds.Err? { return Err(ds.error); }
    if ds.value > 29 { return Err(BadDistance); }
    var dx := b.TakeBits(DistExtra(ds.value));
    if dx.Err? { return Err(dx.error); }
    var dv := DistBase(ds.value) + dx.value;
    if dv > |out| { return Err(BadDistance); }
    var o := CopyMatch(out, dv, LenBase(li) + lx.value);
    return Ok(o);
  }

  method TakeSymbols(b: ZBits, lit: Table, dist: Table, out0: seq<nat>) returns (r: Result<seq<nat>, InflateError>)
    requires b.Inside() && TableOk(lit) && TableOk(dist)
    modifies b
    ensures b.Inside() && Agrees(r, b.Pos(), InflateSymbols(lit, dist, b.Bits(), old(b.Pos()), out0))
  {
    hide Take, Decode, InflateMatch, BitsOf;
    ghost var whole := InflateSymbols(lit, dist, b.Bits(), b.Pos(), out0);
    var out := out0;
    while true
      invariant b.Inside() && whole == InflateSymbols(lit, dist, b.Bits(), b.Pos(), out)
      decreases 8 * |b.d| - b.Pos()
    {
      var sym := b.DecodeSymbol(lit);
      if sym.Err? { return Err(sym.error); }
      if sym.value < 256 {
        out := out + [sym.value];
      } else if sym.value == 256 {
        return Ok(out);
      } else if sym.value <= 285 {
        var m := TakeMatch(b, dist, sym.value - 257, out);
        if m.Err? { return Err(m.error); }
        out := m.value;
      } else {
        return Err(BadLength);
      }
    }
  }

  method TakeCoded(b: ZBits, ll: seq<nat>, dl: seq<nat>, out: seq<nat>) returns (r: Result<seq<nat>, InflateError>)
    requires b.Inside() && Lengths(ll) && Lengths(dl)
    modifies b
    ensures b.Inside() && Agrees(r, b.Pos(), InflateCoded(ll, dl, b.Bits(), old(b.Pos()), out))
  {
    hide Kraft, CountsOf, TableOf, InflateSymbols, TableFor, BitsOf;
    var lit := Build(ll);
    if lit.Err? { return Err(lit.error); }
    var dist := Build(dl);
    if dist.Err? { return Err(dist.error); }
    r := TakeSymbols(b, lit.value, dist.value, out);
  }

  lemma ByteBits(d: seq<Byte>, i: nat)
    requires i < |d|
    ensures Lsb(BitsOf(d), 8 * i, 8) == d[i]
  {
    hide BitsOf, Lsb;
    PartBits(d, i, 0);
  }

  lemma {:induction false} PartBits(d: seq<Byte>, i: nat, k: nat)
    requires i < |d| && k <= 8
    ensures Lsb(BitsOf(d), 8 * i + k, 8 - k) == Shr(d[i], k)
    decreases 8 - k
  {
    if k < 8 {
      PartBits(d, i, k + 1);
      BitPlace(d, i, k);
    } else {
      ByteGone(d[i]);
    }
  }

  lemma BitPlace(d: seq<Byte>, i: nat, k: nat)
    requires i < |d| && k < 8
    ensures BitsOf(d)[8 * i + k] == BitOf(d[i], k)
  {
    assert (8 * i + k) / 8 == i && (8 * i + k) % 8 == k;
  }

  lemma {:induction false} ShrGone(v: nat, k: nat)
    requires v < Pow2(k)
    ensures Shr(v, k) == 0
  {
    if k > 0 {
      hide Shr;
      ShrGone(v / 2, k - 1);
      ShrTail(v, k - 1);
    }
  }

  lemma ByteGone(b: Byte)
    ensures Shr(b, 8) == 0
  {
    hide Shr;
    assert Pow2(4) == 16;
    assert Pow2(8) == 256;
    ShrGone(b, 8);
  }

  lemma WholeBytes(d: seq<Byte>, i: nat, n: nat)
    requires i + n <= |d|
    ensures BytesAt(BitsOf(d), 8 * i, n) == d[i..i + n]
  {
    hide BitsOf, Lsb;
    assert 8 * i + 8 * n <= |BitsOf(d)|;
    forall k | 0 <= k < n ensures BytesAt(BitsOf(d), 8 * i, n)[k] == d[i..i + n][k] {
      ByteBits(d, i + k);
      assert 8 * i + 8 * k == 8 * (i + k);
    }
  }

  lemma StoredHeader(d: seq<Byte>, i: nat)
    requires i + 4 <= |d|
    ensures Word(BitsOf(d), 8 * i) == (d[i] as int) + 256 * (d[i + 1] as int)
    ensures Word(BitsOf(d), 8 * i + 16) == (d[i + 2] as int) + 256 * (d[i + 3] as int)
  {
    hide BitsOf, Lsb;
    ByteBits(d, i);
    ByteBits(d, i + 1);
    ByteBits(d, i + 2);
    ByteBits(d, i + 3);
  }

  method TakeStored(b: ZBits, out: seq<nat>) returns (r: Result<seq<nat>, InflateError>)
    requires b.Inside()
    modifies b
    ensures b.Inside() && Agrees(r, b.Pos(), InflateStored(b.Bits(), old(b.Pos()), out))
  {
    hide Lsb, Word, BytesAt, BitsOf, Align;
    b.AlignByte();
    if b.pos + 4 > |b.d| { return Err(Truncated); }
    var lo: nat, hi: nat := b.d[b.pos], b.d[b.pos + 1];
    var nlo: nat, nhi: nat := b.d[b.pos + 2], b.d[b.pos + 3];
    var len, nlen := lo + 256 * hi, nlo + 256 * nhi;
    StoredHeader(b.d, b.pos);
    if 65535 - len != nlen { return Err(BadStored); }
    b.pos := b.pos + 4;
    if b.pos + len > |b.d| { return Err(Truncated); }
    WholeBytes(b.d, b.pos, len);
    r := Ok(out + b.d[b.pos..b.pos + len]);
    b.pos := b.pos + len;
  }

  method TakeOrdered(b: ZBits, n: nat) returns (r: Result<seq<nat>, InflateError>)
    requires b.Inside() && n <= 19
    modifies b
    ensures b.Inside() && Agrees(r, b.Pos(), ReadOrdered(b.Bits(), old(b.Pos()), n, Repeat(0, 19), 0))
  {
    hide Lsb, BitsOf, Lengths;
    var cl: seq<nat> := Repeat(0, 19);
    ghost var whole := ReadOrdered(b.Bits(), b.Pos(), n, cl, 0);
    for k := 0 to n
      invariant b.Inside() && |cl| == 19 && Lengths(cl) && whole == ReadOrdered(b.Bits(), b.Pos(), n, cl, k)
    {
      ghost var before, p := cl, b.Pos();
      var v := b.TakeBits(3);
      if v.Err? { return Err(v.error); }
      SmallEntry(b.Bits(), p, before, Order(k));
      cl := cl[Order(k) := v.value];
    }
    return Ok(cl);
  }

  lemma SmallEntry(s: seq<Bit>, p: nat, cl: seq<nat>, k: nat)
    requires Lengths(cl) && k < |cl| && p + 3 <= |s|
    ensures Lengths(cl[k := Lsb(s, p, 3)])
  {
    SmallTake(s, p);
  }

  /** The values one code-length symbol appends. */
  method TakeRun(b: ZBits, sym: nat, acc: seq<nat>) returns (r: Result<seq<nat>, InflateError>)
    requires b.Inside() && Lengths(acc)
    modifies b
    ensures b.Inside() && Agrees(r, b.Pos(), RunOf(b.Bits(), old(b.Pos()), sym, acc))
  {
    hide Take, BitsOf, Lengths;
    if sym <= 15 {
      r := Ok([sym]);
    } else if sym == 16 {
      if acc == [] { return Err(BadRepeat); }
      var n := b.TakeBits(2);
      r := if n.Err? then Err(n.error) else Ok(Repeat(acc[|acc| - 1], n.value + 3));
    } else if sym == 17 {
      var n := b.TakeBits(3);
      r := if n.Err? then Err(n.error) else Ok(Repeat(0, n.value + 3));
    } else if sym == 18 {
      var n := b.TakeBits(7);
      r := if n.Err? then Err(n.error) else Ok(Repeat(0, n.value + 11));
    } else {
      r := Err(BadLength);
    }
  }

  method TakeLengths(b: ZBits, h: Table, total: nat) returns (r: Result<seq<nat>, InflateError>)
    requires b.Inside() && TableOk(h)
    modifies b
    ensures b.Inside() && Agrees(r, b.Pos(), ReadLengths(h, b.Bits(), old(b.Pos()), total, []))
  {
    hide Decode, RunOf, BitsOf;
    ghost var whole := ReadLengths(h, b.Bits(), b.Pos(), total, []);
    var acc: seq<nat> := [];
    while |acc| < total
      invariant b.Inside() && |acc| <= total && Lengths(acc) && whole == ReadLengths(h, b.Bits(), b.Pos(), total, acc)
      decreases total - |acc|
    {
      ghost var p := b.Pos();
      var sym := b.DecodeSymbol(h);
      if sym.Err? { return Err(sym.error); }
      ghost var q := b.Pos();
      var run := TakeRun(b, sym.value, acc);
      if run.Err? { return Err(run.error); }
      if |acc| + |run.value| > total { return Err(RunOverflow); }
      acc := acc + run.value;
    }
    return Ok(acc);
  }

  method TakeDynamic(b: ZBits, out: seq<nat>) returns (r: Result<seq<nat>, InflateError>)
    requires b.Inside()
    modifies b
    ensures b.Inside() && Agrees(r, b.Pos(), InflateDynamic(b.Bits(), old(b.Pos()), out))
  {
    hide Lsb, BitsOf, ReadOrdered, ReadLengths, InflateCoded, Kraft, CountsOf, TableOf, TableFor, Lengths;
    var x := b.TakeBits(5);
    if x.Err? { return Err(x.error); }
    var y := b.TakeBits(5);
    if y.Err? { return Err(y.error); }
    var z := b.TakeBits(4);
    if z.Err? { return Err(z.error); }
    var hlit, hdist, hclen := x.value + 257, y.value + 1, z.value + 4;
    SmallTake(b.Bits(), old(b.Pos()) + 10);
    var cl := TakeOrdered(b, hclen);
    if cl.Err? { return Err(cl.error); }
    var clh := Build(cl.value);
    if clh.Err? { return Err(clh.error); }
    var all := TakeLengths(b, clh.value, hlit + hdist);
    if all.Err? { return Err(all.error); }
    SplitLengths(all.value, hlit);
    r := TakeCoded(b, all.value[..hlit], all.value[hlit..], out);
  }

  lemma SplitLengths(w: seq<nat>, k: nat)
    requires Lengths(w) && k <= |w|
    ensures Lengths(w[..k]) && Lengths(w[k..])
  {
  }

  method TakeBlock(b: ZBits, btype: nat, out: seq<nat>) returns (r: Result<seq<nat>, InflateError>)
    requires b.Inside()
    modifies b
    ensures b.Inside() && Agrees(r, b.Pos(), InflateBlock(b.Bits(), old(b.Pos()), btype, out))
  {
    hide InflateStored, InflateCoded, InflateDynamic, BitsOf, FixedLiterals, FixedDistances;
    if btype == 0 {
      r := TakeStored(b, out);
    } else if btype == 1 {
      r := TakeCoded(b, FixedLiterals(), FixedDistances(), out);
    } else if btype == 2 {
      r := TakeDynamic(b, out);
    } else {
      r := Err(BadBlock);
    }
  }

  method TakeBlocks(b: ZBits) returns (r: Result<seq<nat>, InflateError>)
    requires b.Inside()
    modifies b
    ensures b.Inside() && Agrees(r, b.Pos(), InflateBlocks(b.Bits(), old(b.Pos()), []))
  {
    hide InflateBlock, Lsb, BitsOf;
    ghost var whole := InflateBlocks(b.Bits(), b.Pos(), []);
    var out: seq<nat> := [];
    while true
      invariant b.Inside() && whole == InflateBlocks(b.Bits(), b.Pos(), out)
      decreases 8 * |b.d| - b.Pos()
    {
      ghost var p := b.Pos();
      var final := b.TakeBits(1);
      if final.Err? { return Err(final.error); }
      TakeOne(b.Bits(), p);
      var btype := b.TakeBits(2);
      if btype.Err? { return Err(btype.error); }
      var o := TakeBlock(b, btype.value, out);
      if o.Err? { return Err(o.error); }
      out := o.value;
      if final.value == 1 { return Ok(out); }
    }
  }

  method InflateZlib(d: seq<Byte>) returns (r: Result<seq<nat>, InflateError>)
    ensures r == Inflated(d)
  {
    if |d| < 2 || d[0] % 16 != 8 || d[1] / 32 % 2 != 0 { return Err(BadHeader); }
    var b := new ZBits(d, 2);
    r := TakeBlocks(b);
  }
}
