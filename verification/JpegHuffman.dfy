/** The JPEG Huffman decoder (ITU T.81, annex C and section F.2.2.3): its code tables, its bit reader
    with byte stuffing, and its agreement with the deflate decoder on the same codes. */
module JpegHuffman {
  import opened Bytes
  import opened Huffman
  import Inflate

  datatype JpegError = IndexOutOfRange | InvalidCode

  /** Code counts by length from the 16 counts of a table segment. */
  function CountsFrom(bits: seq<Byte>): (c: Counts)
    requires |bits| == 16
    ensures |c| == 17
  {
    seq(17, l requires 0 <= l < 17 => if l == 0 then 0 else bits[l - 1] as nat)
  }

  /** Smallest and largest code and first value index of each length; no codes means largest -1. */
  datatype Table81 = Table81(mincode: seq<int>, maxcode: seq<int>, valptr: seq<int>, vals: seq<Byte>)

  predicate Built(t: Table81, c: Counts) {
    && |c| == |t.mincode| == |t.maxcode| == |t.valptr| == 17
    && forall l :: 1 <= l <= 16 ==>
         && t.mincode[l] == First(c, l) && t.valptr[l] == Index(c, l)
         && t.maxcode[l] == if c[l] == 0 then -1 else First(c, l) + c[l] - 1
  }

  /** Codes and indices stay far inside 32 bits, so nothing wraps while building or decoding. */
  lemma {:induction false} NoOverflow(bits: seq<Byte>, l: nat)
    requires |bits| == 16 && 1 <= l <= 16
    ensures First(CountsFrom(bits), l) <= 255 * (Pow2(l) - 2) && Index(CountsFrom(bits), l) <= 255 * 15
    ensures First(CountsFrom(bits), l) + 255 < 0x7FFF_FFFF
  {
    IndexSmall(bits, l);
    FirstSmall(bits, l);
    Pow16(l);
  }

  lemma {:induction false} FirstSmall(bits: seq<Byte>, l: nat)
    requires |bits| == 16 && 1 <= l <= 16
    ensures First(CountsFrom(bits), l) <= 255 * (Pow2(l) - 2)
  {
    if l > 1 { FirstSmall(bits, l - 1); }
  }

  lemma {:induction false} IndexSmall(bits: seq<Byte>, l: nat)
    requires |bits| == 16 && 1 <= l <= 16
    ensures Index(CountsFrom(bits), l) <= 255 * (l - 1)
  {
    if l > 1 { IndexSmall(bits, l - 1); }
  }

  lemma {:induction false} Pow16(l: nat)
    requires l <= 16
    ensures Pow2(l) <= 65536
  {
    PowSum(8, 8);
    assert Pow2(4) == 16 && Pow2(8) == 256;
    PowGrows(l, 16);
  }

  lemma {:induction false} PowGrows(l: nat, n: nat)
    requires l <= n
    ensures Pow2(l) <= Pow2(n)
    decreases n - l
  {
    if l < n { PowGrows(l, n - 1); }
  }

  lemma CountAt(bits: seq<Byte>, l: nat)
    requires |bits| == 16 && 1 <= l <= 16
    ensures CountsFrom(bits)[l] == bits[l - 1]
    ensures First(CountsFrom(bits), 1) == 0 && Index(CountsFrom(bits), 1) == 0
    ensures l < 17 ==> First(CountsFrom(bits), l + 1) == 2 * (First(CountsFrom(bits), l) + bits[l - 1])
    ensures l < 17 ==> Index(CountsFrom(bits), l + 1) == Index(CountsFrom(bits), l) + bits[l - 1]
  {
  }

  /** The entries of the lengths below `l`. */
  ghost predicate BuiltBelow(c: Counts, l: nat, mincode: seq<int>, maxcode: seq<int>, valptr: seq<int>) {
    && |c| == |mincode| == |maxcode| == |valptr| == 17
    && forall j :: 1 <= j < l <= 17 ==>
         && mincode[j] == First(c, j) && valptr[j] == Index(c, j)
         && maxcode[j] == if c[j] == 0 then -1 else First(c, j) + c[j] - 1
  }

  lemma BuiltNext(c: Counts, l: nat, mincode: seq<int>, maxcode: seq<int>, valptr: seq<int>)
    requires BuiltBelow(c, l, mincode, maxcode, valptr) && l < 17
    ensures BuiltBelow(c, l + 1, mincode[l := First(c, l)],
                       maxcode[l := if c[l] == 0 then -1 else First(c, l) + c[l] - 1], valptr[l := Index(c, l)])
  {
    hide First, Index;
  }

  lemma BuiltAll(c: Counts, t: Table81)
    requires BuiltBelow(c, 17, t.mincode, t.maxcode, t.valptr)
    ensures Built(t, c)
  {
    hide First, Index;
  }

  method BuildTable(bits: seq<Byte>, vals: seq<Byte>) returns (t: Table81)
    requires |bits| == 16
    ensures Built(t, CountsFrom(bits)) && t.vals == vals
  {
    hide First, Index, CountsFrom, Pow2, Built;
    var mincode, maxcode, valptr := new int[17](_ => 0), new int[17](_ => -1), new int[17](_ => 0);
    var code: int, k: int := 0, 0;
    ghost var c := CountsFrom(bits);
    CountAt(bits, 1);
    for l := 1 to 17
      invariant code == First(c, l) && k == Index(c, l)
      invariant BuiltBelow(c, l, mincode[..], maxcode[..], valptr[..])
    {
      CountAt(bits, l);
      BuiltNext(c, l, mincode[..], maxcode[..], valptr[..]);
      valptr[l] := k;
      mincode[l] := code;
      code := code + bits[l - 1];
      k := k + bits[l - 1];
      maxcode[l] := code - 1;
      code := code * 2;
      if bits[l - 1] == 0 { maxcode[l] := -1; }
    }
    t := Table81(mincode[..], maxcode[..], valptr[..], vals);
    BuiltAll(c, t);
  }

  // ---------------------------------------------------------------- the bit reader

  /** The entropy-coded bytes from `pos` on: FF 00 stands for FF; FF before anything else ends them. */
  function Segment(d: seq<Byte>, pos: nat): seq<Byte>
    decreases |d| - pos
  {
    if pos >= |d| then []
    else if d[pos] != 0xFF then [d[pos]] + Segment(d, pos + 1)
    else if pos + 1 < |d| && d[pos + 1] == 0 then [0xFF] + Segment(d, pos + 2)
    else []
  }

  /** Section F.1.2.3: every FF of the coded data is followed by a stuffed zero. */
  function Stuffed(w: seq<Byte>): seq<Byte> {
    if w == [] then [] else (if w[0] == 0xFF then [0xFF, 0] else [w[0]]) + Stuffed(w[1..])
  }

  /** What may follow the coded data: nothing, or a marker. */
  predicate EndsSegment(tail: seq<Byte>) {
    tail == [] || (tail[0] == 0xFF && (|tail| > 1 ==> tail[1] != 0))
  }

  /** Reading back stuffed data gives the data, up to the next marker or the end. */
  lemma {:induction false} SegmentUnstuffs(d: seq<Byte>, pos: nat, w: seq<Byte>, tail: seq<Byte>)
    requires pos <= |d| && d[pos..] == Stuffed(w) + tail && EndsSegment(tail)
    ensures Segment(d, pos) == w
    decreases |w|
  {
    if w == [] {
      assert d[pos..] == tail;
      if tail != [] {
        assert d[pos] == d[pos..][0];
        if pos + 1 < |d| { assert d[pos + 1] == d[pos..][1]; }
      }
    } else {
      var u := if w[0] == 0xFF then [0xFF, 0] else [w[0]];
      assert u + Stuffed(w[1..]) + tail == u + (Stuffed(w[1..]) + tail);
      hide Segment, Stuffed;
      SegmentStep(d, pos, u, Stuffed(w[1..]) + tail);
      SegmentAt(d, pos);
      SegmentUnstuffs(d, pos + |u|, w[1..], tail);
      assert [w[0]] + w[1..] == w;
    }
  }

  lemma SegmentAt(d: seq<Byte>, pos: nat)
    requires pos < |d|
    ensures d[pos] != 0xFF ==> Segment(d, pos) == [d[pos]] + Segment(d, pos + 1)
    ensures d[pos] == 0xFF && pos + 1 < |d| && d[pos + 1] == 0 ==> Segment(d, pos) == [0xFF] + Segment(d, pos + 2)
  {
  }

  lemma SegmentStep(d: seq<Byte>, pos: nat, u: seq<Byte>, rest: seq<Byte>)
    requires pos <= |d| && d[pos..] == u + rest
    ensures pos + |u| <= |d| && d[pos + |u|..] == rest && forall k :: 0 <= k < |u| ==> d[pos + k] == u[k]
  {
    assert d[pos..][|u|..] == rest;
    forall k | 0 <= k < |u| ensures d[pos + k] == u[k] { assert d[pos..][k] == u[k]; }
  }

  /** The bits of the bytes, most significant first: a code of 8 bits each. */
  function MsbBits(w: seq<Byte>): seq<Bit> {
    if w == [] then [] else CodeBits(w[0], 8) + MsbBits(w[1..])
  }

  /** Bit `k` of a stream that is followed by zeros. */
  function Padded(s: seq<Bit>, k: nat): Bit { if k < |s| then s[k] else 0 }

  function Drop(s: seq<Bit>, n: nat): seq<Bit> { if n <= |s| then s[n..] else [] }

  /** The top bit of a code, and the rest of it. */
  lemma {:induction false} TopBit(v: nat, n: nat)
    ensures CodeBits(v, n + 1) == [Inflate.Shr(v, n) % 2] + CodeBits(v, n)
    decreases n
  {
    if n > 0 {
      TopBit(v / 2, n - 1);
      Inflate.ShrTail(v, n - 1);
      assert CodeBits(v, n + 1) == ([Inflate.Shr(v, n) % 2] + CodeBits(v / 2, n - 1)) + [v % 2];
    }
  }

  lemma PastEnd()
    ensures Padded([], 0) == 0 && Drop([], 1) == []
  {
  }

  lemma TopTaken(v: nat, n: nat, rest: seq<Bit>)
    requires n > 0
    ensures Padded(CodeBits(v, n) + rest, 0) == Inflate.Shr(v, n - 1) % 2
    ensures Drop(CodeBits(v, n) + rest, 1) == CodeBits(v, n - 1) + rest
  {
    hide CodeBits;
    TopBit(v, n - 1);
  }

  /** The bits of a segment, one byte on. */
  lemma NextByte(d: seq<Byte>, pos: nat)
    ensures MsbBits(Segment(d, pos))
            == if pos >= |d| then []
               else if d[pos] != 0xFF then CodeBits(d[pos], 8) + MsbBits(Segment(d, pos + 1))
               else if pos + 1 < |d| && d[pos + 1] == 0 then CodeBits(0xFF, 8) + MsbBits(Segment(d, pos + 2))
               else []
  {
    hide CodeBits;
    if pos < |d| && d[pos] != 0xFF { assert Segment(d, pos)[1..] == Segment(d, pos + 1); }
    if pos + 1 < |d| && d[pos] == 0xFF && d[pos + 1] == 0 { assert Segment(d, pos)[1..] == Segment(d, pos + 2); }
  }

  lemma NoBits(v: nat)
    ensures CodeBits(v, 0) == []
  {
  }

  class BitReader {
    const data: seq<Byte>
    var pos: nat
    var bitbuf: nat
    var bits: nat

    /** The bits still to come, before the zero padding. */
    ghost function Rest(): seq<Bit>
      reads this
    {
      CodeBits(bitbuf, bits) + MsbBits(Segment(data, pos))
    }

    constructor (data: seq<Byte>, pos: nat)
      ensures this.data == data && Rest() == MsbBits(Segment(data, pos))
    {
      this.data, this.pos, bitbuf, bits := data, pos, 0, 0;
    }

    /** Takes the next byte into the buffer, unless the data have ended. */
    method Refill() returns (more: bool)
      requires bits == 0
      modifies this
      ensures Rest() == old(Rest()) && (if more then bits == 8 else bits == 0 && Rest() == [])
    {
      hide CodeBits, Segment, MsbBits;
      NextByte(data, pos);
      NoBits(bitbuf);
      if pos >= |data| { return false; }
      var byte := data[pos];
      if byte == 0xFF {
        if pos + 1 >= |data| || data[pos + 1] != 0 { return false; }
        bitbuf := 0xFF;
        pos := pos + 2;
      } else {
        bitbuf := byte;
        pos := pos + 1;
      }
      bits := 8;
      return true;
    }

    /** The next bit; a zero at a marker or at the end of the data. */
    method NextBit() returns (b: Bit)
      modifies this
      ensures b == Padded(old(Rest()), 0) && Rest() == Drop(old(Rest()), 1)
    {
      hide CodeBits, Segment, MsbBits, Padded, Drop;
      if bits == 0 {
        var more := Refill();
        if !more {
          PastEnd();
          return 0;
        }
      }
      TopTaken(bitbuf, bits, MsbBits(Segment(data, pos)));
      bits := bits - 1;
      b := Inflate.Shr(bitbuf, bits) % 2;
    }

    /** The decoder: the result, and as many bits taken as the specification takes. */
    method Huff(t: Table81) returns (r: Result<Byte, JpegError>)
      requires TableShape(t)
      modifies this
      ensures r == Read(t, old(Rest()), 1, 0).0
      ensures Rest() == Drop(old(Rest()), Read(t, old(Rest()), 1, 0).1)
    {
      hide CodeBits, MsbBits, Segment, Drop, Padded, Read;
      ghost var s := Rest();
      ghost var whole := Read(t, s, 1, 0);
      var code: nat := 0;
      DropNone(s);
      for l := 1 to 17
        invariant Rest() == Drop(s, l - 1) && whole == Read(t, s, l, code)
      {
        ReadOne(t, s, l, code);
        DropStep(s, l - 1);
        var b := NextBit();
        code := 2 * code + b;
        if t.maxcode[l] >= 0 && t.mincode[l] <= code <= t.maxcode[l] {
          var idx := t.valptr[l] + (code - t.mincode[l]);
          return if 0 <= idx < |t.vals| then Ok(t.vals[idx]) else Err(IndexOutOfRange);
        }
      }
      ReadEnds(t, s, code);
      return Err(InvalidCode);
    }
  }

  lemma ReadOne(t: Table81, s: seq<Bit>, l: nat, code: nat)
    requires TableShape(t) && 1 <= l <= 16
    ensures Read(t, s, l, code)
            == var code' := 2 * code + Padded(s, l - 1);
               if t.maxcode[l] >= 0 && t.mincode[l] <= code' <= t.maxcode[l] then
                 var idx := t.valptr[l] + (code' - t.mincode[l]);
                 (if 0 <= idx < |t.vals| then Ok(t.vals[idx]) else Err(IndexOutOfRange), l)
               else Read(t, s, l + 1, code')
  {
  }

  lemma ReadEnds(t: Table81, s: seq<Bit>, code: nat)
    requires TableShape(t)
    ensures Read(t, s, 17, code) == (Err(InvalidCode), 16)
  {
  }

  lemma DropNone(s: seq<Bit>)
    ensures Drop(s, 0) == s
  {
  }

  lemma DropStep(s: seq<Bit>, k: nat)
    ensures Drop(Drop(s, k), 1) == Drop(s, k + 1) && Padded(Drop(s, k), 0) == Padded(s, k)
  {
  }

  // ---------------------------------------------------------------- decoding

  predicate TableShape(t: Table81) { |t.mincode| == |t.maxcode| == |t.valptr| == 17 }

  /** Decoding from length `l` on, with the code read so far: the outcome and the bits taken. */
  function Read(t: Table81, s: seq<Bit>, l: nat, code: nat): (Result<Byte, JpegError>, nat)
    requires TableShape(t) && 1 <= l <= 17
    decreases 17 - l
  {
    if l == 17 then (Err(InvalidCode), 16)
    else
      var code' := 2 * code + Padded(s, l - 1);
      if t.maxcode[l] >= 0 && t.mincode[l] <= code' <= t.maxcode[l] then
        var idx := t.valptr[l] + (code' - t.mincode[l]);
        (if 0 <= idx < |t.vals| then Ok(t.vals[idx]) else Err(IndexOutOfRange), l)
      else Read(t, s, l + 1, code')
  }

  /** The stream, padded, starts with the `len` bits of `code`. */
  predicate Spells(s: seq<Bit>, code: nat, len: nat) {
    |CodeBits(code, len)| == len && forall k :: 0 <= k < len ==> Padded(s, k) == CodeBits(code, len)[k]
  }

  /** What a code of length `len` decodes to. */
  function ValueOf(t: Table81, c: Counts, code: nat, len: nat): Result<Byte, JpegError>
    requires len < |c| && First(c, len) <= code
  {
    var idx := Index(c, len) + code - First(c, len);
    if idx < |t.vals| then Ok(t.vals[idx]) else Err(IndexOutOfRange)
  }

  /** The bit that takes the code from `l - 1` of its bits to `l`. */
  lemma NextSpelled(s: seq<Bit>, code: nat, len: nat, l: nat)
    requires 1 <= l <= len && Spells(s, code, len)
    ensures 2 * Shorten(code, len, l - 1) + Padded(s, l - 1) == Shorten(code, len, l)
  {
    hide CodeBits, Shorten;
    ShortenStep(code, len, l - 1);
  }

  lemma {:induction false} ReadsCode(t: Table81, c: Counts, s: seq<Bit>, code: nat, len: nat, l: nat)
    requires Built(t, c) && 1 <= l <= len <= 16 && Spells(s, code, len)
    requires First(c, len) <= code < First(c, len) + c[len]
    ensures Read(t, s, l, Shorten(code, len, l - 1)) == (ValueOf(t, c, code, len), len)
    decreases len - l
  {
    hide CodeBits, Index, First, Spells, Padded;
    NextSpelled(s, code, len, l);
    if l < len {
      ShortenBeyond(c, code, len, l);
      ReadsCode(t, c, s, code, len, l + 1);
    }
  }

  /** Decoding a canonical code gives the value it was assigned (annex C) and takes exactly its
      bits; padding zeros may complete the last code. */
  lemma HuffInvertsCode(t: Table81, c: Counts, s: seq<Bit>, code: nat, len: nat)
    requires Built(t, c) && 1 <= len <= 16 && Spells(s, code, len) && code < Pow2(len)
    requires First(c, len) <= code < First(c, len) + c[len]
    ensures Read(t, s, 1, 0) == (ValueOf(t, c, code, len), len)
  {
    ShortenTop(code, len);
    ReadsCode(t, c, s, code, len, 1);
  }

  // ---------------------------------------------------------------- the two decoders agree

  /** The same code lengths as a JPEG table and as a deflate table, with the same values in order. */
  predicate SameTable(t: Table81, bits: seq<Byte>, h: Table) {
    && |bits| == 16 && TableOk(h) && Built(t, CountsFrom(bits)) && CountsFrom(bits) == h.counts + [0]
    && |t.vals| == Index(h.counts, 16) && forall k :: 0 <= k < |t.vals| ==> h.symbols[k] == t.vals[k]
  }

  lemma {:induction false} SameCodes(c: Counts, d: Counts, l: nat)
    requires c == d + [0] && l <= |d|
    ensures First(c, l) == First(d, l) && Index(c, l) == Index(d, l)
  {
    if l > 1 { SameCodes(c, d, l - 1); }
  }

  /** What the JPEG table says about a length, in terms of the deflate table. */
  lemma SameAt(t: Table81, bits: seq<Byte>, h: Table, l: nat)
    requires SameTable(t, bits, h) && 1 <= l < 16
    ensures t.mincode[l] == First(h.counts, l) && t.valptr[l] == Index(h.counts, l)
    ensures t.maxcode[l] == if h.counts[l] == 0 then -1 else First(h.counts, l) + h.counts[l] - 1
  {
    hide First, Index;
    SameCodes(CountsFrom(bits), h.counts, l);
    assert CountsFrom(bits)[l] == h.counts[l];
  }

  lemma NoneLonger(t: Table81, bits: seq<Byte>, h: Table)
    requires SameTable(t, bits, h)
    ensures t.maxcode[16] == -1
  {
    hide First, Index;
    assert CountsFrom(bits)[16] == 0;
  }

  lemma ShapeOf(t: Table81, bits: seq<Byte>, h: Table)
    requires SameTable(t, bits, h)
    ensures TableShape(t) && TableOk(h) && |h.counts| == 16 && |t.vals| == Index(h.counts, 16) <= |h.symbols|
    ensures forall k :: 0 <= k < |t.vals| ==> h.symbols[k] == t.vals[k]
  {
  }

  /** One step of the deflate decoder. */
  lemma DecodeStep(h: Table, s: seq<Bit>, p: nat, l: nat, code: nat)
    requires TableOk(h) && 1 <= l < 16 && First(h.counts, l) <= code && p < |s|
    ensures First(h.counts, l + 1) == 2 * (First(h.counts, l) + h.counts[l])
    ensures var k := code + s[p] - First(h.counts, l);
            if k < h.counts[l] then
              Index(h.counts, l) + k < |h.symbols|
              && DecodeFrom(h, s, p, l, code) == Ok((h.symbols[Index(h.counts, l) + k], p + 1))
            else DecodeFrom(h, s, p, l, code) == DecodeFrom(h, s, p + 1, l + 1, 2 * (code + s[p]))
  {
    hide First, Index;
    FirstStep(h.counts, l);
    IndexMonotone(h.counts, l, 16);
  }

  lemma DecodeEnds(h: Table, s: seq<Bit>, p: nat, l: nat, code: nat)
    requires TableOk(h) && 1 <= l <= 16 && First(h.counts, l) <= code
    ensures l == 16 ==> DecodeFrom(h, s, p, l, code) == Err(BadCode)
    ensures l < 16 && p >= |s| ==> DecodeFrom(h, s, p, l, code) == Err(Truncated)
  {
    hide First, Index;
  }

  /** One step of the JPEG decoder, and its end. */
  lemma ReadStep(t: Table81, s: seq<Bit>, l: nat, code: nat)
    requires TableShape(t) && 1 <= l <= 16
    ensures var code' := 2 * code + Padded(s, l - 1);
            if t.maxcode[l] >= 0 && t.mincode[l] <= code' <= t.maxcode[l] then
              var idx := t.valptr[l] + (code' - t.mincode[l]);
              Read(t, s, l, code) == (if 0 <= idx < |t.vals| then Ok(t.vals[idx]) else Err(IndexOutOfRange), l)
            else Read(t, s, l, code) == if l == 16 then (Err(InvalidCode), 16) else Read(t, s, l + 1, code')
  {
  }

  lemma {:induction false} ReadAgrees(t: Table81, bits: seq<Byte>, h: Table, s: seq<Bit>, l: nat, code: nat)
    requires SameTable(t, bits, h) && 1 <= l <= 16 && First(h.counts, l) <= 2 * code
    ensures match DecodeFrom(h, s, l - 1, l, 2 * code)
            case Ok(v) => Read(t, s, l, code) == (Ok(v.0), v.1)
            case Err(e) => e == Truncated || Read(t, s, l, code) == (Err(InvalidCode), 16)
    decreases 16 - l
  {
    hide First, Index, SameTable, DecodeFrom, Read;
    ShapeOf(t, bits, h);
    ReadStep(t, s, l, code);
    if l == 16 || l - 1 >= |s| {
      DecodeEnds(h, s, l - 1, l, 2 * code);
      NoneLonger(t, bits, h);
    } else {
      SameAt(t, bits, h, l);
      DecodeStep(h, s, l - 1, l, 2 * code);
      var code' := 2 * code + s[l - 1];
      if code' - First(h.counts, l) < h.counts[l] {
        IndexMonotone(h.counts, l, 16);
      } else {
        ReadAgrees(t, bits, h, s, l + 1, code');
      }
    }
  }

  /** On the same codes both decoders read the same symbol from the same bits, and refuse the same
      bits; only at the end of the data do they part, where JPEG pads with zeros. */
  lemma DecodersAgree(t: Table81, bits: seq<Byte>, h: Table, s: seq<Bit>)
    requires SameTable(t, bits, h) && Decode(h, s, 0) != Err(Truncated)
    ensures match Decode(h, s, 0)
            case Ok(v) => Read(t, s, 1, 0) == (Ok(v.0), v.1)
            case Err(e) => Read(t, s, 1, 0) == (Err(InvalidCode), 16)
  {
    FirstStep(h.counts, 0);
    ReadAgrees(t, bits, h, s, 1, 0);
  }
}
