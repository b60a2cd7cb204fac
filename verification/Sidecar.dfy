/** The completion sidecar of a partial download: a header and one bit per chunk. */
module Sidecar {
  import opened Bytes
  import opened Huffman
  import opened Inflate
  import opened LittleEndian

  const META_MAGIC: nat := 0x414d_4943
  const META_VERSION: nat := 2

  // ---------------------------------------------------------------- the bitmap

  function BoolBit(b: bool): Bit { if b then 1 else 0 }

  /** Up to eight bits as a byte, the first lowest. */
  function Pack(bits: seq<bool>): nat { if bits == [] then 0 else BoolBit(bits[0]) + 2 * Pack(bits[1..]) }

  lemma {:induction false} PackSmall(bits: seq<bool>)
    ensures Pack(bits) < Pow2(|bits|)
  {
    if bits != [] { PackSmall(bits[1..]); }
  }

  lemma {:induction false} PackSnoc(bits: seq<bool>, b: bool)
    ensures Pack(bits + [b]) == Pack(bits) + if b then Pow2(|bits|) else 0
  {
    if bits != [] {
      PackSnoc(bits[1..], b);
      assert (bits + [b])[1..] == bits[1..] + [b];
    }
  }

  lemma {:induction false} PackBit(bits: seq<bool>, k: nat)
    requires k < |bits|
    ensures Shr(Pack(bits), k) % 2 == BoolBit(bits[k])
  {
    var rest := Pack(bits[1..]);
    assert Pack(bits) == BoolBit(bits[0]) + 2 * rest;
    assert Pack(bits) / 2 == rest && Pack(bits) % 2 == BoolBit(bits[0]);
    if k > 0 {
      hide Pack, Shr;
      ShrTail(Pack(bits), k - 1);
      PackBit(bits[1..], k - 1);
    }
  }

  /** The bits of byte `k` of the bitmap. */
  function Group(bits: seq<bool>, k: nat): (g: seq<bool>)
    ensures |g| <= 8
  {
    if 8 * k >= |bits| then []
    else if 8 * k + 8 <= |bits| then bits[8 * k..8 * k + 8]
    else bits[8 * k..]
  }

  function PackByte(g: seq<bool>): Byte
    requires |g| <= 8
  {
    PackSmall(g);
    assert Pow2(|g|) <= 256 by { Pow8(|g|); }
    Pack(g)
  }

  lemma Pow8(n: nat)
    requires n <= 8
    ensures Pow2(n) <= 256
  {
    assert Pow2(2) == 4 && Pow2(4) == 16 && Pow2(6) == 64 && Pow2(8) == 256;
  }

  /** One bit per chunk, lowest bit first, in `size` bytes. */
  function Bitmap(bits: seq<bool>, size: nat): (m: seq<Byte>)
    ensures |m| == size
  {
    seq(size, k requires 0 <= k < size => PackByte(Group(bits, k)))
  }

  function DivCeil8(n: nat): nat { (n + 7) / 8 }

  lemma BitmapBit(bits: seq<bool>, size: nat, i: nat)
    requires i < |bits| && size == DivCeil8(|bits|)
    ensures i / 8 < size && BitOf(Bitmap(bits, size)[i / 8], i % 8) == BoolBit(bits[i])
  {
    PackBit(Group(bits, i / 8), i % 8);
  }

  // ---------------------------------------------------------------- writing and reading

  /** The file for a download of `size` bytes in chunks of `chunk`. */
  function Encoded(size: nat, chunk: nat, bits: seq<bool>): seq<Byte> {
    ToLe(META_MAGIC, 4) + (ToLe(META_VERSION, 4) + (ToLe(size, 8) + (ToLe(chunk, 8)
    + (ToLe(|bits| % Pow256(4), 4) + Bitmap(bits, DivCeil8(|bits|))))))
  }

  /** The loop that sets the bits. */
  method MetaWrite(size: nat, chunk: nat, bits: seq<bool>) returns (buf: seq<Byte>)
    ensures buf == Encoded(size, chunk, bits)
  {
    hide Bitmap, BitOf, Group, Pow2, PackByte;
    var n: nat := |bits|;
    var map' := new Byte[DivCeil8(n)](_ => 0);
    EmptyBitmap(DivCeil8(n));
    for i := 0 to n
      invariant map'[..] == Bitmap(bits[..i], DivCeil8(n))
    {
      BitmapSnoc(bits[..i], DivCeil8(n), bits[i]);
      PackedSnoc(Group(bits[..i], i / 8), bits[i]);
      assert bits[..i] + [bits[i]] == bits[..i + 1];
      if bits[i] { map'[i / 8] := map'[i / 8] + Pow2(i % 8); }
    }
    assert bits[..n] == bits;
    buf := ToLe(META_MAGIC, 4) + (ToLe(META_VERSION, 4) + (ToLe(size, 8) + (ToLe(chunk, 8)
           + (ToLe(n % Pow256(4), 4) + map'[..]))));
  }

  lemma EmptyBitmap(size: nat)
    ensures Bitmap([], size) == seq(size, _ => 0)
  {
  }

  lemma GroupSnoc(bits: seq<bool>, b: bool, j: nat)
    ensures Group(bits + [b], j) == if j == |bits| / 8 then Group(bits, j) + [b] else Group(bits, j)
    ensures j == |bits| / 8 ==> |Group(bits, j)| == |bits| % 8
  {
  }

  /** One more bit changes one byte. */
  lemma BitmapSnoc(bits: seq<bool>, size: nat, b: bool)
    requires |bits| < 8 * size
    ensures var k := |bits| / 8;
            && k < size && |Group(bits, k)| == |bits| % 8 && Bitmap(bits, size)[k] == PackByte(Group(bits, k))
            && Bitmap(bits + [b], size) == Bitmap(bits, size)[k := PackByte(Group(bits, k) + [b])]
  {
    hide Pow2, PackByte, Group;
    var k := |bits| / 8;
    GroupSnoc(bits, b, k);
    forall j | 0 <= j < size ensures Group(bits + [b], j) == if j == k then Group(bits, j) + [b] else Group(bits, j) {
      GroupSnoc(bits, b, j);
    }
  }

  lemma PackedSnoc(g: seq<bool>, b: bool)
    requires |g| < 8
    ensures PackByte(g) as int + Pow2(|g|) < 256
    ensures PackByte(g + [b]) as int == PackByte(g) as int + if b then Pow2(|g|) else 0
  {
    PackSnoc(g, b);
    PackSnoc(g, true);
    PackSmall(g + [true]);
    Pow8(|g| + 1);
  }

  /** The sidecar's bits, or nothing if it is malformed or describes another download. */
  method MetaRead(buf: seq<Byte>, size: nat, chunk: nat, n: nat) returns (r: Option<seq<bool>>)
    ensures r == Read(buf, size, chunk, n)
  {
    hide Le, BitOf;
    if |buf| != 28 + DivCeil8(n) { return None; }
    if Le(buf[0..4]) != META_MAGIC || Le(buf[4..8]) != META_VERSION { return None; }
    if Le(buf[8..16]) != size || Le(buf[16..24]) != chunk || Le(buf[24..28]) != n % Pow256(4) { return None; }
    return Some(seq(n, i requires 0 <= i < n => BitOf(buf[28 + i / 8], i % 8) == 1));
  }

  function Read(buf: seq<Byte>, size: nat, chunk: nat, n: nat): Option<seq<bool>> {
    if |buf| != 28 + DivCeil8(n) then None
    else if Le(buf[0..4]) != META_MAGIC || Le(buf[4..8]) != META_VERSION then None
    else if Le(buf[8..16]) != size || Le(buf[16..24]) != chunk || Le(buf[24..28]) != n % Pow256(4) then None
    else Some(seq(n, i requires 0 <= i < n => BitOf(buf[28 + i / 8], i % 8) == 1))
  }

  /** The chunk size a sidecar names. */
  function ChunkIn(buf: seq<Byte>): nat { if |buf| >= 24 then Le(buf[16..24]) else 0 }

  lemma ReadChunk(buf: seq<Byte>, size: nat, chunk: nat, n: nat)
    requires Read(buf, size, chunk, n).Some?
    ensures ChunkIn(buf) == chunk
  {
  }

  predicate Fits(size: nat, chunk: nat, n: nat) { size < Pow256(8) && chunk < Pow256(8) && n < Pow256(4) }

  /** The parts of a written sidecar. */
  lemma EncodedParts(size: nat, chunk: nat, bits: seq<bool>)
    requires |bits| < Pow256(4)
    ensures var e := Encoded(size, chunk, bits);
            && |e| == 28 + DivCeil8(|bits|)
            && e[0..4] == ToLe(META_MAGIC, 4) && e[4..8] == ToLe(META_VERSION, 4) && e[8..16] == ToLe(size, 8)
            && e[16..24] == ToLe(chunk, 8) && e[24..28] == ToLe(|bits|, 4) && e[28..] == Bitmap(bits, DivCeil8(|bits|))
  {
    hide ToLe, Pow256, Bitmap, DivCeil8;
    var m := Bitmap(bits, DivCeil8(|bits|));
    assert |bits| % Pow256(4) == |bits|;
    FiveAndRest(ToLe(META_MAGIC, 4), ToLe(META_VERSION, 4), ToLe(size, 8), ToLe(chunk, 8), ToLe(|bits|, 4), m);
  }

  lemma FiveAndRest(a: seq<Byte>, b: seq<Byte>, c: seq<Byte>, d: seq<Byte>, f: seq<Byte>, m: seq<Byte>)
    requires |a| == |b| == |f| == 4 && |c| == |d| == 8
    ensures var e := a + (b + (c + (d + (f + m))));
            && |e| == 28 + |m| && e[0..4] == a && e[4..8] == b && e[8..16] == c && e[16..24] == d && e[24..28] == f
            && e[28..] == m
  {
    var t := d + (f + m);
    var e := a + (b + (c + t));
    assert e[16..] == t by { ThreeAndRest(a, b, c, t); }
    assert e[16..24] == t[..8] && e[24..28] == t[8..12] && e[28..] == t[12..];
    assert e[0..4] == a && e[4..8] == b && e[8..16] == c by { ThreeAndRest(a, b, c, t); }
  }

  lemma ThreeAndRest(a: seq<Byte>, b: seq<Byte>, c: seq<Byte>, t: seq<Byte>)
    requires |a| == |b| == 4 && |c| == 8
    ensures var e := a + (b + (c + t));
            |e| == 16 + |t| && e[0..4] == a && e[4..8] == b && e[8..16] == c && e[16..] == t
  {
  }

  /** The fields of a written sidecar. */
  lemma EncodedFields(size: nat, chunk: nat, bits: seq<bool>)
    requires Fits(size, chunk, |bits|)
    ensures var e := Encoded(size, chunk, bits);
            && |e| == 28 + DivCeil8(|bits|)
            && Le(e[0..4]) == META_MAGIC && Le(e[4..8]) == META_VERSION && Le(e[8..16]) == size
            && Le(e[16..24]) == chunk && Le(e[24..28]) == |bits| && e[28..] == Bitmap(bits, DivCeil8(|bits|))
  {
    hide Le, ToLe, Pow256, Bitmap, DivCeil8, Encoded;
    EncodedParts(size, chunk, bits);
    MagicFits();
    LeInverts(META_MAGIC, 4);
    LeInverts(META_VERSION, 4);
    LeInverts(size, 8);
    LeInverts(chunk, 8);
    LeInverts(|bits|, 4);
  }

  lemma MagicFits()
    ensures META_MAGIC < Pow256(4) && META_VERSION < Pow256(4)
  {
    assert Pow256(2) == 65536 && Pow256(4) == 0x1_0000_0000;
  }

  /** A sidecar reads back as what was written, and only for the same size and chunking. */
  lemma ReadInvertsWrite(size: nat, chunk: nat, bits: seq<bool>, size': nat, chunk': nat, n': nat)
    requires Fits(size, chunk, |bits|) && n' < Pow256(4)
    ensures Read(Encoded(size, chunk, bits), size', chunk', n')
            == if size' == size && chunk' == chunk && n' == |bits| then Some(bits) else None
  {
    hide Le, ToLe, Pow256, Bitmap, Encoded, BitOf;
    var e := Encoded(size, chunk, bits);
    EncodedFields(size, chunk, bits);
    assert n' % Pow256(4) == n';
    if size' == size && chunk' == chunk && n' == |bits| {
      forall i | 0 <= i < n' ensures (BitOf(e[28 + i / 8], i % 8) == 1) == bits[i] {
        BitmapBit(bits, DivCeil8(n'), i);
        assert e[28 + i / 8] == e[28..][i / 8];
      }
      assert seq(n', i requires 0 <= i < n' => BitOf(e[28 + i / 8], i % 8) == 1) == bits;
    }
  }

  lemma ReadBits(buf: seq<Byte>, size: nat, chunk: nat, n: nat, i: nat)
    requires Read(buf, size, chunk, n).Some? && i < n
    ensures |Read(buf, size, chunk, n).value| == n && 28 + i / 8 < |buf|
    ensures BitOf(buf[28 + i / 8], i % 8) == BoolBit(Read(buf, size, chunk, n).value[i])
  {
    hide Le, Pow256, BitOf;
  }

  lemma ReadHeader(buf: seq<Byte>, size: nat, chunk: nat, n: nat)
    requires n < Pow256(4) && Read(buf, size, chunk, n).Some?
    ensures |Read(buf, size, chunk, n).value| == n && |buf| == 28 + DivCeil8(n) && Fits(size, chunk, n)
    ensures buf[0..4] == ToLe(META_MAGIC, 4) && buf[4..8] == ToLe(META_VERSION, 4) && buf[8..16] == ToLe(size, 8)
    ensures buf[16..24] == ToLe(chunk, 8) && buf[24..28] == ToLe(n, 4)
  {
    hide Le, ToLe, Pow256, BitOf;
    assert n % Pow256(4) == n;
    FieldIs(buf, 0, 4);
    FieldIs(buf, 4, 8);
    FieldIs(buf, 8, 16);
    FieldIs(buf, 16, 24);
    FieldIs(buf, 24, 28);
  }

  lemma FieldIs(buf: seq<Byte>, i: nat, j: nat)
    requires i <= j <= |buf|
    ensures ToLe(Le(buf[i..j]), j - i) == buf[i..j] && Le(buf[i..j]) < Pow256(j - i)
  {
    hide Le, ToLe, Pow256;
    ToLeInverts(buf[i..j]);
  }

  /** Whatever is accepted was written for this download, up to the bits after the last chunk's. */
  lemma ReadFindsWritten(buf: seq<Byte>, size: nat, chunk: nat, n: nat)
    requires n < Pow256(4) && Read(buf, size, chunk, n).Some?
    ensures var bits := Read(buf, size, chunk, n).value;
            && Fits(size, chunk, n) && |bits| == n && |buf| == |Encoded(size, chunk, bits)| >= 28
            && buf[..28] == Encoded(size, chunk, bits)[..28]
            && forall i :: 0 <= i < n ==> 28 + i / 8 < |buf| && BitOf(buf[28 + i / 8], i % 8) == BoolBit(bits[i])
  {
    hide Le, ToLe, Pow256, Bitmap, BitOf, Encoded, Read, Fits;
    var bits := Read(buf, size, chunk, n).value;
    ReadHeader(buf, size, chunk, n);
    EncodedParts(size, chunk, bits);
    FiveFields(buf);
    FiveFields(Encoded(size, chunk, bits));
    forall i | 0 <= i < n ensures 28 + i / 8 < |buf| && BitOf(buf[28 + i / 8], i % 8) == BoolBit(bits[i]) {
      ReadBits(buf, size, chunk, n, i);
    }
  }

  lemma FiveFields(b: seq<Byte>)
    requires |b| >= 28
    ensures b[..28] == b[0..4] + b[4..8] + b[8..16] + b[16..24] + b[24..28]
  {
  }

  /** The layout: "CIMA", version 2, the size, the chunk size and the count, lowest byte first, then bit
      `i % 8` of byte `28 + i / 8` for chunk `i`. */
  lemma Layout(size: nat, chunk: nat, bits: seq<bool>)
    requires |bits| < Pow256(4)
    ensures var e := Encoded(size, chunk, bits);
            && |e| == 28 + (|bits| + 7) / 8 && e[0..4] == Ascii("CIMA") && e[4..8] == [2, 0, 0, 0]
            && e[8..16] == ToLe(size, 8) && e[16..24] == ToLe(chunk, 8) && e[24..28] == ToLe(|bits|, 4)
            && forall i :: 0 <= i < |bits| ==> e[28 + i / 8] / Pow2(i % 8) % 2 == if bits[i] then 1 else 0
  {
    hide Encoded, Bitmap, Pow2, Shr;
    var e, m := Encoded(size, chunk, bits), Bitmap(bits, DivCeil8(|bits|));
    EncodedParts(size, chunk, bits);
    MagicBytes();
    forall i | 0 <= i < |bits| ensures e[28 + i / 8] / Pow2(i % 8) % 2 == if bits[i] then 1 else 0 {
      BitmapBit(bits, DivCeil8(|bits|), i);
      ShrDivides(m[i / 8], i % 8);
      assert e[28..][i / 8] == e[28 + i / 8];
    }
  }

  lemma MagicBytes()
    ensures ToLe(META_MAGIC, 4) == Ascii("CIMA") && ToLe(META_VERSION, 4) == [2, 0, 0, 0]
  {
    assert ToLe(0, 0) == [] && ToLe(0, 1) == [0] && ToLe(0, 2) == [0, 0] && ToLe(0, 3) == [0, 0, 0];
    assert ToLe(0x41, 1) == [0x41] && ToLe(0x414D, 2) == [0x4D, 0x41] && ToLe(0x414D49, 3) == [0x49, 0x4D, 0x41];
  }
}
