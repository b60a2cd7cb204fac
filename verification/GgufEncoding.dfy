/** GGUF headers written from the format's description, and why the reader inverts them. */
module GgufEncoding {
  import opened Bytes
  import opened LittleEndian
  import opened GgufHeader
  import opened Search

  // ---------------------------------------------------------------- the format

  /** A metadata value with its type; `w` is a width in bytes. A boolean is any byte, true unless 0. */
  datatype Typed =
    | UInt(w: nat, u: nat)
    | SInt(w: nat, i: int)
    | Float32(bits: nat)
    | Float64(bits: nat)
    | Boolean(v: Byte)
    | Text(s: seq<Byte>)
    | List(ty: nat, elems: seq<Typed>)

  function TypeId(x: Typed): nat {
    match x
    case UInt(w, _) => if w == 1 then 0 else if w == 2 then 2 else if w == 4 then 4 else 10
    case SInt(w, _) => if w == 1 then 1 else if w == 2 then 3 else if w == 4 then 5 else 11
    case Float32(_) => 6
    case Boolean(_) => 7
    case Text(_) => 8
    case List(_, _) => 9
    case Float64(_) => 12
  }

  predicate IntWidth(w: nat) { w == 1 || w == 2 || w == 4 || w == 8 }

  /** Values in range, text of at most 2^24 bytes, lists of at most 2^26 values of one type, nested no more
      than two deep. */
  predicate TypedOk(x: Typed, depth: nat)
    decreases x
  {
    && depth <= 2
    && match x
       case UInt(w, u) => IntWidth(w) && u < Pow256(w)
       case SInt(w, i) => IntWidth(w) && -(Pow256(w) as int) <= 2 * i < Pow256(w)
       case Float32(bits) => bits < Pow256(4)
       case Float64(bits) => bits < Pow256(8)
       case Boolean(_) => true
       case Text(s) => |s| <= 16777216
       case List(ty, elems) =>
         ty < Pow256(4) && |elems| <= 67108864
         && forall k :: 0 <= k < |elems| ==> TypeId(elems[k]) == ty && TypedOk(elems[k], depth + 1)
  }

  function TextBytes(s: seq<Byte>): seq<Byte> { ToLe(|s|, 8) + s }

  function TwosComplement(i: int, w: nat): nat
    requires -(Pow256(w) as int) <= i
  {
    if i < 0 then i + Pow256(w) else i
  }

  function ValueBytes(x: Typed): seq<Byte>
    decreases x
  {
    match x
    case UInt(w, u) => ToLe(u, w)
    case SInt(w, i) => if -(Pow256(w) as int) <= i then ToLe(TwosComplement(i, w), w) else []
    case Float32(bits) => ToLe(bits, 4)
    case Float64(bits) => ToLe(bits, 8)
    case Boolean(v) => [v]
    case Text(s) => TextBytes(s)
    case List(ty, elems) => ToLe(ty, 4) + (ToLe(|elems|, 8) + ListBytes(elems, 0))
  }

  function ListBytes(xs: seq<Typed>, k: nat): seq<Byte>
    requires k <= |xs|
    decreases xs, |xs| - k
  {
    if k == |xs| then [] else ValueBytes(xs[k]) + ListBytes(xs, k + 1)
  }

  /** What the value means. */
  function Meaning(x: Typed): Value
    decreases x
  {
    match x
    case UInt(_, u) => U64(u)
    case SInt(_, i) => I64(i)
    case Float32(bits) => F32Bits(bits)
    case Float64(bits) => F64Bits(bits)
    case Boolean(v) => Bool(v != 0)
    case Text(s) => Str(s)
    case List(_, elems) => Arr(seq(|elems|, k requires 0 <= k < |elems| => Meaning(elems[k])))
  }

  datatype Pair = Pair(key: seq<Byte>, val: Typed)

  predicate PairOk(x: Pair) { |x.key| <= 16777216 && TypedOk(x.val, 0) }

  function PairBytes(x: Pair): seq<Byte> { TextBytes(x.key) + (ToLe(TypeId(x.val), 4) + ValueBytes(x.val)) }

  function PairsBytes(xs: seq<Pair>): seq<Byte> { if xs == [] then [] else PairBytes(xs[0]) + PairsBytes(xs[1..]) }

  /** The last pair with a key counts. */
  function MetaOf(xs: seq<Pair>, meta: Meta): Meta
    decreases |xs|
  {
    if xs == [] then meta else MetaOf(xs[1..], meta[xs[0].key := Meaning(xs[0].val)])
  }

  /** Ids of the tensor types the engine executes. */
  function DtypeId(t: DType): nat {
    match t
    case F32 => 0 case F16 => 1 case Q4_0 => 2 case Q4_1 => 3 case Q5_0 => 6 case Q5_1 => 7 case Q8_0 => 8
    case Q4K => 12 case Q5K => 13 case Q6K => 14 case IQ4XS => 23 case BF16 => 30
  }

  predicate RecordOk(r: Record) {
    && |r.tensor.name| <= 16777216 && |r.tensor.dims| <= 4 && r.off < Pow256(8)
    && forall k :: 0 <= k < |r.tensor.dims| ==> r.tensor.dims[k] < Pow256(8)
  }

  /** Dimensions innermost, that is last, first. */
  function DimsBytes(dims: seq<nat>): seq<Byte> {
    if dims == [] then [] else ToLe(dims[|dims| - 1], 8) + DimsBytes(dims[..|dims| - 1])
  }

  function RecordBytes(r: Record): seq<Byte> {
    TextBytes(r.tensor.name) + (ToLe(|r.tensor.dims|, 4) + (DimsBytes(r.tensor.dims)
    + (ToLe(DtypeId(r.tensor.dtype), 4) + ToLe(r.off, 8))))
  }

  function RecordsBytes(rs: seq<Record>): seq<Byte> {
    if rs == [] then [] else RecordBytes(rs[0]) + RecordsBytes(rs[1..])
  }

  predicate HeaderOk(version: nat, xs: seq<Pair>, rs: seq<Record>) {
    && 2 <= version <= 3 && |xs| <= 1048576 && |rs| <= 1048576
    && (forall k :: 0 <= k < |xs| ==> PairOk(xs[k])) && (forall k :: 0 <= k < |rs| ==> RecordOk(rs[k]))
  }

  function HeaderBytes(version: nat, xs: seq<Pair>, rs: seq<Record>): seq<Byte> {
    MAGIC + (ToLe(version, 4) + (ToLe(|rs|, 8) + (ToLe(|xs|, 8) + (PairsBytes(xs) + RecordsBytes(rs)))))
  }

  lemma Spelled()
    ensures MAGIC == Ascii("GGUF")
  {
  }

  // ---------------------------------------------------------------- reading inverts writing

  lemma StandsSplit(b: seq<Byte>, p: nat, x: seq<Byte>, y: seq<Byte>)
    requires Stands(b, p, x + y)
    ensures Stands(b, p, x) && Stands(b, p + |x|, y)
  {
    assert b[p..p + |x|] == b[p..p + |x + y|][..|x|];
    assert b[p + |x|..p + |x| + |y|] == b[p..p + |x + y|][|x|..];
  }

  lemma UintReads(b: seq<Byte>, p: nat, v: nat, n: nat)
    requires Stands(b, p, ToLe(v, n)) && v < Pow256(n)
    ensures Uint(b, p, n) == Ok((v, p + n))
  {
    hide Pow256, ToLe, Le;
    LeInverts(v, n);
  }

  lemma TextReads(b: seq<Byte>, p: nat, s: seq<Byte>)
    requires Stands(b, p, TextBytes(s)) && |s| <= 16777216
    ensures String(b, p) == Ok((s, p + |TextBytes(s)|))
  {
    hide ToLe, Uint;
    StandsSplit(b, p, ToLe(|s|, 8), s);
    LengthFits(|s|);
    UintReads(b, p, |s|, 8);
  }

  lemma LengthFits(n: nat)
    requires n <= 67108864
    ensures n < Pow256(4) && n < Pow256(8)
  {
    assert Pow256(2) == 65536 && Pow256(4) == 0x1_0000_0000;
    assert Pow256(8) >= Pow256(4) by { assert Pow256(6) >= Pow256(4); }
  }

  lemma SignedInverts(i: int, w: nat)
    requires -(Pow256(w) as int) <= 2 * i < Pow256(w)
    ensures TwosComplement(i, w) < Pow256(w) && Signed(TwosComplement(i, w), w) == i
  {
    hide Pow256;
  }

  lemma OneByte(v: Byte)
    ensures [v] == ToLe(v, 1) && v < Pow256(1)
  {
    assert ToLe(v, 1) == [v] + ToLe(0, 0);
  }

  lemma ScalarReads(b: seq<Byte>, p: nat, x: Typed, depth: nat)
    requires TypedOk(x, depth) && Stands(b, p, ValueBytes(x)) && !x.Text? && !x.List?
    ensures Val(b, p, TypeId(x), depth) == Ok((Meaning(x), p + |ValueBytes(x)|))
  {
    hide Pow256, ToLe, Uint, Stands, String, Vals;
    match x
    case UInt(w, u) => UintReads(b, p, u, w);
    case SInt(w, i) =>
      SignedInverts(i, w);
      UintReads(b, p, TwosComplement(i, w), w);
    case Float32(bits) => UintReads(b, p, bits, 4);
    case Float64(bits) => UintReads(b, p, bits, 8);
    case Boolean(v) =>
      OneByte(v);
      UintReads(b, p, v, 1);
  }

  /** A value is read back as what it means. */
  lemma {:induction false} ValueReads(b: seq<Byte>, p: nat, x: Typed, depth: nat)
    requires TypedOk(x, depth) && Stands(b, p, ValueBytes(x))
    ensures Val(b, p, TypeId(x), depth) == Ok((Meaning(x), p + |ValueBytes(x)|))
    decreases x
  {
    hide Pow256, ToLe, Uint, Stands, String, Vals, Val;
    match x
    case Text(s) =>
      TextReads(b, p, s);
      TextVal(b, p, depth);
    case List(ty, elems) =>
      var tail := ToLe(|elems|, 8) + ListBytes(elems, 0);
      StandsSplit(b, p, ToLe(ty, 4), tail);
      StandsSplit(b, p + 4, ToLe(|elems|, 8), ListBytes(elems, 0));
      UintReads(b, p, ty, 4);
      LengthFits(|elems|);
      UintReads(b, p + 4, |elems|, 8);
      ListReads(b, p + 12, ty, elems, depth + 1, 0, []);
      assert Meanings(elems, 0) == seq(|elems|, k requires 0 <= k < |elems| => Meaning(elems[k]));
      assert [] + Meanings(elems, 0) == Meanings(elems, 0);
      ArrayVal(b, p, depth);
    case _ => ScalarReads(b, p, x, depth);
  }

  lemma TextVal(b: seq<Byte>, p: nat, depth: nat)
    requires depth <= 2
    ensures Val(b, p, 8, depth) == match String(b, p) case Ok(s) => Ok((Str(s.0), s.1)) case Err(e) => Err(e)
  {
    hide String;
  }

  function Meanings(xs: seq<Typed>, k: nat): (vs: seq<Value>)
    requires k <= |xs|
    ensures |vs| == |xs| - k
  {
    seq(|xs| - k, j requires 0 <= j < |xs| - k => Meaning(xs[k + j]))
  }

  lemma {:induction false} ListReads(b: seq<Byte>, p: nat, ty: nat, xs: seq<Typed>, depth: nat, k: nat, acc: seq<Value>)
    requires k <= |xs| && p <= |b| && Stands(b, p, ListBytes(xs, k))
    requires forall j :: 0 <= j < |xs| ==> TypeId(xs[j]) == ty && TypedOk(xs[j], depth)
    ensures Vals(b, p, ty, depth, |xs| - k, acc) == Ok((acc + Meanings(xs, k), p + |ListBytes(xs, k)|))
    decreases xs, |xs| - k
  {
    hide Stands, Val, ValueBytes, Meaning, TypedOk, TypeId;
    if k < |xs| {
      StandsSplit(b, p, ValueBytes(xs[k]), ListBytes(xs, k + 1));
      ValueReads(b, p, xs[k], depth);
      StandsWithin(b, p + |ValueBytes(xs[k])|, ListBytes(xs, k + 1));
      ListReads(b, p + |ValueBytes(xs[k])|, ty, xs, depth, k + 1, acc + [Meaning(xs[k])]);
      assert acc + [Meaning(xs[k])] + Meanings(xs, k + 1) == acc + Meanings(xs, k);
    } else {
      assert acc + Meanings(xs, k) == acc;
    }
  }

  lemma StandsWithin(b: seq<Byte>, p: nat, w: seq<Byte>)
    requires Stands(b, p, w)
    ensures p + |w| <= |b|
  {
  }

  lemma TypeFits(x: Typed)
    ensures TypeId(x) < Pow256(4)
  {
    assert Pow256(2) == 65536;
  }

  lemma {:induction false} PairsRead(b: seq<Byte>, p: nat, xs: seq<Pair>, meta: Meta)
    requires p <= |b| && Stands(b, p, PairsBytes(xs)) && forall k :: 0 <= k < |xs| ==> PairOk(xs[k])
    ensures Pairs(b, p, |xs|, meta) == Ok((MetaOf(xs, meta), p + |PairsBytes(xs)|))
    decreases |xs|
  {
    hide Stands, Val, ValueBytes, Meaning, TypedOk, TypeId, TextBytes, String, Uint, Pow256, ToLe;
    if xs != [] {
      var x := xs[0];
      var q := p + |TextBytes(x.key)|;
      StandsSplit(b, p, PairBytes(x), PairsBytes(xs[1..]));
      StandsSplit(b, p, TextBytes(x.key), ToLe(TypeId(x.val), 4) + ValueBytes(x.val));
      StandsSplit(b, q, ToLe(TypeId(x.val), 4), ValueBytes(x.val));
      TextReads(b, p, x.key);
      TypeFits(x.val);
      UintReads(b, q, TypeId(x.val), 4);
      ValueReads(b, q + 4, x.val, 0);
      StandsWithin(b, p + |PairBytes(x)|, PairsBytes(xs[1..]));
      PairsRead(b, p + |PairBytes(x)|, xs[1..], meta[x.key := Meaning(x.val)]);
    }
  }

  lemma {:induction false} DimsRead(b: seq<Byte>, p: nat, dims: seq<nat>, acc: seq<nat>)
    requires p <= |b| && Stands(b, p, DimsBytes(dims)) && forall k :: 0 <= k < |dims| ==> dims[k] < Pow256(8)
    ensures Dims(b, p, |dims|, acc) == Ok((dims + acc, p + |DimsBytes(dims)|))
    decreases |dims|
  {
    hide Stands, Uint, Pow256, ToLe;
    if dims != [] {
      var front, d := dims[..|dims| - 1], dims[|dims| - 1];
      StandsSplit(b, p, ToLe(d, 8), DimsBytes(front));
      UintReads(b, p, d, 8);
      StandsWithin(b, p + 8, DimsBytes(front));
      DimsRead(b, p + 8, front, [d] + acc);
      assert front + ([d] + acc) == dims + acc;
    } else {
      assert dims + acc == acc;
    }
  }

  lemma DtypeInverts(t: DType)
    ensures DtypeOf(DtypeId(t)) == Some(t) && DtypeId(t) < Pow256(4)
  {
    assert Pow256(2) == 65536;
  }

  lemma RecordReads(b: seq<Byte>, p: nat, r: Record)
    requires Stands(b, p, RecordBytes(r)) && RecordOk(r)
    ensures OneRecord(b, p) == Ok((r, p + |RecordBytes(r)|))
  {
    hide Stands, TextBytes, String, Uint, Pow256, ToLe, Dims, DtypeOf, DtypeId;
    var t := r.tensor;
    var e4 := ToLe(DtypeId(t.dtype), 4) + ToLe(r.off, 8);
    var e3 := DimsBytes(t.dims) + e4;
    var e2 := ToLe(|t.dims|, 4) + e3;
    var p1 := p + |TextBytes(t.name)|;
    StandsSplit(b, p, TextBytes(t.name), e2);
    StandsSplit(b, p1, ToLe(|t.dims|, 4), e3);
    StandsSplit(b, p1 + 4, DimsBytes(t.dims), e4);
    var p2 := p1 + 4 + |DimsBytes(t.dims)|;
    StandsSplit(b, p2, ToLe(DtypeId(t.dtype), 4), ToLe(r.off, 8));
    TextReads(b, p, t.name);
    LengthFits(|t.dims|);
    UintReads(b, p1, |t.dims|, 4);
    StandsWithin(b, p1 + 4, DimsBytes(t.dims));
    DimsRead(b, p1 + 4, t.dims, []);
    assert t.dims + [] == t.dims;
    DtypeInverts(t.dtype);
    UintReads(b, p2, DtypeId(t.dtype), 4);
    UintReads(b, p2 + 4, r.off, 8);
  }

  lemma {:induction false} RecordsRead(b: seq<Byte>, p: nat, rs: seq<Record>, acc: seq<Record>)
    requires p <= |b| && Stands(b, p, RecordsBytes(rs)) && forall k :: 0 <= k < |rs| ==> RecordOk(rs[k])
    ensures Records(b, p, |rs|, acc) == Ok((acc + rs, p + |RecordsBytes(rs)|))
    decreases |rs|
  {
    hide Stands, OneRecord, RecordBytes, RecordOk;
    if rs != [] {
      StandsSplit(b, p, RecordBytes(rs[0]), RecordsBytes(rs[1..]));
      RecordReads(b, p, rs[0]);
      StandsWithin(b, p + |RecordBytes(rs[0])|, RecordsBytes(rs[1..]));
      RecordsRead(b, p + |RecordBytes(rs[0])|, rs[1..], acc + [rs[0]]);
      assert acc + [rs[0]] + rs[1..] == acc + rs;
    } else {
      assert acc + rs == acc;
    }
  }

  /** A header written by the format's rules is read back whole, whatever data follow it. */
  lemma HeaderReads(version: nat, xs: seq<Pair>, rs: seq<Record>, data: seq<Byte>)
    requires HeaderOk(version, xs, rs)
    ensures HeaderOf(HeaderBytes(version, xs, rs) + data)
            == Ok((Header(MetaOf(xs, map[]), rs), |HeaderBytes(version, xs, rs)|))
  {
    hide Stands, PairsBytes, RecordsBytes, Pairs, Records, Counts, PairOk, RecordOk, ToLe;
    var b := HeaderBytes(version, xs, rs) + data;
    CountsRead(version, xs, rs, data);
    PairsRead(b, 24, xs, map[]);
    RecordsRead(b, 24 + |PairsBytes(xs)|, rs, []);
    assert [] + rs == rs;
  }

  lemma CountsRead(version: nat, xs: seq<Pair>, rs: seq<Record>, data: seq<Byte>)
    requires HeaderOk(version, xs, rs)
    ensures var b := HeaderBytes(version, xs, rs) + data;
            && Counts(b) == Ok(((|rs|, |xs|), 24))
            && |HeaderBytes(version, xs, rs)| == 24 + |PairsBytes(xs)| + |RecordsBytes(rs)|
            && Stands(b, 24, PairsBytes(xs)) && 24 + |PairsBytes(xs)| <= |b|
            && Stands(b, 24 + |PairsBytes(xs)|, RecordsBytes(rs))
  {
    hide Stands, PairsBytes, RecordsBytes, PairOk, RecordOk, ToLe, Le, Pow256;
    var b := HeaderBytes(version, xs, rs) + data;
    var e4 := PairsBytes(xs) + RecordsBytes(rs);
    var e3 := ToLe(|xs|, 8) + e4;
    var e2 := ToLe(|rs|, 8) + e3;
    var e1 := ToLe(version, 4) + e2;
    assert Stands(b, 0, MAGIC + e1) by { Whole(MAGIC + e1, data); }
    StandsSplit(b, 0, MAGIC, e1);
    StandsSplit(b, 4, ToLe(version, 4), e2);
    StandsSplit(b, 8, ToLe(|rs|, 8), e3);
    StandsSplit(b, 16, ToLe(|xs|, 8), e4);
    StandsSplit(b, 24, PairsBytes(xs), RecordsBytes(rs));
    LengthFits(version);
    LengthFits(|rs|);
    LengthFits(|xs|);
    LeInverts(version, 4);
    LeInverts(|rs|, 8);
    LeInverts(|xs|, 8);
    Cut(b, 0, MAGIC);
    Cut(b, 4, ToLe(version, 4));
    Cut(b, 8, ToLe(|rs|, 8));
    Cut(b, 16, ToLe(|xs|, 8));
    Cut(b, 24, PairsBytes(xs));
  }

  lemma Whole(w: seq<Byte>, data: seq<Byte>)
    ensures Stands(w + data, 0, w)
  {
  }

  lemma Cut(b: seq<Byte>, p: nat, w: seq<Byte>)
    requires Stands(b, p, w)
    ensures p + |w| <= |b| && b[p..p + |w|] == w && (p == 0 ==> b[..|w|] == w)
  {
  }

  // ---------------------------------------------------------------- what is read was written

  lemma StandsJoin(b: seq<Byte>, p: nat, x: seq<Byte>, y: seq<Byte>)
    requires Stands(b, p, x) && Stands(b, p + |x|, y)
    ensures Stands(b, p, x + y)
  {
    assert b[p..p + |x + y|] == b[p..p + |x|] + b[p + |x|..p + |x| + |y|];
  }

  lemma UintFound(b: seq<Byte>, p: nat, n: nat)
    requires Uint(b, p, n).Ok?
    ensures var v := Uint(b, p, n).value.0; v < Pow256(n) && Stands(b, p, ToLe(v, n))
  {
    hide Pow256, Le, ToLe;
    ToLeInverts(b[p..p + n]);
  }

  lemma TextFound(b: seq<Byte>, p: nat)
    requires String(b, p).Ok?
    ensures var s := String(b, p).value.0;
            |s| <= 16777216 && Stands(b, p, TextBytes(s)) && String(b, p).value.1 == p + |TextBytes(s)|
  {
    hide Pow256, Uint, ToLe;
    UintFound(b, p, 8);
    var s := String(b, p).value.0;
    StandsJoin(b, p, ToLe(|s|, 8), s);
  }

  lemma SignedFound(v: nat, w: nat)
    requires v < Pow256(w)
    ensures -(Pow256(w) as int) <= 2 * Signed(v, w) < Pow256(w) && TwosComplement(Signed(v, w), w) == v
  {
    hide Pow256;
  }

  /** The scalar that was written. */
  function ScalarOf(ty: nat, v: nat): Typed
    requires (ty <= 7 || 10 <= ty <= 12) && (ty == 7 ==> v < 256)
  {
    match ty
    case 0 => UInt(1, v)
    case 1 => SInt(1, Signed(v, 1))
    case 2 => UInt(2, v)
    case 3 => SInt(2, Signed(v, 2))
    case 4 => UInt(4, v)
    case 5 => SInt(4, Signed(v, 4))
    case 6 => Float32(v)
    case 7 => Boolean(v)
    case 10 => UInt(8, v)
    case 11 => SInt(8, Signed(v, 8))
    case _ => Float64(v)
  }

  lemma ScalarFound(b: seq<Byte>, p: nat, ty: nat, depth: nat) returns (x: Typed)
    requires Val(b, p, ty, depth).Ok? && (ty <= 7 || 10 <= ty <= 12)
    ensures TypeId(x) == ty && TypedOk(x, depth) && Stands(b, p, ValueBytes(x))
    ensures Val(b, p, ty, depth).value == (Meaning(x), p + |ValueBytes(x)|)
  {
    hide Pow256, Uint, ToLe, Stands;
    var v := Uint(b, p, Width(ty)).value.0;
    UintFound(b, p, Width(ty));
    SignedFound(v, Width(ty));
    if ty == 7 {
      assert Pow256(1) == 256 by { OneByte(0); ByteRange(); }
      OneByte(v);
    }
    x := ScalarOf(ty, v);
  }

  lemma ByteRange()
    ensures Pow256(1) == 256
  {
  }

  /** Whatever value is read was written as one that means it. */
  lemma {:induction false} ValueFound(b: seq<Byte>, p: nat, ty: nat, depth: nat) returns (x: Typed)
    requires Val(b, p, ty, depth).Ok?
    ensures TypeId(x) == ty && TypedOk(x, depth) && Stands(b, p, ValueBytes(x))
    ensures Val(b, p, ty, depth).value == (Meaning(x), p + |ValueBytes(x)|)
    decreases Room(depth), 0
  {
    hide Pow256, ToLe, Uint, Stands, String, Vals;
    if ty == 8 {
      TextFound(b, p);
      x := Text(String(b, p).value.0);
    } else if ty == 9 {
      UintFound(b, p, 4);
      var et := Uint(b, p, 4).value;
      UintFound(b, p + 4, 8);
      var n := Uint(b, p + 4, 8).value.0;
      var xs := ListFound(b, p + 12, et.0, depth + 1, n, []);
      assert [] + Meanings(xs, 0) == Meanings(xs, 0);
      assert Meanings(xs, 0) == seq(|xs|, k requires 0 <= k < |xs| => Meaning(xs[k]));
      StandsJoin(b, p + 4, ToLe(n, 8), ListBytes(xs, 0));
      StandsJoin(b, p, ToLe(et.0, 4), ToLe(n, 8) + ListBytes(xs, 0));
      x := List(et.0, xs);
    } else {
      x := ScalarFound(b, p, ty, depth);
    }
  }

  lemma ListBytesStep(xs: seq<Typed>, k: nat)
    requires k <= |xs|
    ensures ListBytes(xs, k) == if k == |xs| then [] else ValueBytes(xs[k]) + ListBytes(xs, k + 1)
  {
    hide ValueBytes;
  }

  lemma {:induction false} ListBytesCons(x: Typed, xs: seq<Typed>, k: nat)
    requires k <= |xs|
    ensures ListBytes([x] + xs, k + 1) == ListBytes(xs, k)
    decreases |xs| - k
  {
    hide ValueBytes, ListBytes;
    ListBytesStep([x] + xs, k + 1);
    ListBytesStep(xs, k);
    if k < |xs| {
      ListBytesCons(x, xs, k + 1);
      assert ([x] + xs)[k + 1] == xs[k];
    }
  }

  lemma {:induction false} ListFound(b: seq<Byte>, p: nat, ty: nat, depth: nat, n: nat, acc: seq<Value>)
    returns (xs: seq<Typed>)
    requires p <= |b| && Vals(b, p, ty, depth, n, acc).Ok?
    ensures |xs| == n && forall k :: 0 <= k < n ==> TypeId(xs[k]) == ty && TypedOk(xs[k], depth)
    ensures Stands(b, p, ListBytes(xs, 0))
    ensures Vals(b, p, ty, depth, n, acc).value == (acc + Meanings(xs, 0), p + |ListBytes(xs, 0)|)
    decreases Room(depth), n + 1
  {
    hide Stands, Val, ValueBytes, Meaning, TypedOk, TypeId;
    if n == 0 {
      xs := [];
      NothingStands(b, p);
      assert acc + Meanings(xs, 0) == acc;
    } else {
      var x := ValueFound(b, p, ty, depth);
      var q := p + |ValueBytes(x)|;
      var rest := ListFound(b, q, ty, depth, n - 1, acc + [Meaning(x)]);
      xs := [x] + rest;
      ListBytesCons(x, rest, 0);
      StandsJoin(b, p, ValueBytes(x), ListBytes(rest, 0));
      assert acc + Meanings(xs, 0) == acc + [Meaning(x)] + Meanings(rest, 0);
    }
  }

  lemma NothingStands(b: seq<Byte>, p: nat)
    requires p <= |b|
    ensures Stands(b, p, [])
  {
  }

  lemma {:induction false} PairsFound(b: seq<Byte>, p: nat, n: nat, meta: Meta) returns (xs: seq<Pair>)
    requires p <= |b| && Pairs(b, p, n, meta).Ok?
    ensures |xs| == n && (forall k :: 0 <= k < n ==> PairOk(xs[k])) && Stands(b, p, PairsBytes(xs))
    ensures Pairs(b, p, n, meta).value == (MetaOf(xs, meta), p + |PairsBytes(xs)|)
    decreases n
  {
    hide Stands, Val, ValueBytes, Meaning, TypedOk, TypeId, TextBytes, String, Uint, Pow256, ToLe;
    if n == 0 {
      xs := [];
      NothingStands(b, p);
    } else {
      var key := String(b, p).value;
      TextFound(b, p);
      UintFound(b, key.1, 4);
      var v := ValueFound(b, key.1 + 4, Uint(b, key.1, 4).value.0, 0);
      var x := Pair(key.0, v);
      StandsJoin(b, key.1, ToLe(TypeId(v), 4), ValueBytes(v));
      StandsJoin(b, p, TextBytes(key.0), ToLe(TypeId(v), 4) + ValueBytes(v));
      var q := p + |PairBytes(x)|;
      var rest := PairsFound(b, q, n - 1, meta[x.key := Meaning(v)]);
      xs := [x] + rest;
      assert xs[1..] == rest;
      StandsJoin(b, p, PairBytes(x), PairsBytes(rest));
    }
  }

  lemma {:induction false} DimsFound(b: seq<Byte>, p: nat, n: nat, acc: seq<nat>) returns (dims: seq<nat>)
    requires p <= |b| && Dims(b, p, n, acc).Ok?
    ensures |dims| == n && (forall k :: 0 <= k < n ==> dims[k] < Pow256(8)) && Stands(b, p, DimsBytes(dims))
    ensures Dims(b, p, n, acc).value == (dims + acc, p + |DimsBytes(dims)|)
    decreases n
  {
    hide Stands, Uint, Pow256, ToLe;
    if n == 0 {
      dims := [];
      NothingStands(b, p);
      assert dims + acc == acc;
    } else {
      UintFound(b, p, 8);
      var d := Uint(b, p, 8).value.0;
      var front := DimsFound(b, p + 8, n - 1, [d] + acc);
      dims := front + [d];
      assert dims[..|dims| - 1] == front;
      StandsJoin(b, p, ToLe(d, 8), DimsBytes(front));
      assert front + ([d] + acc) == dims + acc;
    }
  }

  lemma DtypeFound(t: nat)
    requires DtypeOf(t).Some?
    ensures DtypeId(DtypeOf(t).value) == t
  {
  }

  lemma RecordFound(b: seq<Byte>, p: nat)
    requires OneRecord(b, p).Ok?
    ensures var r := OneRecord(b, p).value;
            RecordOk(r.0) && Stands(b, p, RecordBytes(r.0)) && r.1 == p + |RecordBytes(r.0)|
  {
    hide Stands, TextBytes, String, Uint, Pow256, ToLe, Dims, DtypeOf, DtypeId;
    var name := String(b, p).value;
    TextFound(b, p);
    UintFound(b, name.1, 4);
    var n := Uint(b, name.1, 4).value.0;
    var dims := DimsFound(b, name.1 + 4, n, []);
    assert dims + [] == dims;
    var q := name.1 + 4 + |DimsBytes(dims)|;
    UintFound(b, q, 4);
    var ty := Uint(b, q, 4).value.0;
    DtypeFound(ty);
    UintFound(b, q + 4, 8);
    var off := Uint(b, q + 4, 8).value.0;
    var e4 := ToLe(ty, 4) + ToLe(off, 8);
    StandsJoin(b, q, ToLe(ty, 4), ToLe(off, 8));
    StandsJoin(b, name.1 + 4, DimsBytes(dims), e4);
    StandsJoin(b, name.1, ToLe(n, 4), DimsBytes(dims) + e4);
    StandsJoin(b, p, TextBytes(name.0), ToLe(n, 4) + (DimsBytes(dims) + e4));
  }

  lemma {:induction false} RecordsFound(b: seq<Byte>, p: nat, n: nat, acc: seq<Record>) returns (rs: seq<Record>)
    requires p <= |b| && Records(b, p, n, acc).Ok?
    ensures |rs| == n && (forall k :: 0 <= k < n ==> RecordOk(rs[k])) && Stands(b, p, RecordsBytes(rs))
    ensures Records(b, p, n, acc).value == (acc + rs, p + |RecordsBytes(rs)|)
    decreases n
  {
    hide Stands, OneRecord, RecordBytes, RecordOk;
    if n == 0 {
      rs := [];
      NothingStands(b, p);
      assert acc + rs == acc;
    } else {
      RecordFound(b, p);
      var r := OneRecord(b, p).value;
      var rest := RecordsFound(b, r.1, n - 1, acc + [r.0]);
      rs := [r.0] + rest;
      assert rs[1..] == rest;
      StandsJoin(b, p, RecordBytes(r.0), RecordsBytes(rest));
      assert acc + [r.0] + rest == acc + rs;
    }
  }

  lemma CountsFound(b: seq<Byte>) returns (version: nat)
    requires Counts(b).Ok?
    ensures var c := Counts(b).value.0;
            2 <= version <= 3 && c.0 <= 1048576 && c.1 <= 1048576
            && Stands(b, 0, MAGIC + (ToLe(version, 4) + (ToLe(c.0, 8) + ToLe(c.1, 8))))
  {
    hide Le, ToLe, Pow256;
    version := Le(b[4..8]);
    ToLeInverts(b[4..8]);
    ToLeInverts(b[8..16]);
    ToLeInverts(b[16..24]);
    var c := Counts(b).value.0;
    StandsJoin(b, 8, ToLe(c.0, 8), ToLe(c.1, 8));
    StandsJoin(b, 4, ToLe(version, 4), ToLe(c.0, 8) + ToLe(c.1, 8));
    StandsJoin(b, 0, MAGIC, ToLe(version, 4) + (ToLe(c.0, 8) + ToLe(c.1, 8)));
  }

  lemma HeaderBytesIs(version: nat, xs: seq<Pair>, rs: seq<Record>)
    ensures HeaderBytes(version, xs, rs)
            == MAGIC + (ToLe(version, 4) + (ToLe(|rs|, 8) + ToLe(|xs|, 8))) + (PairsBytes(xs) + RecordsBytes(rs))
  {
    hide ToLe, PairsBytes, RecordsBytes;
  }

  lemma HeaderFound(b: seq<Byte>) returns (version: nat, xs: seq<Pair>, rs: seq<Record>)
    requires HeaderOf(b).Ok?
    ensures HeaderOk(version, xs, rs) && HeaderBytes(version, xs, rs) <= b
    ensures HeaderOf(b).value == (Header(MetaOf(xs, map[]), rs), |HeaderBytes(version, xs, rs)|)
  {
    hide Stands, Pairs, Records, Counts, PairsBytes, RecordsBytes, RecordOk, PairOk, ToLe, MetaOf;
    var c := Counts(b).value.0;
    version := CountsFound(b);
    xs := PairsFound(b, 24, c.1, map[]);
    rs := RecordsFound(b, 24 + |PairsBytes(xs)|, c.0, []);
    assert [] + rs == rs;
    var head := MAGIC + (ToLe(version, 4) + (ToLe(c.0, 8) + ToLe(c.1, 8)));
    StandsJoin(b, 24, PairsBytes(xs), RecordsBytes(rs));
    StandsJoin(b, 0, head, PairsBytes(xs) + RecordsBytes(rs));
    HeaderBytesIs(version, xs, rs);
    Cut(b, 0, head + (PairsBytes(xs) + RecordsBytes(rs)));
  }

  /** `b` starts with a header written for `h`, which ends at `end`. */
  ghost predicate Begins(b: seq<Byte>, h: Header, end: nat) {
    exists version, xs, rs ::
      && HeaderOk(version, xs, rs) && HeaderBytes(version, xs, rs) <= b
      && h == Header(MetaOf(xs, map[]), rs) && end == |HeaderBytes(version, xs, rs)|
  }

  /** The reader takes exactly the files that begin with a header written by the format, and reads it. */
  lemma HeadersExactly(b: seq<Byte>, h: Header, end: nat)
    ensures HeaderOf(b) == Ok((h, end)) <==> Begins(b, h, end)
  {
    hide HeaderOf, HeaderOk, HeaderBytes, MetaOf;
    if HeaderOf(b) == Ok((h, end)) { var version, xs, rs := HeaderFound(b); }
    if Begins(b, h, end) {
      var version, xs, rs :| HeaderOk(version, xs, rs) && HeaderBytes(version, xs, rs) <= b
                             && h == Header(MetaOf(xs, map[]), rs) && end == |HeaderBytes(version, xs, rs)|;
      var w := HeaderBytes(version, xs, rs);
      assert b == w + b[|w|..];
      HeaderReads(version, xs, rs, b[|w|..]);
    }
  }
}
