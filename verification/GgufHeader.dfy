/** The GGUF header reader: a cursor over a prefix of the file, the metadata and the tensor table, and
    the loop that fetches growing prefixes until the header parses. */
module GgufHeader {
  import opened Bytes
  import opened LittleEndian

  datatype GgufError =
    | Truncated | BadMagic | BadVersion(v: nat) | ImplausibleCounts | StringTooLong(n: nat)
    | TooDeep | ArrayTooLong(n: nat) | UnknownType(t: nat) | TooManyDims(n: nat) | UnknownDtype(t: nat)

  type Parsed<T> = Result<(T, nat), GgufError>

  /** Metadata values; floating-point numbers stay their bit patterns. */
  datatype Value =
    | U64(u: nat)
    | I64(i: int)
    | F32Bits(bits: nat)
    | F64Bits(bits: nat)
    | Bool(b: bool)
    | Str(s: seq<Byte>)
    | Arr(elems: seq<Value>)

  datatype DType = F32 | F16 | BF16 | Q8_0 | Q4_0 | Q4_1 | Q5_0 | Q5_1 | Q4K | Q5K | Q6K | IQ4XS

  datatype Tensor = Tensor(name: seq<Byte>, dtype: DType, dims: seq<nat>)

  datatype Record = Record(tensor: Tensor, off: nat)

  type Meta = map<seq<Byte>, Value>

  const MAX_STRING: nat := 0x100_0000
  const MAX_ARRAY: nat := 0x400_0000
  const MAX_COUNT: nat := 0x10_0000
  const MAGIC: seq<Byte> := [0x47, 0x47, 0x55, 0x46]

  function DtypeOf(t: nat): Option<DType> {
    match t
    case 0 => Some(F32)
    case 1 => Some(F16)
    case 2 => Some(Q4_0)
    case 3 => Some(Q4_1)
    case 6 => Some(Q5_0)
    case 7 => Some(Q5_1)
    case 8 => Some(Q8_0)
    case 12 => Some(Q4K)
    case 13 => Some(Q5K)
    case 14 => Some(Q6K)
    case 23 => Some(IQ4XS)
    case 30 => Some(BF16)
    case _ => None
  }

  // ---------------------------------------------------------------- what each reader reads

  function Span(b: seq<Byte>, p: nat, n: nat): (r: Parsed<seq<Byte>>)
    ensures r.Ok? ==> r.value.1 == p + n <= |b|
  {
    if p + n > |b| then Err(Truncated) else Ok((b[p..p + n], p + n))
  }

  /** An unsigned integer of `n` bytes. */
  function Uint(b: seq<Byte>, p: nat, n: nat): (r: Parsed<nat>)
    ensures r.Ok? ==> r.value.1 == p + n <= |b|
  {
    var t := Span(b, p, n);
    if t.Err? then Err(t.error) else Ok((Le(t.value.0), t.value.1))
  }

  /** Two's complement of `n` bytes. */
  function Signed(v: nat, n: nat): int { if 2 * v < Pow256(n) then v else v - Pow256(n) }

  function String(b: seq<Byte>, p: nat): (r: Parsed<seq<Byte>>)
    ensures r.Ok? ==> p <= r.value.1 <= |b|
  {
    var n := Uint(b, p, 8);
    if n.Err? then Err(n.error)
    else if n.value.0 > MAX_STRING then Err(StringTooLong(n.value.0))
    else Span(b, n.value.1, n.value.0)
  }

  function Scalar(ty: nat, v: nat): Value
    requires ty <= 7 || 10 <= ty <= 12
  {
    match ty
    case 0 => U64(v)
    case 1 => I64(Signed(v, 1))
    case 2 => U64(v)
    case 3 => I64(Signed(v, 2))
    case 4 => U64(v)
    case 5 => I64(Signed(v, 4))
    case 6 => F32Bits(v)
    case 7 => Bool(v != 0)
    case 10 => U64(v)
    case 11 => I64(Signed(v, 8))
    case _ => F64Bits(v)
  }

  function Width(ty: nat): nat {
    if ty <= 1 || ty == 7 then 1 else if ty <= 3 then 2 else if ty <= 6 then 4 else 8
  }

  function Room(depth: nat): nat { if depth <= 4 then 4 - depth else 0 }

  /** A value of type `ty`, arrays nested `depth` deep around it. */
  function Val(b: seq<Byte>, p: nat, ty: nat, depth: nat): (r: Parsed<Value>)
    ensures r.Ok? ==> p <= r.value.1 <= |b|
    decreases Room(depth), 0
  {
    if depth > 2 then Err(TooDeep)
    else if ty <= 7 || 10 <= ty <= 12 then
      var v := Uint(b, p, Width(ty));
      if v.Err? then Err(v.error) else Ok((Scalar(ty, v.value.0), v.value.1))
    else if ty == 8 then
      var s := String(b, p);
      if s.Err? then Err(s.error) else Ok((Str(s.value.0), s.value.1))
    else if ty == 9 then
      var et := Uint(b, p, 4);
      if et.Err? then Err(et.error)
      else
        var n := Uint(b, et.value.1, 8);
        if n.Err? then Err(n.error)
        else if n.value.0 > MAX_ARRAY then Err(ArrayTooLong(n.value.0))
        else
          var a := Vals(b, n.value.1, et.value.0, depth + 1, n.value.0, []);
          if a.Err? then Err(a.error) else Ok((Arr(a.value.0), a.value.1))
    else Err(UnknownType(ty))
  }

  function Vals(b: seq<Byte>, p: nat, ty: nat, depth: nat, n: nat, acc: seq<Value>): (r: Parsed<seq<Value>>)
    requires p <= |b|
    ensures r.Ok? ==> p <= r.value.1 <= |b|
    decreases Room(depth), n + 1
  {
    if n == 0 then Ok((acc, p))
    else
      var v := Val(b, p, ty, depth);
      if v.Err? then Err(v.error) else Vals(b, v.value.1, ty, depth, n - 1, acc + [v.value.0])
  }

  /** `n` key-value pairs; a later one with the same key replaces an earlier one. */
  function Pairs(b: seq<Byte>, p: nat, n: nat, meta: Meta): (r: Parsed<Meta>)
    requires p <= |b|
    ensures r.Ok? ==> p <= r.value.1 <= |b|
    decreases n
  {
    if n == 0 then Ok((meta, p))
    else
      var key := String(b, p);
      if key.Err? then Err(key.error)
      else
        var ty := Uint(b, key.value.1, 4);
        if ty.Err? then Err(ty.error)
        else
          var v := Val(b, ty.value.1, ty.value.0, 0);
          if v.Err? then Err(v.error) else Pairs(b, v.value.1, n - 1, meta[key.value.0 := v.value.0])
  }

  /** Dimensions, innermost first in the file and outermost first in the result. */
  function Dims(b: seq<Byte>, p: nat, n: nat, acc: seq<nat>): (r: Parsed<seq<nat>>)
    requires p <= |b|
    ensures r.Ok? ==> p <= r.value.1 <= |b|
    decreases n
  {
    if n == 0 then Ok((acc, p))
    else
      var d := Uint(b, p, 8);
      if d.Err? then Err(d.error) else Dims(b, d.value.1, n - 1, [d.value.0] + acc)
  }

  /** One tensor record. */
  function OneRecord(b: seq<Byte>, p: nat): (r: Parsed<Record>)
    ensures r.Ok? ==> p <= r.value.1 <= |b|
  {
    var name := String(b, p);
    if name.Err? then Err(name.error)
    else
      var n := Uint(b, name.value.1, 4);
      if n.Err? then Err(n.error)
      else if n.value.0 > 4 then Err(TooManyDims(n.value.0))
      else
        var dims := Dims(b, n.value.1, n.value.0, []);
        if dims.Err? then Err(dims.error)
        else
          var ty := Uint(b, dims.value.1, 4);
          if ty.Err? then Err(ty.error)
          else if DtypeOf(ty.value.0).None? then Err(UnknownDtype(ty.value.0))
          else
            var off := Uint(b, ty.value.1, 8);
            if off.Err? then Err(off.error)
            else Ok((Record(Tensor(name.value.0, DtypeOf(ty.value.0).value, dims.value.0), off.value.0), off.value.1))
  }

  function Records(b: seq<Byte>, p: nat, n: nat, acc: seq<Record>): (r: Parsed<seq<Record>>)
    requires p <= |b|
    ensures r.Ok? ==> p <= r.value.1 <= |b|
    decreases n
  {
    if n == 0 then Ok((acc, p))
    else
      var t := OneRecord(b, p);
      if t.Err? then Err(t.error) else Records(b, t.value.1, n - 1, acc + [t.value.0])
  }

  /** Counts of tensors and of pairs, and where the pairs start. */
  function Counts(b: seq<Byte>): (r: Parsed<(nat, nat)>)
    ensures r.Ok? ==> r.value.1 == 24 <= |b|
  {
    if |b| < 24 || b[..4] != MAGIC then Err(BadMagic)
    else
      var version := Le(b[4..8]);
      var tensors, pairs := Le(b[8..16]), Le(b[16..24]);
      if version < 2 || version > 3 then Err(BadVersion(version))
      else if tensors > MAX_COUNT || pairs > MAX_COUNT then Err(ImplausibleCounts)
      else Ok(((tensors, pairs), 24))
  }

  datatype Header = Header(meta: Meta, records: seq<Record>)

  /** The header of a file, and where it ends. */
  function HeaderOf(b: seq<Byte>): (r: Parsed<Header>)
    ensures r.Ok? ==> 24 <= r.value.1 <= |b|
  {
    var c := Counts(b);
    if c.Err? then Err(c.error)
    else
      var m := Pairs(b, 24, c.value.0.1, map[]);
      if m.Err? then Err(m.error)
      else
        var t := Records(b, m.value.1, c.value.0.0, []);
        if t.Err? then Err(t.error) else Ok((Header(m.value.0, t.value.0), t.value.1))
  }

  // ---------------------------------------------------------------- longer input changes nothing

  /** What `n` bytes give and what more give: the same, or the `n` bytes end before the reading does. */
  predicate Stable<T(==)>(n: nat, r: Parsed<T>, r': Parsed<T>) {
    r' == r || (r == Err(Truncated) && (r'.Ok? ==> n < r'.value.1))
  }

  lemma UintStable(b: seq<Byte>, b': seq<Byte>, p: nat, n: nat)
    requires b <= b'
    ensures Stable(|b|, Uint(b, p, n), Uint(b', p, n)) && Stable(|b|, Span(b, p, n), Span(b', p, n))
  {
    if p + n <= |b| { assert b[p..p + n] == b'[p..p + n]; }
  }

  lemma StringStable(b: seq<Byte>, b': seq<Byte>, p: nat)
    requires b <= b'
    ensures Stable(|b|, String(b, p), String(b', p))
  {
    hide Span, Uint;
    UintStable(b, b', p, 8);
    var n := Uint(b, p, 8);
    if n.Ok? { UintStable(b, b', n.value.1, n.value.0); }
  }

  lemma {:induction false} ValStable(b: seq<Byte>, b': seq<Byte>, p: nat, ty: nat, depth: nat)
    requires b <= b'
    ensures Stable(|b|, Val(b, p, ty, depth), Val(b', p, ty, depth))
    decreases Room(depth), 0
  {
    hide Span, Uint, String, Scalar, Width;
    if depth <= 2 {
      if ty <= 7 || 10 <= ty <= 12 {
        UintStable(b, b', p, Width(ty));
      } else if ty == 8 {
        StringStable(b, b', p);
      } else if ty == 9 {
        UintStable(b, b', p, 4);
        var et := Uint(b, p, 4);
        if et.Ok? {
          UintStable(b, b', et.value.1, 8);
          var n := Uint(b, et.value.1, 8);
          if n.Ok? && n.value.0 <= MAX_ARRAY { ValsStable(b, b', n.value.1, et.value.0, depth + 1, n.value.0, []); }
        }
      }
    }
  }

  lemma {:induction false} ValsStable(b: seq<Byte>, b': seq<Byte>, p: nat, ty: nat, depth: nat, n: nat, acc: seq<Value>)
    requires b <= b' && p <= |b|
    ensures Stable(|b|, Vals(b, p, ty, depth, n, acc), Vals(b', p, ty, depth, n, acc))
    decreases Room(depth), n + 1
  {
    hide Val;
    if n > 0 {
      ValStable(b, b', p, ty, depth);
      var v := Val(b, p, ty, depth);
      if v.Ok? { ValsStable(b, b', v.value.1, ty, depth, n - 1, acc + [v.value.0]); }
    }
  }

  lemma {:induction false} PairsStable(b: seq<Byte>, b': seq<Byte>, p: nat, n: nat, meta: Meta)
    requires b <= b' && p <= |b|
    ensures Stable(|b|, Pairs(b, p, n, meta), Pairs(b', p, n, meta))
    decreases n
  {
    hide Val, Uint, String;
    if n > 0 {
      StringStable(b, b', p);
      var key := String(b, p);
      if key.Ok? {
        UintStable(b, b', key.value.1, 4);
        var ty := Uint(b, key.value.1, 4);
        if ty.Ok? {
          ValStable(b, b', ty.value.1, ty.value.0, 0);
          var v := Val(b, ty.value.1, ty.value.0, 0);
          if v.Ok? { PairsStable(b, b', v.value.1, n - 1, meta[key.value.0 := v.value.0]); }
        }
      }
    }
  }

  lemma {:induction false} DimsStable(b: seq<Byte>, b': seq<Byte>, p: nat, n: nat, acc: seq<nat>)
    requires b <= b' && p <= |b|
    ensures Stable(|b|, Dims(b, p, n, acc), Dims(b', p, n, acc))
    decreases n
  {
    hide Uint;
    if n > 0 {
      UintStable(b, b', p, 8);
      var d := Uint(b, p, 8);
      if d.Ok? { DimsStable(b, b', d.value.1, n - 1, [d.value.0] + acc); }
    }
  }

  lemma RecordStable(b: seq<Byte>, b': seq<Byte>, p: nat)
    requires b <= b'
    ensures Stable(|b|, OneRecord(b, p), OneRecord(b', p))
  {
    hide Uint, String, Dims, DtypeOf;
    StringStable(b, b', p);
    var name := String(b, p);
    if name.Ok? {
      UintStable(b, b', name.value.1, 4);
      var n := Uint(b, name.value.1, 4);
      if n.Ok? && n.value.0 <= 4 {
        DimsStable(b, b', n.value.1, n.value.0, []);
        var dims := Dims(b, n.value.1, n.value.0, []);
        if dims.Ok? {
          UintStable(b, b', dims.value.1, 4);
          var ty := Uint(b, dims.value.1, 4);
          if ty.Ok? { UintStable(b, b', ty.value.1, 8); }
        }
      }
    }
  }

  lemma {:induction false} RecordsStable(b: seq<Byte>, b': seq<Byte>, p: nat, n: nat, acc: seq<Record>)
    requires b <= b' && p <= |b|
    ensures Stable(|b|, Records(b, p, n, acc), Records(b', p, n, acc))
    decreases n
  {
    hide OneRecord;
    if n > 0 {
      RecordStable(b, b', p);
      var t := OneRecord(b, p);
      if t.Ok? { RecordsStable(b, b', t.value.1, n - 1, acc + [t.value.0]); }
    }
  }

  lemma CountsStable(b: seq<Byte>, b': seq<Byte>)
    requires b <= b' && |b| >= 24
    ensures Counts(b') == Counts(b)
  {
    hide Le;
    assert b[..4] == b'[..4] && b[4..8] == b'[4..8] && b[8..16] == b'[8..16] && b[16..24] == b'[16..24];
  }

  /** A header that parses parses the same on every extension, and so does every error other than
      running out of bytes; below 24 bytes the complaint about the magic is of that kind too. */
  lemma HeaderStable(b: seq<Byte>, b': seq<Byte>)
    requires b <= b'
    ensures Stable(|b|, HeaderOf(b), HeaderOf(b')) || (|b| < 24 && HeaderOf(b) == Err(BadMagic))
  {
    hide Counts, Pairs, Records;
    if |b| >= 24 {
      CountsStable(b, b');
      var c := Counts(b);
      if c.Ok? {
        PairsStable(b, b', 24, c.value.0.1, map[]);
        var m := Pairs(b, 24, c.value.0.1, map[]);
        if m.Ok? { RecordsStable(b, b', m.value.1, c.value.0.0, []); }
      }
    } else {
      TooShort(b);
    }
  }

  lemma TooShort(b: seq<Byte>)
    requires |b| < 24
    ensures Counts(b) == Err(BadMagic)
  {
  }

  // ---------------------------------------------------------------- the cursor

  class Cursor {
    const b: seq<Byte>
    var pos: nat

    constructor (b: seq<Byte>, pos: nat)
      ensures this.b == b && this.pos == pos
    {
      this.b, this.pos := b, pos;
    }

    method Take(n: nat) returns (r: Result<seq<Byte>, GgufError>)
      modifies this
      ensures Agrees(r, pos, Span(b, old(pos), n))
    {
      if pos + n > |b| { return Err(Truncated); }
      r := Ok(b[pos..pos + n]);
      pos := pos + n;
    }

    method TakeUint(n: nat) returns (r: Result<nat, GgufError>)
      modifies this
      ensures Agrees(r, pos, Uint(b, old(pos), n))
    {
      var t := Take(n);
      r := if t.Err? then Err(t.error) else Ok(Le(t.value));
    }

    method TakeString() returns (r: Result<seq<Byte>, GgufError>)
      modifies this
      ensures Agrees(r, pos, String(b, old(pos)))
    {
      hide Span;
      var n := TakeUint(8);
      if n.Err? { return Err(n.error); }
      if n.value > MAX_STRING { return Err(StringTooLong(n.value)); }
      r := Take(n.value);
    }

    method TakeValue(ty: nat, depth: nat) returns (r: Result<Value, GgufError>)
      modifies this
      ensures Agrees(r, pos, Val(b, old(pos), ty, depth))
      decreases Room(depth)
    {
      hide Uint, String, Vals, Scalar, Width;
      if depth > 2 { return Err(TooDeep); }
      if ty <= 7 || 10 <= ty <= 12 {
        var v := TakeUint(Width(ty));
        r := if v.Err? then Err(v.error) else Ok(Scalar(ty, v.value));
      } else if ty == 8 {
        var s := TakeString();
        r := if s.Err? then Err(s.error) else Ok(Str(s.value));
      } else if ty == 9 {
        r := TakeArray(depth);
      } else {
        r := Err(UnknownType(ty));
      }
    }

    /** Element type, count, elements. */
    method TakeArray(depth: nat) returns (r: Result<Value, GgufError>)
      requires depth <= 2
      modifies this
      ensures Agrees(r, pos, Val(b, old(pos), 9, depth))
      decreases Room(depth), 0
    {
      hide Uint, Val;
      ArrayVal(b, pos, depth);
      var et := TakeUint(4);
      if et.Err? { return Err(et.error); }
      var n := TakeUint(8);
      if n.Err? { return Err(n.error); }
      if n.value > MAX_ARRAY { return Err(ArrayTooLong(n.value)); }
      var a: seq<Value> := [];
      ghost var whole := Vals(b, pos, et.value, depth + 1, n.value, a);
      for k := 0 to n.value
        invariant pos <= |b| && whole == Vals(b, pos, et.value, depth + 1, n.value - k, a)
      {
        var v := TakeValue(et.value, depth + 1);
        if v.Err? { return Err(v.error); }
        a := a + [v.value];
      }
      r := Ok(Arr(a));
    }

    method TakeDims(n: nat) returns (r: Result<seq<nat>, GgufError>)
      requires pos <= |b|
      modifies this
      ensures Agrees(r, pos, Dims(b, old(pos), n, []))
    {
      hide Uint;
      var dims: seq<nat> := [];
      ghost var whole := Dims(b, pos, n, dims);
      for k := 0 to n
        invariant pos <= |b| && whole == Dims(b, pos, n - k, dims)
      {
        var d := TakeUint(8);
        if d.Err? { return Err(d.error); }
        dims := [d.value] + dims;
      }
      r := Ok(dims);
    }

    method TakeRecord() returns (r: Result<Record, GgufError>)
      modifies this
      ensures Agrees(r, pos, OneRecord(b, old(pos)))
    {
      hide Uint, String, Dims, DtypeOf;
      var name := TakeString();
      if name.Err? { return Err(name.error); }
      var n := TakeUint(4);
      if n.Err? { return Err(n.error); }
      if n.value > 4 { return Err(TooManyDims(n.value)); }
      var dims := TakeDims(n.value);
      if dims.Err? { return Err(dims.error); }
      var ty := TakeUint(4);
      if ty.Err? { return Err(ty.error); }
      var dtype := DtypeOf(ty.value);
      if dtype.None? { return Err(UnknownDtype(ty.value)); }
      var off := TakeUint(8);
      if off.Err? { return Err(off.error); }
      r := Ok(Record(Tensor(name.value, dtype.value, dims.value), off.value));
    }

    method TakePairs(n: nat) returns (r: Result<Meta, GgufError>)
      requires pos <= |b|
      modifies this
      ensures Agrees(r, pos, Pairs(b, old(pos), n, map[])) && (r.Ok? ==> pos <= |b|)
    {
      hide Uint, String, Val;
      var meta: Meta := map[];
      ghost var whole := Pairs(b, pos, n, meta);
      for k := 0 to n
        invariant pos <= |b| && whole == Pairs(b, pos, n - k, meta)
      {
        var key := TakeString();
        if key.Err? { return Err(key.error); }
        var ty := TakeUint(4);
        if ty.Err? { return Err(ty.error); }
        var v := TakeValue(ty.value, 0);
        if v.Err? { return Err(v.error); }
        meta := meta[key.value := v.value];
      }
      r := Ok(meta);
    }
  }

  lemma ArrayVal(b: seq<Byte>, p: nat, depth: nat)
    requires depth <= 2
    ensures Val(b, p, 9, depth)
            == var et := Uint(b, p, 4);
               if et.Err? then Err(et.error)
               else
                 var n := Uint(b, et.value.1, 8);
                 if n.Err? then Err(n.error)
                 else if n.value.0 > MAX_ARRAY then Err(ArrayTooLong(n.value.0))
                 else
                   var a := Vals(b, n.value.1, et.value.0, depth + 1, n.value.0, []);
                   if a.Err? then Err(a.error) else Ok((Arr(a.value.0), a.value.1))
  {
    hide Uint, Vals;
  }

  // ---------------------------------------------------------------- the two header readers

  /** Magic, version and counts. */
  method OpenHeader(b: seq<Byte>) returns (r: Result<(nat, nat), GgufError>, c: Cursor)
    ensures fresh(c) && c.b == b && Agrees(r, c.pos, Counts(b)) && (r.Ok? ==> c.pos <= |b|)
  {
    hide Le;
    c := new Cursor(b, 4);
    if |b| < 24 || b[..4] != MAGIC { return Err(BadMagic), c; }
    var version := c.TakeUint(4);
    if version.value < 2 || version.value > 3 { return Err(BadVersion(version.value)), c; }
    var tensors := c.TakeUint(8);
    var pairs := c.TakeUint(8);
    if tensors.value > MAX_COUNT || pairs.value > MAX_COUNT { return Err(ImplausibleCounts), c; }
    return Ok((tensors.value, pairs.value)), c;
  }

  function TensorsOf(rs: seq<Record>): seq<Tensor> {
    if rs == [] then [] else TensorsOf(rs[..|rs| - 1]) + [rs[|rs| - 1].tensor]
  }

  /** The preflight's reader: metadata, and names, types and shapes, without offsets. */
  function Listing(b: seq<Byte>): Result<(Meta, seq<Tensor>), GgufError> {
    match HeaderOf(b)
    case Ok(h) => Ok((h.0.meta, TensorsOf(h.0.records)))
    case Err(e) => Err(e)
  }

  method ParseHeaderBytes(b: seq<Byte>) returns (r: Result<(Meta, seq<Tensor>), GgufError>)
    ensures r == Listing(b)
  {
    hide Counts, Pairs, OneRecord, Span, Uint;
    var counts, c := OpenHeader(b);
    if counts.Err? { return Err(counts.error); }
    var meta := c.TakePairs(counts.value.1);
    if meta.Err? { return Err(meta.error); }
    var tensors: seq<Tensor> := [];
    ghost var rs: seq<Record> := [];
    ghost var whole := Records(b, c.pos, counts.value.0, []);
    for k := 0 to counts.value.0
      invariant c.pos <= |b| && tensors == TensorsOf(rs) && whole == Records(b, c.pos, counts.value.0 - k, rs)
    {
      var t := c.TakeRecord();
      if t.Err? { return Err(t.error); }
      assert (rs + [t.value])[..|rs|] == rs;
      tensors := tensors + [t.value.tensor];
      rs := rs + [t.value];
    }
    return Ok((meta.value, tensors));
  }

  /** The loader's reader of the same header: it keeps the offsets and where the header ends. */
  method ParsePartHeader(b: seq<Byte>) returns (r: Result<(Meta, seq<Record>, nat), GgufError>)
    ensures match HeaderOf(b)
            case Ok(h) => r == Ok((h.0.meta, h.0.records, h.1))
            case Err(e) => r == Err(e)
  {
    hide Counts, Pairs, OneRecord, Span, Uint;
    var counts, c := OpenHeader(b);
    if counts.Err? { return Err(counts.error); }
    var meta := c.TakePairs(counts.value.1);
    if meta.Err? { return Err(meta.error); }
    var rs: seq<Record> := [];
    ghost var whole := Records(b, c.pos, counts.value.0, []);
    for k := 0 to counts.value.0
      invariant c.pos <= |b| && whole == Records(b, c.pos, counts.value.0 - k, rs)
    {
      var t := c.TakeRecord();
      if t.Err? { return Err(t.error); }
      rs := rs + [t.value];
    }
    return Ok((meta.value, rs, c.pos));
  }

  // ---------------------------------------------------------------- the growing window

  const FIRST_WINDOW: nat := 0x40_0000
  const CAP: nat := 0x1000_0000

  /** The bytes fetched for a window ending at offset `want`, or at the end of the file. */
  function Window(file: seq<Byte>, want: nat): seq<Byte> { if want < |file| then file[..want + 1] else file }

  /** Fetching ever larger windows until one parses or no larger one is allowed. */
  function Grow(file: seq<Byte>, want: nat): Result<(Meta, seq<Tensor>), GgufError>
    requires want > 0
    decreases CAP - want
  {
    var r := Listing(Window(file, want));
    if r.Err? && want < CAP && want < |file| - 1 then Grow(file, 2 * want) else r
  }

  method PreflightHeader(file: seq<Byte>) returns (r: Result<(Meta, seq<Tensor>), GgufError>)
    ensures r == Grow(file, FIRST_WINDOW)
  {
    hide Listing, Window;
    var want := FIRST_WINDOW;
    while true
      invariant want > 0 && Grow(file, want) == Grow(file, FIRST_WINDOW)
      decreases CAP - want
    {
      r := ParseHeaderBytes(Window(file, want));
      if r.Ok? || want >= CAP || want >= |file| - 1 { return; }
      want := 2 * want;
    }
  }

  /** The last window the loop can reach. */
  function LastWindow(file: seq<Byte>): seq<Byte> { Window(file, CAP) }

  /** A shorter window either already says what a longer one says, or ends inside the header. */
  lemma WindowStable(file: seq<Byte>, want: nat, more: nat)
    requires 24 <= want <= more
    ensures Window(file, want) <= Window(file, more) <= file
    ensures Stable(|Window(file, want)|, HeaderOf(Window(file, want)), HeaderOf(Window(file, more)))
  {
    hide HeaderOf;
    var b, b' := Window(file, want), Window(file, more);
    assert b <= b';
    HeaderStable(b, b');
  }

  /** The loop ends with what the last window says, whenever it ends. */
  lemma {:induction false} GrowsToLast(file: seq<Byte>, want: nat, k: nat)
    requires 24 <= want && CAP == Scaled(want, k)
    ensures Grow(file, want) == Listing(LastWindow(file))
    decreases k
  {
    hide HeaderOf, TensorsOf;
    ScaledGrows(want, k);
    WindowStable(file, want, CAP);
    if want >= |file| - 1 {
      assert Window(file, want) == file == LastWindow(file);
    } else if want < CAP {
      GrowsToLast(file, 2 * want, k - 1);
    }
  }

  function Scaled(want: nat, k: nat): nat
    decreases k
  {
    if k == 0 then want else Scaled(2 * want, k - 1)
  }

  lemma {:induction false} ScaledGrows(want: nat, k: nat)
    ensures Scaled(want, k) >= want
    decreases k
  {
    if k > 0 { ScaledGrows(2 * want, k - 1); }
  }

  lemma SixDoublings()
    ensures Scaled(FIRST_WINDOW, 6) == CAP
  {
    assert Scaled(FIRST_WINDOW, 6) == Scaled(4 * FIRST_WINDOW, 4) == Scaled(16 * FIRST_WINDOW, 2);
    assert Scaled(16 * FIRST_WINDOW, 2) == Scaled(64 * FIRST_WINDOW, 0);
  }

  /** The preflight reads the header of the whole file exactly when it ends within 256 MiB and a byte, and then
      lists the metadata, names, types and shapes that the loader reads from the whole file. */
  lemma PreflightExactly(file: seq<Byte>)
    ensures var r := Grow(file, FIRST_WINDOW);
            match HeaderOf(file)
            case Ok(h) => if h.1 <= 0x1000_0001 then r == Ok((h.0.meta, TensorsOf(h.0.records))) else r.Err?
            case Err(_) => r.Err?
  {
    hide HeaderOf, TensorsOf, Scaled;
    SixDoublings();
    GrowsToLast(file, FIRST_WINDOW, 6);
    var w := LastWindow(file);
    assert w <= file;
    HeaderStable(w, file);
    HeaderInside(w);
    HeaderInside(file);
  }

  lemma HeaderInside(b: seq<Byte>)
    ensures HeaderOf(b).Ok? ==> HeaderOf(b).value.1 <= |b|
  {
    hide HeaderOf;
  }

  /** What the whole file gets wrong, other than being cut short, the preflight reports as it is. */
  lemma PreflightErrors(file: seq<Byte>)
    requires Grow(file, FIRST_WINDOW).Err? && Grow(file, FIRST_WINDOW).error != Truncated && |file| >= 24
    ensures HeaderOf(file) == Err(Grow(file, FIRST_WINDOW).error)
  {
    hide HeaderOf, TensorsOf, Scaled;
    SixDoublings();
    GrowsToLast(file, FIRST_WINDOW, 6);
    HeaderStable(LastWindow(file), file);
  }
}
