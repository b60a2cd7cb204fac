/** PNG scanline filters: the defilter loop of the decoder, the filters of section 6 of RFC 2083
    written from the standard, and why the loop inverts them. */
module PngFilter {
  import opened Bytes
  import opened Huffman
  import Deflate
  import DeflateFormat
  import Inflate

  datatype PngError = UnknownFilter(f: nat) | TooShort | BadStream(e: InflateError)

  function Abs(x: int): nat { if x < 0 then -x else x }

  /** Whichever of left, above and upper left is nearest to left + above - upper left. */
  function Paeth(a: Byte, b: Byte, c: Byte): Byte {
    var p := (a as int) + b - c;
    var pa, pb, pc := Abs(p - a), Abs(p - b), Abs(p - c);
    if pa <= pb && pa <= pc then a else if pb <= pc then b else c
  }

  /** The predictor of filter type `f` from the byte to the left, above, and above left. */
  function Predict(f: nat, a: Byte, b: Byte, c: Byte): Byte
    requires f <= 4
  {
    match f
    case 0 => 0
    case 1 => a
    case 2 => b
    case 3 => ((a as int) + b) / 2
    case _ => Paeth(a, b, c)
  }

  /** An image: `n` bytes a row, `h` rows, `bpp` bytes a pixel (at least 1). */
  datatype Shape = Shape(n: nat, h: nat, bpp: nat)

  predicate ShapeOk(s: Shape) { s.n > 0 && s.bpp > 0 }

  /** Where row `y` starts when rows have `n` bytes: `y * n`. */
  function Row(n: nat, y: nat): nat { if y == 0 then 0 else Row(n, y - 1) + n }

  lemma {:induction false} RowIs(n: nat, y: nat)
    ensures Row(n, y) == y * n
  {
    if y > 0 { RowIs(n, y - 1); }
  }

  lemma {:induction false} RowFits(n: nat, h: nat, y: nat)
    requires y < h
    ensures Row(n, y) + n <= Row(n, h)
  {
    if y < h - 1 { RowFits(n, h - 1, y); }
  }

  function Get(img: seq<Byte>, k: int): Byte { if 0 <= k < |img| then img[k] else 0 }

  /** The prediction for the byte at row `y`, column `x` under filter `f`, from the bytes known so
      far; a neighbour left of the row or above the image counts as 0. */
  function Prediction(s: Shape, img: seq<Byte>, f: nat, y: nat, x: nat): Byte
    requires f <= 4
  {
    var k := Row(s.n, y) + x;
    Predict(f,
            if x >= s.bpp then Get(img, k - s.bpp) else 0,
            if y > 0 then Get(img, k - s.n) else 0,
            if x >= s.bpp && y > 0 then Get(img, k - s.n - s.bpp) else 0)
  }

  // ---------------------------------------------------------------- filtering, from the standard

  predicate Filters(s: Shape, fs: seq<Byte>) { |fs| == s.h && forall y :: 0 <= y < s.h ==> fs[y] <= 4 }

  predicate Image(s: Shape, img: seq<Byte>) { |img| == Row(s.n, s.h) }

  /** A row as the differences from its predictions, modulo 256. */
  function FilteredRow(s: Shape, f: nat, img: seq<Byte>, y: nat): (row: seq<Byte>)
    requires f <= 4
    ensures |row| == s.n
  {
    seq(s.n, x requires 0 <= x < s.n =>
      ((Get(img, Row(s.n, y) + x) as int) - Prediction(s, img, f, y, x)) % 256)
  }

  /** The first `y` rows, each after its filter type. */
  function Filtered(s: Shape, fs: seq<Byte>, img: seq<Byte>, y: nat): (raw: seq<Byte>)
    requires Filters(s, fs) && y <= s.h
    ensures |raw| == Row(s.n + 1, y)
  {
    if y == 0 then [] else Filtered(s, fs, img, y - 1) + ([fs[y - 1]] + FilteredRow(s, fs[y - 1], img, y - 1))
  }

  lemma {:induction false} FilteredAt(s: Shape, fs: seq<Byte>, img: seq<Byte>, y: nat, h: nat, x: nat)
    requires Filters(s, fs) && y < h <= s.h && x <= s.n
    ensures Row(s.n + 1, y) + x < Row(s.n + 1, h)
    ensures Filtered(s, fs, img, h)[Row(s.n + 1, y) + x]
            == if x == 0 then fs[y] else FilteredRow(s, fs[y], img, y)[x - 1]
  {
    hide FilteredRow;
    RowFits(s.n + 1, h, y);
    if y < h - 1 { FilteredAt(s, fs, img, y, h - 1, x); }
  }

  // ---------------------------------------------------------------- the defilter loop

  predicate RawFor(s: Shape, raw: seq<nat>) { |raw| >= Row(s.n + 1, s.h) }

  /** One more byte of the image, or the error of an unknown filter type. */
  function Reconstruct(s: Shape, img: seq<Byte>, f: nat, v: nat, y: nat, x: nat): Result<seq<Byte>, PngError> {
    if f > 4 then Err(UnknownFilter(f)) else Ok(img + [(v + Prediction(s, img, f, y, x)) % 256])
  }

  predicate Reached(s: Shape, y: nat, x: nat) { x <= s.n && (y < s.h || (y == s.h && x == 0)) }

  /** The image so far: all rows before `y`, and `x` bytes of row `y`. */
  function Unfilter(s: Shape, raw: seq<nat>, y: nat, x: nat): (r: Result<seq<Byte>, PngError>)
    requires RawFor(s, raw) && Reached(s, y, x)
    ensures r.Ok? ==> |r.value| == Row(s.n, y) + x
    decreases y, x
  {
    if x == 0 then
      if y == 0 then Ok([]) else Unfilter(s, raw, y - 1, s.n)
    else
      RowFits(s.n + 1, s.h, y);
      var r := Unfilter(s, raw, y, x - 1);
      if r.Err? then r
      else Reconstruct(s, r.value, raw[Row(s.n + 1, y)], raw[Row(s.n + 1, y) + x], y, x - 1)
  }

  lemma {:induction false} UnfilterFails(s: Shape, raw: seq<nat>, y: nat, x: nat, y': nat, x': nat)
    requires RawFor(s, raw) && Reached(s, y, x) && Reached(s, y', x') && Unfilter(s, raw, y, x).Err?
    requires y < y' || (y == y' && x <= x')
    ensures Unfilter(s, raw, y', x') == Unfilter(s, raw, y, x)
    decreases y', x'
  {
    if y < y' && x' == 0 {
      UnfilterFails(s, raw, y, x, y' - 1, s.n);
    } else if y < y' || x < x' {
      UnfilterFails(s, raw, y, x, y', x' - 1);
    }
  }

  /** One byte of the loop body: `v` is the filtered byte. */
  method DefilterByte(s: Shape, f: nat, v: nat, y: nat, x: nat, img: array<Byte>) returns (r: Result<(), PngError>)
    requires ShapeOk(s) && x < s.n && Row(s.n, y) + x < img.Length
    modifies img
    ensures match Reconstruct(s, old(img[..Row(s.n, y) + x]), f, v, y, x)
            case Ok(known) => r == Ok(()) && img[..Row(s.n, y) + x + 1] == known
            case Err(e) => r == Err(e)
  {
    hide Predict;
    RowIs(s.n, y);
    ghost var known := img[..Row(s.n, y) + x];
    var at := y * s.n + x;
    assert y > 0 ==> Row(s.n, y) == Row(s.n, y - 1) + s.n;
    var a: Byte := if x >= s.bpp then img[at - s.bpp] else 0;
    var b: Byte := if y > 0 then img[at - s.n] else 0;
    var c: Byte := if x >= s.bpp && y > 0 then img[at - s.n - s.bpp] else 0;
    if f > 4 { return Err(UnknownFilter(f)); }
    img[at] := (v + Predict(f, a, b, c)) % 256;
    assert img[..at + 1] == known + [img[at]];
    return Ok(());
  }

  lemma NoRows(s: Shape, raw: seq<nat>)
    requires RawFor(s, raw)
    ensures Row(s.n, 0) == 0 && Unfilter(s, raw, 0, 0) == Ok([])
  {
  }

  lemma NextRow(s: Shape, raw: seq<nat>, y: nat)
    requires RawFor(s, raw) && y < s.h
    ensures Unfilter(s, raw, y + 1, 0) == Unfilter(s, raw, y, s.n) && Row(s.n, y + 1) == Row(s.n, y) + s.n
  {
  }

  lemma NextByte(s: Shape, raw: seq<nat>, y: nat, x: nat)
    requires RawFor(s, raw) && y < s.h && x < s.n
    ensures Row(s.n + 1, y) + 1 + x < |raw|
    ensures Unfilter(s, raw, y, x + 1).Ok? ==> Unfilter(s, raw, y, x).Ok?
    ensures Unfilter(s, raw, y, x).Ok? ==>
              Unfilter(s, raw, y, x + 1) == Reconstruct(s, Unfilter(s, raw, y, x).value, raw[Row(s.n + 1, y)],
                                                        raw[Row(s.n + 1, y) + 1 + x], y, x)
  {
    hide Reconstruct, Row;
    RowFits(s.n + 1, s.h, y);
  }

  /** The loop itself, filling the image in place. */
  method Defilter(s: Shape, raw: seq<nat>, img: array<Byte>) returns (r: Result<(), PngError>)
    requires ShapeOk(s) && RawFor(s, raw) && img.Length == Row(s.n, s.h)
    modifies img
    ensures match Unfilter(s, raw, s.h, 0) case Ok(v) => r == Ok(()) && img[..] == v case Err(e) => r == Err(e)
  {
    hide Reconstruct, Unfilter;
    NoRows(s, raw);
    for y := 0 to s.h
      invariant Row(s.n, y) <= img.Length
      invariant Unfilter(s, raw, y, 0).Ok? && img[..Row(s.n, y)] == Unfilter(s, raw, y, 0).value
    {
      RowFits(s.n, s.h, y);
      RowFits(s.n + 1, s.h, y);
      RowIs(s.n + 1, y);
      var f := raw[y * (s.n + 1)];
      for x := 0 to s.n
        invariant Unfilter(s, raw, y, x).Ok? && img[..Row(s.n, y) + x] == Unfilter(s, raw, y, x).value
      {
        NextByte(s, raw, y, x);
        var ok := DefilterByte(s, f, raw[y * (s.n + 1) + 1 + x], y, x, img);
        if ok.Err? {
          UnfilterFails(s, raw, y, x + 1, s.h, 0);
          return ok;
        }
      }
      NextRow(s, raw, y);
    }
    return Ok(());
  }

  // ---------------------------------------------------------------- the loop inverts the filters

  /** Bytes not yet known do not enter a prediction. */
  lemma PrefixPredicts(s: Shape, img: seq<Byte>, f: nat, y: nat, x: nat)
    requires ShapeOk(s) && f <= 4 && Row(s.n, y) + x <= |img|
    ensures Prediction(s, img[..Row(s.n, y) + x], f, y, x) == Prediction(s, img, f, y, x)
  {
    hide Predict;
  }

  /** One filtered byte restores the byte it was made from. */
  lemma ByteRestored(s: Shape, f: nat, img: seq<Byte>, y: nat, x: nat)
    requires ShapeOk(s) && f <= 4 && x < s.n && Row(s.n, y) + x < |img|
    ensures Reconstruct(s, img[..Row(s.n, y) + x], f, FilteredRow(s, f, img, y)[x], y, x)
            == Ok(img[..Row(s.n, y) + x + 1])
  {
    hide Prediction;
    var k := Row(s.n, y) + x;
    PrefixPredicts(s, img, f, y, x);
    assert img[..k + 1] == img[..k] + [img[k]];
  }

  /** Reconstructing filtered rows restores the image. */
  lemma {:induction false} UnfilterInverts(s: Shape, fs: seq<Byte>, img: seq<Byte>, raw: seq<nat>, y: nat, x: nat)
    requires ShapeOk(s) && Filters(s, fs) && Image(s, img) && Reached(s, y, x)
    requires Filtered(s, fs, img, s.h) <= raw
    ensures Row(s.n, y) + x <= |img| && Unfilter(s, raw, y, x) == Ok(img[..Row(s.n, y) + x])
    decreases y, x
  {
    hide Reconstruct, FilteredRow, Filtered;
    if x > 0 {
      RowFits(s.n, s.h, y);
      UnfilterInverts(s, fs, img, raw, y, x - 1);
      FilteredAt(s, fs, img, y, s.h, 0);
      FilteredAt(s, fs, img, y, s.h, x);
      ByteRestored(s, fs[y], img, y, x - 1);
    } else if y > 0 {
      UnfilterInverts(s, fs, img, raw, y - 1, s.n);
    }
  }

  /** Filter types of the rows of filtered data. */
  function TypesOf(s: Shape, raw: seq<nat>): (fs: seq<nat>)
    requires RawFor(s, raw)
    ensures |fs| == s.h
  {
    seq(s.h, y requires 0 <= y < s.h => (RowFits(s.n + 1, s.h, y); raw[Row(s.n + 1, y)]))
  }

  predicate AreBytes(w: seq<nat>) { forall k :: 0 <= k < |w| ==> w[k] < 256 }

  predicate AllKnown(fs: seq<nat>) { forall y :: 0 <= y < |fs| ==> fs[y] <= 4 }

  /** The loop succeeds exactly when every row names one of the five filters. */
  lemma {:induction false} UnfilterSucceeds(s: Shape, raw: seq<nat>, y: nat, x: nat)
    requires ShapeOk(s) && RawFor(s, raw) && Reached(s, y, x)
    ensures Unfilter(s, raw, y, x).Ok?
            <==> AllKnown(TypesOf(s, raw)[..y]) && (x > 0 ==> TypesOf(s, raw)[y] <= 4)
    decreases y, x
  {
    hide Prediction;
    if x > 0 {
      UnfilterSucceeds(s, raw, y, x - 1);
    } else if y > 0 {
      UnfilterSucceeds(s, raw, y - 1, s.n);
      var fs := TypesOf(s, raw);
      assert fs[..y] == fs[..y - 1] + [fs[y - 1]];
    }
  }

  lemma {:induction false} UnfilterGrows(s: Shape, raw: seq<nat>, y: nat, x: nat, y': nat, x': nat)
    requires RawFor(s, raw) && Reached(s, y, x) && Reached(s, y', x') && Unfilter(s, raw, y', x').Ok?
    requires y < y' || (y == y' && x <= x')
    ensures Unfilter(s, raw, y, x).Ok? && Unfilter(s, raw, y, x).value <= Unfilter(s, raw, y', x').value
    decreases y', x'
  {
    hide Prediction;
    if y < y' && x' == 0 {
      UnfilterGrows(s, raw, y, x, y' - 1, s.n);
    } else if y < y' || x < x' {
      UnfilterGrows(s, raw, y, x, y', x' - 1);
    }
  }

  /** The equation of the standard, over the finished image. */
  lemma Equation(s: Shape, raw: seq<nat>, y: nat, x: nat, img: seq<Byte>)
    requires ShapeOk(s) && RawFor(s, raw) && Unfilter(s, raw, s.h, 0) == Ok(img) && y < s.h && x < s.n
    ensures Row(s.n + 1, y) + 1 + x < |raw| && raw[Row(s.n + 1, y)] <= 4 && Row(s.n, y) + x < |img|
    ensures img[Row(s.n, y) + x]
            == (raw[Row(s.n + 1, y) + 1 + x] + Prediction(s, img, raw[Row(s.n + 1, y)], y, x)) % 256
  {
    hide Prediction, Row, Unfilter;
    RowFits(s.n + 1, s.h, y);
    UnfilterGrows(s, raw, y, x, s.h, 0);
    UnfilterGrows(s, raw, y, x + 1, s.h, 0);
    NextByte(s, raw, y, x);
    var known := Unfilter(s, raw, y, x).value;
    assert known == img[..Row(s.n, y) + x];
    PrefixPredicts(s, img, raw[Row(s.n + 1, y)], y, x);
  }

  // ---------------------------------------------------------------- the five filters

  /** Of left, above and upper left, `p` is the first that is nearest to left + above - upper left. */
  predicate Nearest(left: Byte, above: Byte, corner: Byte, p: Byte) {
    var goal := (left as int) + above - corner;
    var l, a, c := Abs(goal - left), Abs(goal - above), Abs(goal - corner);
    (p == left && l <= a && l <= c) || (p == above && a < l && a <= c) || (p == corner && c < l && c < a)
  }

  /** Section 6 of RFC 2083: the byte `out` restored from the filtered byte `v` under filter type `f`. */
  predicate Restores(f: nat, v: nat, left: Byte, above: Byte, corner: Byte, out: Byte) {
    match f
    case 0 => out == v % 256
    case 1 => out == (v + left) % 256
    case 2 => out == (v + above) % 256
    case 3 => out == (v + ((left as int) + above) / 2) % 256
    case 4 => exists p: Byte :: Nearest(left, above, corner, p) && out == (v + p) % 256
    case _ => false
  }

  /** The finished bytes beside row `y`, column `x`: one pixel to the left, in the row above, and one
      pixel to the left in the row above, 0 where there is none. */
  function Beside(s: Shape, img: seq<Byte>, y: nat, x: nat): (Byte, Byte, Byte)
    requires Image(s, img) && y < s.h && x < s.n
  {
    RowFits(s.n, s.h, y);
    (if x >= s.bpp then img[Row(s.n, y) + x - s.bpp] else 0,
     if y > 0 then img[Row(s.n, y - 1) + x] else 0,
     if x >= s.bpp && y > 0 then img[Row(s.n, y - 1) + x - s.bpp] else 0)
  }

  /** The byte at row `y`, column `x` of the finished image is restored from the bytes beside it. */
  predicate Follows(s: Shape, raw: seq<nat>, img: seq<Byte>, y: nat, x: nat)
    requires RawFor(s, raw) && Image(s, img) && y < s.h && x < s.n
  {
    hide Restores, Beside;
    RowFits(s.n + 1, s.h, y);
    RowFits(s.n, s.h, y);
    var near := Beside(s, img, y, x);
    Restores(raw[Row(s.n + 1, y)], raw[Row(s.n + 1, y) + 1 + x], near.0, near.1, near.2, img[Row(s.n, y) + x])
  }

  lemma PaethIsNearest(a: Byte, b: Byte, c: Byte, p: Byte)
    ensures Nearest(a, b, c, p) <==> p == Paeth(a, b, c)
  {
  }

  lemma RestoresIs(f: nat, v: nat, a: Byte, b: Byte, c: Byte, out: Byte)
    ensures Restores(f, v, a, b, c, out) <==> f <= 4 && out == (v + Predict(f, a, b, c)) % 256
  {
    hide Paeth, Nearest;
    PaethIsNearest(a, b, c, Paeth(a, b, c));
    if f == 4 && Restores(f, v, a, b, c, out) {
      var p: Byte :| Nearest(a, b, c, p) && out == (v + p) % 256;
      PaethIsNearest(a, b, c, p);
    }
  }

  lemma PredictsBeside(s: Shape, img: seq<Byte>, f: nat, y: nat, x: nat)
    requires ShapeOk(s) && Image(s, img) && y < s.h && x < s.n && f <= 4
    ensures var near := Beside(s, img, y, x); Prediction(s, img, f, y, x) == Predict(f, near.0, near.1, near.2)
  {
    hide Predict;
    RowFits(s.n, s.h, y);
    assert y > 0 ==> Row(s.n, y) == Row(s.n, y - 1) + s.n;
  }

  lemma FollowsIs(s: Shape, raw: seq<nat>, img: seq<Byte>, y: nat, x: nat)
    requires ShapeOk(s) && RawFor(s, raw) && Image(s, img) && y < s.h && x < s.n
    ensures Row(s.n + 1, y) + 1 + x < |raw| && Row(s.n, y) + x < |img|
    ensures Follows(s, raw, img, y, x)
            <==> raw[Row(s.n + 1, y)] <= 4
                 && img[Row(s.n, y) + x]
                    == (raw[Row(s.n + 1, y) + 1 + x] + Prediction(s, img, raw[Row(s.n + 1, y)], y, x)) % 256
  {
    hide Predict, Restores, Prediction, Row, Beside;
    RowFits(s.n + 1, s.h, y);
    RowFits(s.n, s.h, y);
    var f, near := raw[Row(s.n + 1, y)], Beside(s, img, y, x);
    if f <= 4 { PredictsBeside(s, img, f, y, x); }
    RestoresIs(f, raw[Row(s.n + 1, y) + 1 + x], near.0, near.1, near.2, img[Row(s.n, y) + x]);
  }

  /** An image whose bytes follow their filters is what the loop computes. */
  lemma {:induction false} FollowedIsUnfiltered(s: Shape, raw: seq<nat>, img: seq<Byte>, y: nat, x: nat)
    requires ShapeOk(s) && RawFor(s, raw) && Image(s, img) && Reached(s, y, x)
    requires forall y, x :: 0 <= y < s.h && 0 <= x < s.n ==> Follows(s, raw, img, y, x)
    ensures Row(s.n, y) + x <= |img| && Unfilter(s, raw, y, x) == Ok(img[..Row(s.n, y) + x])
    decreases y, x
  {
    hide Prediction, Follows;
    if x > 0 {
      RowFits(s.n, s.h, y);
      FollowedIsUnfiltered(s, raw, img, y, x - 1);
      FollowsIs(s, raw, img, y, x - 1);
      PrefixPredicts(s, img, raw[Row(s.n + 1, y)], y, x - 1);
      assert img[..Row(s.n, y) + x] == img[..Row(s.n, y) + x - 1] + [img[Row(s.n, y) + x - 1]];
    } else if y > 0 {
      FollowedIsUnfiltered(s, raw, img, y - 1, s.n);
    }
  }

  /** The loop gives an image exactly when every byte of it follows the filter of its row. */
  lemma UnfilterFollows(s: Shape, raw: seq<nat>, img: seq<Byte>)
    requires ShapeOk(s) && RawFor(s, raw) && Image(s, img)
    ensures Unfilter(s, raw, s.h, 0) == Ok(img)
            <==> forall y, x :: 0 <= y < s.h && 0 <= x < s.n ==> Follows(s, raw, img, y, x)
  {
    hide Prediction, Follows, Unfilter;
    if Unfilter(s, raw, s.h, 0) == Ok(img) {
      forall y, x | 0 <= y < s.h && 0 <= x < s.n ensures Follows(s, raw, img, y, x) {
        Equation(s, raw, y, x, img);
        FollowsIs(s, raw, img, y, x);
      }
    }
    if forall y, x :: 0 <= y < s.h && 0 <= x < s.n ==> Follows(s, raw, img, y, x) {
      FollowedIsUnfiltered(s, raw, img, s.h, 0);
      assert img[..Row(s.n, s.h)] == img;
    }
  }

  // ---------------------------------------------------------------- filtering again

  lemma RowAgain(s: Shape, raw: seq<nat>, f: nat, y: nat, img: seq<Byte>)
    requires ShapeOk(s) && RawFor(s, raw) && AreBytes(raw) && Unfilter(s, raw, s.h, 0) == Ok(img) && y < s.h
    requires Row(s.n + 1, y) + s.n < |raw| && f == raw[Row(s.n + 1, y)] <= 4
    ensures forall x :: 0 <= x < s.n ==> FilteredRow(s, f, img, y)[x] == raw[Row(s.n + 1, y) + 1 + x]
  {
    hide Prediction, Unfilter, Row;
    forall x | 0 <= x < s.n ensures FilteredRow(s, f, img, y)[x] == raw[Row(s.n + 1, y) + 1 + x] {
      Equation(s, raw, y, x, img);
    }
  }

  /** Filtering the reconstructed image again gives the filtered rows back. */
  lemma {:induction false} FilteredAgain(s: Shape, raw: seq<nat>, fs: seq<Byte>, y: nat, img: seq<Byte>)
    requires ShapeOk(s) && RawFor(s, raw) && AreBytes(raw) && Unfilter(s, raw, s.h, 0) == Ok(img) && y <= s.h
    requires fs == TypesOf(s, raw) && Filters(s, fs)
    ensures Filtered(s, fs, img, y) <= raw
  {
    hide Unfilter, FilteredRow, AreBytes;
    if y > 0 {
      FilteredAgain(s, raw, fs, y - 1, img);
      RowFits(s.n + 1, s.h, y - 1);
      RowAgain(s, raw, fs[y - 1], y - 1, img);
    }
  }

  /** The loop is the exact inverse of filtering: it gives the image if and only if the data are that
      image filtered under the row types the data name. */
  lemma DefilterInverts(s: Shape, fs: seq<Byte>, img: seq<Byte>, raw: seq<nat>)
    requires ShapeOk(s) && RawFor(s, raw) && AreBytes(raw) && Image(s, img) && fs == TypesOf(s, raw)
    ensures Unfilter(s, raw, s.h, 0) == Ok(img) <==> Filters(s, fs) && Filtered(s, fs, img, s.h) <= raw
  {
    hide Filtered, Unfilter, TypesOf;
    if Filters(s, fs) && Filtered(s, fs, img, s.h) <= raw {
      UnfilterInverts(s, fs, img, raw, s.h, 0);
      assert img[..Row(s.n, s.h)] == img;
    }
    if Unfilter(s, raw, s.h, 0) == Ok(img) {
      UnfilterSucceeds(s, raw, s.h, 0);
      assert fs[..s.h] == fs;
      FilteredAgain(s, raw, fs, s.h, img);
    }
  }

  // ---------------------------------------------------------------- from the stream to the image

  function Decoded(s: Shape, idat: seq<Byte>): Result<seq<Byte>, PngError> {
    var raw := Inflate.Inflated(idat);
    if raw.Err? then Err(BadStream(raw.error))
    else if |raw.value| < Row(s.n + 1, s.h) then Err(TooShort)
    else Unfilter(s, raw.value, s.h, 0)
  }

  /** Inflating the image data and undoing the filters. */
  method DecodeRows(s: Shape, idat: seq<Byte>) returns (r: Result<seq<Byte>, PngError>)
    requires ShapeOk(s)
    ensures r == Decoded(s, idat)
  {
    hide Unfilter, Row, Inflate.Inflated;
    var raw := Inflate.InflateZlib(idat);
    if raw.Err? { return Err(BadStream(raw.error)); }
    RowIs(s.n, s.h);
    RowIs(s.n + 1, s.h);
    if |raw.value| < s.h * (s.n + 1) { return Err(TooShort); }
    var img := new Byte[s.h * s.n](_ => 0);
    var ok := Defilter(s, raw.value, img);
    if ok.Err? { return Err(ok.error); }
    return Ok(img[..]);
  }

  /** Any deflate encoding, in any blocks, of an image filtered under any choice of row types decodes
      to that image; bytes after the last row are ignored. */
  lemma DecodesImage(s: Shape, fs: seq<Byte>, img: seq<Byte>, bs: seq<DeflateFormat.Block>, idat: seq<Byte>,
                     raw: seq<nat>)
    requires ShapeOk(s) && Filters(s, fs) && Image(s, img) && Filtered(s, fs, img, s.h) <= raw
    requires DeflateFormat.Encodes(idat, bs) && DeflateFormat.Reads(DeflateFormat.Items(bs), 0, raw)
    ensures Decoded(s, idat) == Ok(img)
  {
    hide Filtered, DeflateFormat.Encodes, DeflateFormat.Reads, DeflateFormat.Items, Unfilter, Inflate.Inflated, Row;
    Deflate.InflateDecodes(idat, bs, raw);
    UnfilterInverts(s, fs, img, raw, s.h, 0);
    assert img[..Row(s.n, s.h)] == img;
    assert Row(s.n, s.h) + 0 == Row(s.n, s.h);
  }
}
