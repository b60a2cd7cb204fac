/** The deflate format as RFC 1951 and RFC 1950 set it down: what tokens, runs and blocks stand in
    a stream, and what bytes they stand for. Nothing here is taken from the inflater. */
module DeflateFormat {
  import opened Bytes
  import opened Huffman

  // ---------------------------------------------------------------- bits

  /** Section 3.1.1: the bits of each byte, the least significant first. */
  function Stream(d: seq<Byte>): (s: seq<Bit>)
    ensures |s| == 8 * |d|
  {
    seq(8 * |d|, p requires 0 <= p < 8 * |d| => d[p / 8] / Pow2(p % 8) % 2)
  }

  /** An `n`-bit number at position `p`: its bit of weight 2^k is the `k`-th of the field. */
  predicate FieldAt(s: seq<Bit>, p: nat, n: nat, v: nat) {
    p + n <= |s| && v < Pow2(n) && forall k :: 0 <= k < n ==> s[p + k] == v / Pow2(k) % 2
  }

  // ---------------------------------------------------------------- tokens

  /** Section 3.2.5: a literal byte, or a length and a distance code with their extra bits. */
  datatype Token = Literal(b: Byte) | Match(li: nat, lx: nat, di: nat, dx: nat)

  /** What a token stands for. */
  datatype Item = Raw(b: Byte) | Back(len: nat, dist: nat)

  /** Extra bits of length code 257 + `li`: none for the first eight and for the last. */
  function LengthExtra(li: nat): nat { if li < 8 || li >= 28 then 0 else li / 4 - 1 }

  /** The shortest length of each code: 3, then what follows the code before; the last is 258. */
  function LengthBase(li: nat): (len: nat)
    ensures len >= 3
  {
    if li == 0 then 3 else if li >= 28 then 258 else LengthBase(li - 1) + Pow2(LengthExtra(li - 1))
  }

  function DistanceExtra(di: nat): nat { if di < 2 then 0 else di / 2 - 1 }

  /** The nearest distance of each code: 1, then what follows the code before. */
  function DistanceBase(di: nat): (d: nat)
    ensures d > 0
  {
    if di == 0 then 1 else DistanceBase(di - 1) + Pow2(DistanceExtra(di - 1))
  }

  /** There are 29 length codes and 30 distance codes. */
  predicate TokenOk(t: Token) { t.Match? ==> t.li < 29 && t.di < 30 }

  predicate TokensOk(ts: seq<Token>) { forall k :: 0 <= k < |ts| ==> TokenOk(ts[k]) }

  function Meaning(t: Token): Item {
    match t
    case Literal(b) => Raw(b)
    case Match(li, lx, di, dx) => Back(LengthBase(li) + lx, DistanceBase(di) + dx)
  }

  /** The code of a symbol stands at position `p`. */
  predicate SymAt(lengths: seq<nat>, s: seq<Bit>, p: nat, sym: nat) {
    HasCode(lengths, sym) && BitsAt(s, p, SymbolBits(lengths, sym))
  }

  function LengthOf(lengths: seq<nat>, sym: nat): nat { if sym < |lengths| then lengths[sym] else 0 }

  function TokenEnd(ll: seq<nat>, dl: seq<nat>, p: nat, t: Token): nat {
    match t
    case Literal(b) => p + LengthOf(ll, b)
    case Match(li, _, di, _) => p + LengthOf(ll, 257 + li) + LengthExtra(li) + LengthOf(dl, di) + DistanceExtra(di)
  }

  predicate TokenAt(ll: seq<nat>, dl: seq<nat>, s: seq<Bit>, p: nat, t: Token) {
    TokenOk(t)
    && match t
       case Literal(b) => SymAt(ll, s, p, b)
       case Match(li, lx, di, dx) =>
         var p1 := p + LengthOf(ll, 257 + li);
         var p2 := p1 + LengthExtra(li);
         var p3 := p2 + LengthOf(dl, di);
         SymAt(ll, s, p, 257 + li) && FieldAt(s, p1, LengthExtra(li), lx)
         && SymAt(dl, s, p2, di) && FieldAt(s, p3, DistanceExtra(di), dx)
  }

  /** Tokens, then the end-of-block symbol. */
  predicate TokensAt(ll: seq<nat>, dl: seq<nat>, s: seq<Bit>, p: nat, ts: seq<Token>)
    decreases |ts|
  {
    if ts == [] then SymAt(ll, s, p, 256)
    else TokenAt(ll, dl, s, p, ts[0]) && TokensAt(ll, dl, s, TokenEnd(ll, dl, p, ts[0]), ts[1..])
  }

  function TokensEnd(ll: seq<nat>, dl: seq<nat>, p: nat, ts: seq<Token>): nat
    decreases |ts|
  {
    if ts == [] then p + LengthOf(ll, 256) else TokensEnd(ll, dl, TokenEnd(ll, dl, p, ts[0]), ts[1..])
  }

  // ---------------------------------------------------------------- code lengths

  /** Section 3.2.6: the code lengths of the fixed literal and length symbols. */
  function FixedLiteralLengths(): (w: seq<nat>)
    ensures |w| == 288 && Lengths(w)
  {
    Repeat(8, 144) + Repeat(9, 112) + Repeat(7, 24) + Repeat(8, 8)
  }

  function FixedDistanceLengths(): (w: seq<nat>)
    ensures |w| == 30 && Lengths(w)
  {
    Repeat(5, 30)
  }

  /** Section 3.2.7: the symbols that run-length code the code lengths. */
  datatype Run = One(l: nat) | Previous(n: nat) | Zeros3(n: nat) | Zeros7(n: nat)

  function RunSym(r: Run): nat {
    match r case One(l) => l case Previous(_) => 16 case Zeros3(_) => 17 case Zeros7(_) => 18
  }

  function RunWidth(r: Run): nat {
    match r case One(_) => 0 case Previous(_) => 2 case Zeros3(_) => 3 case Zeros7(_) => 7
  }

  predicate RunAt(cl: seq<nat>, s: seq<Bit>, p: nat, r: Run) {
    && (r.One? ==> r.l <= 15)
    && SymAt(cl, s, p, RunSym(r))
    && (!r.One? ==> FieldAt(s, p + LengthOf(cl, RunSym(r)), RunWidth(r), r.n))
  }

  function RunStop(cl: seq<nat>, p: nat, r: Run): nat { p + LengthOf(cl, RunSym(r)) + RunWidth(r) }

  /** The code lengths a run stands for, after those in `acc`. */
  function RunLengths(acc: seq<nat>, r: Run): Option<seq<nat>> {
    match r
    case One(l) => Some([l])
    case Previous(n) => if acc == [] then None else Some(Repeat(acc[|acc| - 1], n + 3))
    case Zeros3(n) => Some(Repeat(0, n + 3))
    case Zeros7(n) => Some(Repeat(0, n + 11))
  }

  predicate RunsAt(cl: seq<nat>, s: seq<Bit>, p: nat, rs: seq<Run>)
    decreases |rs|
  {
    rs == [] || (RunAt(cl, s, p, rs[0]) && RunsAt(cl, s, RunStop(cl, p, rs[0]), rs[1..]))
  }

  function RunsStop(cl: seq<nat>, p: nat, rs: seq<Run>): nat
    decreases |rs|
  {
    if rs == [] then p else RunsStop(cl, RunStop(cl, p, rs[0]), rs[1..])
  }

  function ExpandRuns(acc: seq<nat>, rs: seq<Run>): (r: Option<seq<nat>>)
    ensures r.Some? ==> |acc| + |rs| <= |r.value|
    decreases |rs|
  {
    if rs == [] then Some(acc)
    else
      var l := RunLengths(acc, rs[0]);
      if l.None? then None else ExpandRuns(acc + l.value, rs[1..])
  }

  /** The symbols in the order their code lengths are sent: the three repeats, zero, then 8 and
      its neighbours below and above, going outwards. */
  function Sent(k: nat): (sym: nat)
    requires k < 19
    ensures sym < 19
  {
    if k < 3 then 16 + k else if k == 3 then 0 else if k % 2 == 0 then 8 + (k - 4) / 2 else 7 - (k - 5) / 2
  }

  /** The three-bit code lengths of the first symbols sent. */
  predicate OrderAt(s: seq<Bit>, p: nat, order: seq<nat>) {
    p + 3 * |order| <= |s| && forall k :: 0 <= k < |order| ==> FieldAt(s, p + 3 * k, 3, order[k])
  }

  function Ordered(order: seq<nat>, n: nat): (cl: seq<nat>)
    requires n <= |order| <= 19
    ensures |cl| == 19
  {
    if n == 0 then Repeat(0, 19) else Ordered(order, n - 1)[Sent(n - 1) := order[n - 1]]
  }

  // ---------------------------------------------------------------- blocks

  datatype Block =
    | Stored(data: seq<Byte>)
    | Fixed(tokens: seq<Token>)
    | Dynamic(hlit: nat, hdist: nat, order: seq<nat>, runs: seq<Run>, tokens: seq<Token>)

  function BlockType(b: Block): nat { match b case Stored(_) => 0 case Fixed(_) => 1 case Dynamic(_, _, _, _, _) => 2 }

  /** The next byte boundary. */
  function Boundary(p: nat): nat { (p + 7) / 8 * 8 }

  /** Section 3.2.4: the length, its complement, then the bytes, from the next byte boundary. */
  predicate StoredAt(s: seq<Bit>, q: nat, data: seq<Byte>) {
    && |data| < 65536 && FieldAt(s, q, 16, |data|) && FieldAt(s, q + 16, 16, 65535 - |data|)
    && q + 32 + 8 * |data| <= |s|
    && forall k :: 0 <= k < |data| ==> FieldAt(s, q + 32 + 8 * k, 8, data[k])
  }

  /** A usable pair of code-length tables. */
  predicate Usable(ll: seq<nat>, dl: seq<nat>) {
    Lengths(ll) && Lengths(dl) && Kraft(CountsOf(ll)) && Kraft(CountsOf(dl))
  }

  /** The tables a dynamic block describes: both code-length tables in one list. */
  function DynamicLengths(b: Block): Option<seq<nat>>
    requires b.Dynamic?
  {
    ExpandRuns([], b.runs)
  }

  /** Section 3.2.7, from the header on. */
  predicate DynamicAt(s: seq<Bit>, p: nat, b: Block)
    requires b.Dynamic?
  {
    && 257 <= b.hlit && 1 <= b.hdist && 4 <= |b.order| <= 19 && TokensOk(b.tokens)
    && FieldAt(s, p, 5, b.hlit - 257) && FieldAt(s, p + 5, 5, b.hdist - 1) && FieldAt(s, p + 10, 4, |b.order| - 4)
    && OrderAt(s, p + 14, b.order)
    && var cl := Ordered(b.order, |b.order|);
       var q := p + 14 + 3 * |b.order|;
       Kraft(CountsOf(cl)) && RunsAt(cl, s, q, b.runs)
       && DynamicLengths(b).Some? && |DynamicLengths(b).value| == b.hlit + b.hdist
       && var ll, dl := DynamicLengths(b).value[..b.hlit], DynamicLengths(b).value[b.hlit..];
          Usable(ll, dl) && TokensAt(ll, dl, s, RunsStop(cl, q, b.runs), b.tokens)
  }

  /** Sections 3.2.3 to 3.2.7, after the three header bits. */
  predicate BlockAt(s: seq<Bit>, p: nat, b: Block) {
    match b
    case Stored(data) => StoredAt(s, Boundary(p), data)
    case Fixed(ts) => TokensOk(ts) && TokensAt(FixedLiteralLengths(), FixedDistanceLengths(), s, p, ts)
    case Dynamic(_, _, _, _, _) => DynamicAt(s, p, b)
  }

  function BlockEnd(s: seq<Bit>, p: nat, b: Block): nat
    requires BlockAt(s, p, b)
  {
    match b
    case Stored(data) => Boundary(p) + 32 + 8 * |data|
    case Fixed(ts) => TokensEnd(FixedLiteralLengths(), FixedDistanceLengths(), p, ts)
    case Dynamic(hlit, _, order, runs, ts) =>
      var all := DynamicLengths(b).value;
      TokensEnd(all[..hlit], all[hlit..], RunsStop(Ordered(order, |order|), p + 14 + 3 * |order|, runs), ts)
  }

  /** A list of blocks, the last one marked final, starting at `p`. */
  predicate BlocksAt(s: seq<Bit>, p: nat, bs: seq<Block>)
    decreases |bs|
  {
    && bs != [] && p + 3 <= |s| && s[p] == (if |bs| == 1 then 1 else 0) && FieldAt(s, p + 1, 2, BlockType(bs[0]))
    && BlockAt(s, p + 3, bs[0]) && (|bs| > 1 ==> BlocksAt(s, BlockEnd(s, p + 3, bs[0]), bs[1..]))
  }

  /** Section 2.2 of RFC 1950: compression method 8 and no preset dictionary, then the blocks. */
  predicate Encodes(d: seq<Byte>, bs: seq<Block>) {
    && |d| >= 2 && FieldAt(Stream(d), 0, 4, 8) && Stream(d)[13] == 0
    && BlocksAt(Stream(d), 16, bs)
  }

  // ---------------------------------------------------------------- what a list of blocks stands for

  function ItemsOf(ts: seq<Token>): (items: seq<Item>)
    ensures |items| == |ts|
  {
    seq(|ts|, k requires 0 <= k < |ts| => Meaning(ts[k]))
  }

  function Plain(data: seq<Byte>): (items: seq<Item>)
    ensures |items| == |data|
  {
    seq(|data|, k requires 0 <= k < |data| => Raw(data[k]))
  }

  function BlockItems(b: Block): seq<Item> { if b.Stored? then Plain(b.data) else ItemsOf(b.tokens) }

  function Items(bs: seq<Block>): seq<Item> { if bs == [] then [] else BlockItems(bs[0]) + Items(bs[1..]) }

  /** From position `p` on, `out` is what the items stand for: a literal is the byte itself, and each
      byte of a match is the byte `dist` before it, the match's own bytes included. */
  predicate Reads(items: seq<Item>, p: nat, out: seq<nat>)
    decreases |items|
  {
    if items == [] then p == |out|
    else match items[0]
      case Raw(b) => p < |out| && out[p] == b && Reads(items[1..], p + 1, out)
      case Back(len, dist) =>
        0 < dist <= p && p + len <= |out| && (forall k :: p <= k < p + len ==> out[k] == out[k - dist])
        && Reads(items[1..], p + len, out)
  }
}
