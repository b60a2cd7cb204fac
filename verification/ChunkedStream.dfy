/** The streaming wire path: the server's chunked NDJSON writer, the client's incremental chunked
    decoder, and the client loop that hands each line's object to a callback. */
module ChunkedStream {
  import opened Bytes
  import opened Search
  import opened JsonAccess
  import opened JsonGrammar
  import opened JsonParser
  import P = JsonPrinter
  import A = JsonAgreement

  const CRLF: seq<Byte> := [CR, LF]

  // ---------------------------------------------------------------- chunk sizes

  function Pow16(k: nat): (r: nat)
    ensures r > 0
  {
    if k == 0 then 1 else 16 * Pow16(k - 1)
  }

  /** A number in lower-case hexadecimal, without leading zeros. */
  function Hex(n: nat): seq<Byte> {
    if n < 16 then [P.HexLower(n)] else Hex(n / 16) + [P.HexLower(n % 16)]
  }

  /** A size line: an optional plus sign and hexadecimal digits below 2^64, with space around them;
      anything else is not a size. */
  function SizeOf(line: seq<Byte>): Option<nat> {
    var t := Trim(line);
    var d := if t != [] && t[0] == PLUS then t[1..] else t;
    if d == [] || !AllHex(d) || HexValue(d) >= Pow16(16) then None else Some(HexValue(d))
  }

  /** A line is a size exactly when, trimmed, it is hexadecimal digits worth less than 2^64, perhaps after a
      plus. */
  lemma SizesExactly(line: seq<Byte>, n: nat)
    ensures SizeOf(line) == Some(n)
            <==> exists d :: (Trim(line) == d || Trim(line) == [PLUS] + d) && d != [] && AllHex(d)
                             && HexValue(d) == n < 0x1_0000_0000_0000_0000
  {
    hide HexValue, Trim, Pow16;
    SixteenDigits();
    var t := Trim(line);
    if SizeOf(line) == Some(n) {
      var d := if t[0] == PLUS then t[1..] else t;
      assert t == d || t == [PLUS] + d;
    }
    forall d | (t == d || t == [PLUS] + d) && d != [] && AllHex(d) && HexValue(d) == n < 0x1_0000_0000_0000_0000
      ensures SizeOf(line) == Some(n)
    {
      assert d[0] != PLUS;
      if t == [PLUS] + d { assert t[1..] == d; }
    }
  }

  lemma SixteenDigits()
    ensures Pow16(16) == 0x1_0000_0000_0000_0000
  {
    assert Pow16(4) == 0x1_0000 && Pow16(8) == 0x1_0000_0000 && Pow16(12) == 0x1_0000_0000_0000;
  }

  lemma {:induction false} HexReads(n: nat)
    ensures AllHex(Hex(n)) && HexValue(Hex(n)) == n && Hex(n) != [] && Hex(n)[0] != PLUS
  {
    if n >= 16 {
      HexReads(n / 16);
      var s := Hex(n);
      assert s[..|s| - 1] == Hex(n / 16);
    } else {
      assert Hex(n)[..0] == [];
    }
  }

  lemma SizeOfHex(n: nat)
    requires n < Pow16(16)
    ensures SizeOf(Hex(n)) == Some(n)
  {
    hide Pow16, Hex, HexValue;
    HexReads(n);
    var h := Hex(n);
    TrimAround([], h, []);
    assert [] + h + [] == h;
  }

  // ---------------------------------------------------------------- the decoder

  /** Bytes left in the current chunk, the framing line so far, and whether the last chunk was seen. */
  datatype Dec = Dec(remaining: nat, line: seq<Byte>, done: bool)

  const START: Dec := Dec(0, [], false)

  predicate EndsLine(s: seq<Byte>) { |s| >= 2 && s[|s| - 2] == CR && s[|s| - 1] == LF }

  /** A whole framing line was read: an empty one closes a chunk, a size opens one, 0 ends the body. */
  function Framed(line: seq<Byte>): Dec {
    if line == [] then START
    else
      match SizeOf(line)
      case Some(n) => Dec(n, [], n == 0)
      case None => START
  }

  /** One byte off the wire: the new state, and the payload it carries. */
  function FeedByte(d: Dec, b: Byte): (Dec, seq<Byte>) {
    if d.done then (d, [])
    else if d.remaining > 0 then (d.(remaining := d.remaining - 1), [b])
    else
      var line := d.line + [b];
      if EndsLine(line) then (Framed(line[..|line| - 2]), []) else (Dec(0, line, false), [])
  }

  function Feed(d: Dec, s: seq<Byte>): (Dec, seq<Byte>)
    decreases |s|
  {
    if s == [] then (d, [])
    else
      var f := FeedByte(d, s[0]);
      var r := Feed(f.0, s[1..]);
      (r.0, f.1 + r.1)
  }

  /** Feeding in two parts is feeding at once: no split of the stream matters. */
  lemma {:induction false} FeedSplit(d: Dec, a: seq<Byte>, b: seq<Byte>)
    ensures var x := Feed(d, a); var y := Feed(x.0, b); Feed(d, a + b) == (y.0, x.1 + y.1)
    decreases |a|
  {
    hide FeedByte;
    if a == [] {
      assert a + b == b;
      assert [] + Feed(d, b).1 == Feed(d, b).1;
    } else {
      assert (a + b)[1..] == a[1..] + b;
      var f := FeedByte(d, a[0]);
      FeedSplit(f.0, a[1..], b);
      var x := Feed(f.0, a[1..]);
      assert f.1 + (x.1 + Feed(x.0, b).1) == f.1 + x.1 + Feed(x.0, b).1;
    }
  }

  /** The rest of a chunk's data is payload as it stands. */
  lemma {:induction false} FeedData(d: Dec, data: seq<Byte>)
    requires !d.done && |data| <= d.remaining
    ensures Feed(d, data) == (d.(remaining := d.remaining - |data|), data)
    decreases |data|
  {
    if data != [] {
      FeedData(d.(remaining := d.remaining - 1), data[1..]);
      assert [data[0]] + data[1..] == data;
    }
  }

  /** Data at the front of the input, whatever comes after it. */
  lemma FeedFront(d: Dec, s: seq<Byte>, n: nat)
    requires !d.done && n <= |s| && n <= d.remaining
    ensures var y := Feed(d.(remaining := d.remaining - n), s[n..]); Feed(d, s) == (y.0, s[..n] + y.1)
  {
    hide Feed;
    FeedSplit(d, s[..n], s[n..]);
    assert s == s[..n] + s[n..];
    FeedData(d, s[..n]);
  }

  lemma FeedNothing(d: Dec)
    ensures Feed(d, []) == (d, [])
  {
  }

  /** One byte at the front of the input. */
  lemma FeedFirst(d: Dec, s: seq<Byte>)
    requires s != []
    ensures var f := FeedByte(d, s[0]); var r := Feed(f.0, s[1..]); Feed(d, s) == (r.0, f.1 + r.1)
  {
    hide FeedByte;
  }

  lemma {:induction false} FeedDone(d: Dec, s: seq<Byte>)
    requires d.done
    ensures Feed(d, s) == (d, [])
  {
    if s != [] {
      FeedDone(d, s[1..]);
      P.Nothing([]);
    }
  }

  class ChunkDecoder {
    const chunked: bool
    var remaining: nat
    var line: seq<Byte>
    var done: bool

    ghost function State(): Dec
      reads this
    {
      Dec(remaining, line, done)
    }

    constructor (chunked: bool)
      ensures this.chunked == chunked && State() == START
    {
      this.chunked, remaining, line, done := chunked, 0, [], false;
    }

    /** Appends the payload of `input0`; identity transfer passes everything through. */
    method FeedBytes(input0: seq<Byte>, out0: seq<Byte>) returns (out: seq<Byte>)
      modifies this
      ensures !chunked ==> out == out0 + input0 && State() == old(State())
      ensures chunked ==> State() == Feed(old(State()), input0).0 && out == out0 + Feed(old(State()), input0).1
    {
      hide Feed, FeedByte, Framed;
      if !chunked { return out0 + input0; }
      out := out0;
      ghost var whole := Feed(State(), input0);
      var input := input0;
      while input != [] && !done
        invariant whole.0 == Feed(State(), input).0 && out0 + whole.1 == out + Feed(State(), input).1
        decreases |input|
      {
        ghost var d := State();
        if remaining > 0 {
          var take := if remaining <= |input| then remaining else |input|;
          FeedFront(d, input, take);
          out := out + input[..take];
          remaining := remaining - take;
          input := input[take..];
        } else {
          line := line + [input[0]];
          FramingByte(d, input[0]);
          FeedFirst(d, input);
          input := input[1..];
          if EndsLine(line) { TakeLine(); }
        }
      }
      if done { FeedDone(State(), input); } else { FeedNothing(State()); }
    }

    /** A complete framing line. */
    method TakeLine()
      requires EndsLine(line) && remaining == 0 && !done
      modifies this
      ensures State() == Framed(old(line)[..|old(line)| - 2])
    {
      var t := line[..|line| - 2];
      line := [];
      if t == [] { return; }
      var n := SizeOf(t);
      if n.Some? {
        if n.value == 0 { done := true; } else { remaining := n.value; }
      }
    }
  }

  lemma FramingByte(d: Dec, b: Byte)
    requires !d.done && d.remaining == 0
    ensures FeedByte(d, b)
            == (if EndsLine(d.line + [b]) then Framed((d.line + [b])[..|d.line| - 1])
                else Dec(0, d.line + [b], false), [])
  {
  }

  // ---------------------------------------------------------------- the server's framing

  /** One chunk (section 7.1 of RFC 9112): size, data, each ended by CRLF. */
  function Frame(data: seq<Byte>): seq<Byte> { Hex(|data|) + CRLF + data + CRLF }

  function LastChunk(): seq<Byte> { [ZERO] + CRLF + CRLF }

  /** No line break inside. */
  predicate NoLf(s: seq<Byte>) { forall k :: 0 <= k < |s| ==> s[k] != LF }

  lemma {:induction false} FeedLine(line: seq<Byte>, s: seq<Byte>)
    requires NoLf(line) && NoLf(s)
    ensures Feed(Dec(0, line, false), s) == (Dec(0, line + s, false), [])
    decreases |s|
  {
    if s == [] {
      assert line + s == line;
    } else {
      assert (line + [s[0]]) + s[1..] == line + s;
      FeedLine(line + [s[0]], s[1..]);
      P.Nothing([]);
    }
  }

  /** A framing line is taken as a whole. */
  lemma FeedFraming(s: seq<Byte>)
    requires NoLf(s)
    ensures Feed(START, s + CRLF) == (Framed(s), [])
  {
    hide Framed, Feed;
    var cr := s + [CR];
    FeedLine([], cr);
    assert [] + cr == cr;
    assert s + CRLF == cr + [LF];
    FeedSplit(START, cr, [LF]);
    OneByte(Dec(0, cr, false), LF);
    assert (cr + [LF])[..|cr| - 1] == s;
    P.Nothing([]);
  }

  lemma OneByte(d: Dec, b: Byte)
    ensures Feed(d, [b]) == FeedByte(d, b)
  {
    hide FeedByte;
    var f := FeedByte(d, b);
    assert [b][1..] == [];
    assert Feed(f.0, []) == (f.0, []);
    assert f.1 + [] == f.1;
  }

  lemma {:induction false} HexHasNoLf(n: nat)
    ensures NoLf(Hex(n))
  {
    if n >= 16 { HexHasNoLf(n / 16); }
  }

  /** Decoding one chunk gives its data and is ready for the next. */
  lemma FrameDecodes(data: seq<Byte>)
    requires 0 < |data| < Pow16(16)
    ensures Feed(START, Frame(data)) == (START, data)
  {
    hide Feed, Hex, Pow16, SizeOf;
    var size := Hex(|data|);
    HexHasNoLf(|data|);
    HexReads(|data|);
    FeedFraming(size);
    SizeOfHex(|data|);
    var d := Dec(|data|, [], false);
    FeedData(d, data);
    FeedFraming([]);
    assert [] + CRLF == CRLF;
    FeedSplit(START, size + CRLF, data);
    FeedSplit(START, size + CRLF + data, CRLF);
    assert [] + data == data && data + [] == data;
  }

  function Frames(datas: seq<seq<Byte>>): seq<Byte> {
    if datas == [] then [] else Frame(datas[0]) + Frames(datas[1..])
  }

  function Joined(datas: seq<seq<Byte>>): seq<Byte> {
    if datas == [] then [] else datas[0] + Joined(datas[1..])
  }

  predicate Framable(datas: seq<seq<Byte>>) { forall k :: 0 <= k < |datas| ==> 0 < |datas[k]| < Pow16(16) }

  /** A chunked body decodes to its chunks' data, and its end is recognised. */
  lemma {:induction false} BodyDecodes(datas: seq<seq<Byte>>)
    requires Framable(datas)
    ensures Feed(START, Frames(datas) + LastChunk()) == (Dec(0, [], true), Joined(datas))
    decreases |datas|
  {
    hide Feed, Frame, Pow16, Framed;
    if datas == [] {
      assert Frames(datas) + LastChunk() == [ZERO] + CRLF + CRLF;
      LastDecodes();
    } else {
      FrameDecodes(datas[0]);
      BodyDecodes(datas[1..]);
      assert Frames(datas) + LastChunk() == Frame(datas[0]) + (Frames(datas[1..]) + LastChunk());
      FeedSplit(START, Frame(datas[0]), Frames(datas[1..]) + LastChunk());
    }
  }

  lemma LastDecodes()
    ensures Feed(START, [ZERO] + CRLF + CRLF) == (Dec(0, [], true), [])
  {
    hide Feed, Hex, SizeOf;
    FeedFraming([ZERO]);
    assert Hex(0) == [ZERO] by { ZeroHex(); }
    SizeOfHex(0);
    FeedDone(Dec(0, [], true), CRLF);
    P.Nothing([]);
    FeedSplit(START, [ZERO] + CRLF, CRLF);
  }

  lemma ZeroHex()
    ensures Hex(0) == [ZERO]
  {
  }

  // ---------------------------------------------------------------- the server's writer

  /** How the socket treats one call of the writer. */
  datatype Net = Sent | HeaderLost(cut: nat) | BodyLost(cut: nat)

  function Take(s: seq<Byte>, n: nat): seq<Byte> { if n <= |s| then s[..n] else s }

  function LineOf(j: Json): seq<Byte>
    requires P.Dumpable(j)
  {
    P.Dump(j) + [LF]
  }

  predicate AllDumpable(js: seq<Json>) { forall k :: 0 <= k < |js| ==> P.Dumpable(js[k]) }

  class ChunkedWriter {
    const header: seq<Byte>
    var wire: seq<Byte>
    var started: bool
    var dead: bool

    constructor (header: seq<Byte>)
      ensures this.header == header && wire == [] && !started && !dead
    {
      this.header, wire, started, dead := header, [], false, false;
    }

    /** One object as one chunk, after the response header the first time. A failed write leaves an
        unknown part on the wire and silences the writer for good. */
    method Line(j: Json, net: Net)
      requires P.Dumpable(j)
      modifies this
      ensures old(dead) ==> dead && wire == old(wire) && started == old(started)
      ensures !old(dead) ==> started
      ensures !old(dead) && net.Sent? ==>
                !dead && wire == old(wire) + (if old(started) then [] else header) + Frame(LineOf(j))
      ensures !old(dead) && net.BodyLost? ==>
                dead && wire == old(wire) + (if old(started) then [] else header) + Take(Frame(LineOf(j)), net.cut)
      ensures !old(dead) && net.HeaderLost? && !old(started) ==> dead && wire == old(wire) + Take(header, net.cut)
      ensures !old(dead) && net.HeaderLost? && old(started) ==> !dead && wire == old(wire) + Frame(LineOf(j))
    {
      hide Frame;
      if dead { return; }
      ghost var before := wire;
      if !started {
        started := true;
        if net.HeaderLost? {
          dead := true;
          wire := wire + Take(header, net.cut);
          return;
        }
        wire := wire + header;
      } else {
        P.Nothing(wire);
      }
      var data := P.DumpText(j);
      data := data + [LF];
      if net.BodyLost? {
        dead := true;
        wire := wire + Take(Frame(data), net.cut);
      } else {
        wire := wire + Frame(data);
      }
    }

    /** The last chunk, if the client is still there. */
    method Finish()
      modifies this
      ensures wire == old(wire) + (if started && !dead then LastChunk() else [])
      ensures started == old(started) && dead == old(dead)
    {
      if started && !dead {
        wire := wire + LastChunk();
      } else {
        P.Nothing(wire);
      }
    }
  }

  /** A whole stream, written without failures. */
  method WriteAll(js: seq<Json>, header: seq<Byte>) returns (wire: seq<Byte>)
    requires js != [] && AllDumpable(js)
    ensures wire == header + Wire(js)
  {
    hide Frame, LineOf, Frames, LastChunk;
    var w := new ChunkedWriter(header);
    for k := 0 to |js|
      invariant !w.dead && w.started == (k > 0) && w.header == header
      invariant w.wire == if k == 0 then [] else header + Frames(LinesOf(js[..k]))
    {
      w.Line(js[k], Sent);
      FramesSnoc(LinesOf(js[..k]), LineOf(js[k]));
      assert LinesOf(js[..k + 1]) == LinesOf(js[..k]) + [LineOf(js[k])];
    }
    assert js[..|js|] == js;
    w.Finish();
    return w.wire;
  }

  lemma {:induction false} FramesSnoc(datas: seq<seq<Byte>>, d: seq<Byte>)
    ensures Frames(datas + [d]) == Frames(datas) + Frame(d)
    ensures datas == [] ==> Frames(datas + [d]) == Frame(d)
  {
    hide Frame;
    if datas == [] {
      assert (datas + [d])[1..] == [];
    } else {
      assert (datas + [d])[1..] == datas[1..] + [d];
      FramesSnoc(datas[1..], d);
    }
  }

  function LinesOf(js: seq<Json>): (lines: seq<seq<Byte>>)
    requires AllDumpable(js)
    ensures |lines| == |js|
  {
    seq(|js|, k requires 0 <= k < |js| => LineOf(js[k]))
  }

  /** The body of the response. */
  function Wire(js: seq<Json>): seq<Byte>
    requires AllDumpable(js)
  {
    Frames(LinesOf(js)) + LastChunk()
  }

  // ---------------------------------------------------------------- the client's line loop

  /** The whole lines of a buffer, and what is left. */
  function Cut(buf: seq<Byte>): (seq<seq<Byte>>, seq<Byte>)
    decreases |buf|
  {
    var nl := Find(buf, [LF]);
    if nl.None? then ([], buf)
    else
      var r := Cut(buf[nl.value + 1..]);
      ([buf[..nl.value + 1]] + r.0, r.1)
  }

  /** The object on a line, if there is one. */
  function ObjectOn(line: seq<Byte>): Option<Json> {
    var t := Trim(line);
    if t == [] then None else match Parse(t) case Ok(j) => Some(j) case Err(_) => None
  }

  function Calls(lines: seq<seq<Byte>>): seq<Json> {
    if lines == [] then []
    else (match ObjectOn(lines[0]) case Some(j) => [j] case None => []) + Calls(lines[1..])
  }

  const DONE: seq<Byte> := [0x64, 0x6F, 0x6E, 0x65]

  predicate IsDone(j: Json) { Get(j, DONE) == Some(JBool(true)) }

  /** The last object marked done, or `last`. */
  function LastDone(last: Json, js: seq<Json>): Json
    decreases |js|
  {
    if js == [] then last else LastDone(if IsDone(js[0]) then js[0] else last, js[1..])
  }

  datatype StreamError = ReadFailed | NoDone

  /** One read: some bytes (none at the end of the stream), or a failure. */
  datatype Recv = Got(bytes: seq<Byte>) | Broken

  /** At the end of the stream an unterminated last line counts if it is marked done. */
  function AtEnd(buf: seq<Byte>, calls: seq<Json>, last: Json): (seq<Json>, Result<Json, StreamError>) {
    var tail := ObjectOn(buf);
    var calls' := if tail.Some? && IsDone(tail.value) then calls + [tail.value] else calls;
    var last' := if tail.Some? && IsDone(tail.value) then tail.value else last;
    (calls', if last' == JNull then Err(NoDone) else Ok(last'))
  }

  /** Payload of some bytes off the wire; identity transfer has no framing. */
  function Payload(chunked: bool, dec: Dec, s: seq<Byte>): (Dec, seq<Byte>) {
    if chunked then Feed(dec, s) else (dec, s)
  }

  /** Calls made and value returned, from a buffer and the reads to come. */
  function Client(chunked: bool, dec: Dec, buf: seq<Byte>, calls: seq<Json>, last: Json, rs: seq<Recv>)
    : (seq<Json>, Result<Json, StreamError>)
    decreases |rs|
  {
    var cut := Cut(buf);
    var now := Calls(cut.0);
    var calls', last' := calls + now, LastDone(last, now);
    if rs == [] || rs[0] == Got([]) then AtEnd(cut.1, calls', last')
    else if rs[0].Broken? then (calls', Err(ReadFailed))
    else
      var f := Payload(chunked, dec, rs[0].bytes);
      Client(chunked, f.0, cut.1 + f.1, calls', last', rs[1..])
  }

  method GenerateStream(chunked: bool, early: seq<Byte>, rs: seq<Recv>)
    returns (calls: seq<Json>, r: Result<Json, StreamError>)
    ensures var f := Payload(chunked, START, early); (calls, r) == Client(chunked, f.0, f.1, [], JNull, rs)
  {
    hide Feed, Cut, AtEnd;
    var dec := new ChunkDecoder(chunked);
    var buf := dec.FeedBytes(early, []);
    assert buf == Payload(chunked, START, early).1;
    ghost var whole := Client(chunked, dec.State(), buf, [], JNull, rs);
    var last := JNull;
    calls := [];
    var k := 0;
    while true
      invariant k <= |rs| && dec.chunked == chunked && whole == Client(chunked, dec.State(), buf, calls, last, rs[k..])
      decreases |rs| - k
    {
      calls, last, buf := TakeLines(buf, calls, last);
      if k == |rs| || rs[k] == Got([]) { break; }
      if rs[k].Broken? { return calls, Err(ReadFailed); }
      buf := dec.FeedBytes(rs[k].bytes, buf);
      assert rs[k..][1..] == rs[k + 1..];
      k := k + 1;
    }
    calls, r := Flush(buf, calls, last);
  }

  /** The inner loop: each whole line leaves the buffer, and the object on it is handed over. */
  method TakeLines(buf0: seq<Byte>, calls0: seq<Json>, last0: Json)
    returns (calls: seq<Json>, last: Json, buf: seq<Byte>)
    ensures var now := Calls(Cut(buf0).0);
            calls == calls0 + now && last == LastDone(last0, now) && buf == Cut(buf0).1
  {
    hide ObjectOn, IsDone, Find, Cut, Calls, LastDone;
    ghost var all := calls0 + Calls(Cut(buf0).0);
    ghost var end := LastDone(last0, Calls(Cut(buf0).0));
    buf, calls, last := buf0, calls0, last0;
    while true
      invariant all == calls + Calls(Cut(buf).0) && end == LastDone(last, Calls(Cut(buf).0))
      invariant Cut(buf0).1 == Cut(buf).1
      decreases |buf|
    {
      var nl := Find(buf, [LF]);
      if nl.None? { break; }
      var line := buf[..nl.value + 1];
      CutFirst(buf);
      CallsFirst(line, Cut(buf[nl.value + 1..]).0, last);
      buf := buf[nl.value + 1..];
      var j := ObjectOn(line);
      if j.Some? {
        calls := calls + [j.value];
        if IsDone(j.value) { last := j.value; }
      }
    }
    CutNone(buf);
    CallsNone(last);
  }

  lemma CallsNone(last: Json)
    ensures Calls([]) == [] && LastDone(last, []) == last
  {
  }

  lemma CutFirst(buf: seq<Byte>)
    requires Find(buf, [LF]).Some?
    ensures var p := Find(buf, [LF]).value; var rest := Cut(buf[p + 1..]);
            Cut(buf) == ([buf[..p + 1]] + rest.0, rest.1)
  {
    hide Find;
  }

  lemma CutNone(buf: seq<Byte>)
    requires Find(buf, [LF]).None?
    ensures Cut(buf) == ([], buf)
  {
    hide Find;
  }

  /** Handing over the first line, then the others. */
  lemma CallsFirst(line: seq<Byte>, lines: seq<seq<Byte>>, last: Json)
    ensures var j := ObjectOn(line);
            && Calls([line] + lines) == (if j.Some? then [j.value] else []) + Calls(lines)
            && LastDone(last, Calls([line] + lines))
               == LastDone(if j.Some? && IsDone(j.value) then j.value else last, Calls(lines))
  {
    hide ObjectOn, IsDone;
    assert ([line] + lines)[1..] == lines;
    var j := ObjectOn(line);
    if j.Some? {
      assert ([j.value] + Calls(lines))[1..] == Calls(lines);
    } else {
      assert [] + Calls(lines) == Calls(lines);
    }
  }

  /** The end of the stream. */
  method Flush(buf: seq<Byte>, calls0: seq<Json>, last0: Json) returns (calls: seq<Json>, r: Result<Json, StreamError>)
    ensures (calls, r) == AtEnd(buf, calls0, last0)
  {
    hide IsDone;
    calls := calls0;
    var last := last0;
    var tail := ObjectOn(buf);
    if tail.Some? {
      if IsDone(tail.value) {
        calls := calls + [tail.value];
        last := tail.value;
      }
    }
    r := if last == JNull then Err(NoDone) else Ok(last);
  }

  // ---------------------------------------------------------------- no split matters

  lemma {:induction false} CutSplit(a: seq<Byte>, b: seq<Byte>)
    ensures var x := Cut(a); var y := Cut(x.1 + b); Cut(a + b) == (x.0 + y.0, y.1)
    decreases |a|
  {
    hide Find, Cut;
    var p := Find(a, [LF]);
    if p.None? {
      CutNone(a);
      assert [] + Cut(a + b).0 == Cut(a + b).0;
    } else {
      FirstLf(a, b);
      CutFirst(a);
      CutFirst(a + b);
      var rest := a[p.value + 1..];
      assert (a + b)[p.value + 1..] == rest + b && (a + b)[..p.value + 1] == a[..p.value + 1];
      CutSplit(rest, b);
      var x := Cut(rest);
      var y := Cut(x.1 + b);
      assert [a[..p.value + 1]] + (x.0 + y.0) == [a[..p.value + 1]] + x.0 + y.0;
    }
  }

  lemma {:induction false} FirstLf(a: seq<Byte>, b: seq<Byte>)
    requires Find(a, [LF]).Some?
    ensures Find(a + b, [LF]) == Find(a, [LF])
  {
    if [LF] <= a {
      assert [LF] <= a + b;
    } else {
      assert (a + b)[1..] == a[1..] + b;
      assert a[0] != LF;
      FirstLf(a[1..], b);
    }
  }

  lemma {:induction false} CallsSplit(a: seq<seq<Byte>>, b: seq<seq<Byte>>)
    ensures Calls(a + b) == Calls(a) + Calls(b)
    decreases |a|
  {
    hide ObjectOn;
    if a == [] {
      assert a + b == b;
    } else {
      assert (a + b)[1..] == a[1..] + b;
      CallsSplit(a[1..], b);
    }
  }

  lemma {:induction false} LastSplit(last: Json, a: seq<Json>, b: seq<Json>)
    ensures LastDone(last, a + b) == LastDone(LastDone(last, a), b)
    decreases |a|
  {
    hide IsDone;
    if a == [] {
      assert a + b == b;
    } else {
      assert (a + b)[1..] == a[1..] + b;
      LastSplit(if IsDone(a[0]) then a[0] else last, a[1..], b);
    }
  }

  /** Reads that bring bytes. */
  predicate AllData(rs: seq<Recv>) { forall k :: 0 <= k < |rs| ==> rs[k].Got? && rs[k].bytes != [] }

  function BytesOf(rs: seq<Recv>): seq<Byte>
    requires AllData(rs)
  {
    if rs == [] then [] else rs[0].bytes + BytesOf(rs[1..])
  }

  /** However the stream arrives, the client does what it would do had all of it come at once. */
  lemma {:induction false} ClientOfAll(dec: Dec, buf: seq<Byte>, calls: seq<Json>, last: Json, rs: seq<Recv>)
    requires AllData(rs)
    ensures var cut := Cut(buf + Feed(dec, BytesOf(rs)).1);
            var now := Calls(cut.0);
            Client(true, dec, buf, calls, last, rs) == AtEnd(cut.1, calls + now, LastDone(last, now))
    decreases |rs|
  {
    hide Feed, AtEnd, Cut, Calls;
    var cut := Cut(buf);
    if rs == [] {
      assert Feed(dec, []) == (dec, []) by { NoBytes(dec); }
      P.Nothing(buf);
    } else {
      var f := Feed(dec, rs[0].bytes);
      var later := Feed(f.0, BytesOf(rs[1..])).1;
      FeedSplit(dec, rs[0].bytes, BytesOf(rs[1..]));
      assert buf + (f.1 + later) == buf + f.1 + later;
      CutSplit(buf, f.1 + later);
      assert cut.1 + (f.1 + later) == cut.1 + f.1 + later;
      ClientOfAll(f.0, cut.1 + f.1, calls + Calls(cut.0), LastDone(last, Calls(cut.0)), rs[1..]);
      var more := Cut(cut.1 + f.1 + later);
      CallsSplit(cut.0, more.0);
      LastSplit(last, Calls(cut.0), Calls(more.0));
      assert calls + (Calls(cut.0) + Calls(more.0)) == calls + Calls(cut.0) + Calls(more.0);
    }
  }

  lemma NoBytes(d: Dec)
    ensures Feed(d, []) == (d, [])
  {
  }

  // ---------------------------------------------------------------- end to end

  /** An object the server can send: printable, and not nested too deep for the parser. */
  predicate Sendable(j: Json) {
    P.Dumpable(j) && A.Height(j) <= MAX_DEPTH && j.JObj? && |P.Dump(j)| + 1 < Pow16(16)
  }

  predicate AllSendable(js: seq<Json>) { AllDumpable(js) && forall k :: 0 <= k < |js| ==> Sendable(js[k]) }

  lemma DumpedLine(j: Json)
    requires Sendable(j)
    ensures ObjectOn(LineOf(j)) == Some(j) && Find(LineOf(j), [LF]) == Some(|P.Dump(j)|)
  {
    hide Parse, A.Height, Pow16;
    var d := P.Dump(j);
    A.DumpVisible(j);
    A.RoundTrip(j);
    assert d[0] == LBRACE && d[|d| - 1] == RBRACE;
    TrimAround([], d, [LF]);
    assert [] + d + [LF] == LineOf(j);
    assert LineOf(j)[|d|..] == [LF];
    FirstIs(LineOf(j), |d|);
  }

  lemma {:induction false} FirstIs(s: seq<Byte>, k: nat)
    requires k < |s| && s[k] == LF && forall i :: 0 <= i < k ==> s[i] != LF
    ensures Find(s, [LF]) == Some(k)
  {
    if k > 0 { FirstIs(s[1..], k - 1); }
  }

  lemma {:induction false} LinesCut(js: seq<Json>)
    requires AllSendable(js)
    ensures Cut(Joined(LinesOf(js))) == (LinesOf(js), []) && Calls(LinesOf(js)) == js
    decreases |js|
  {
    hide Find, ObjectOn, Cut, Calls, P.Dump, P.Dumpable, A.Height, Pow16;
    if js == [] {
      assert LinesOf(js) == [];
      NoneFound();
      CutNone([]);
      CallsNone(JNull);
    } else {
      assert Sendable(js[0]);
      var line := LineOf(js[0]);
      DumpedLine(js[0]);
      LinesCut(js[1..]);
      assert LinesOf(js)[1..] == LinesOf(js[1..]);
      assert LinesOf(js) == [line] + LinesOf(js[1..]);
      var all := Joined(LinesOf(js));
      FirstLf(line, Joined(LinesOf(js[1..])));
      CutFirst(all);
      assert all[|line|..] == Joined(LinesOf(js[1..])) && all[..|line|] == line;
      CallsFirst(line, LinesOf(js[1..]), JNull);
    }
  }

  lemma NoneFound()
    ensures Find([], [LF]).None?
  {
  }

  /** Every stream of objects the server writes, the last one marked done, reaches the callback whole
      and in order, and the last object is returned, whatever way the bytes arrive. */
  lemma StreamDelivers(js: seq<Json>, early: seq<Byte>, rs: seq<Recv>)
    requires js != [] && AllSendable(js) && IsDone(js[|js| - 1])
    requires AllData(rs) && early + BytesOf(rs) == Wire(js)
    ensures var f := Payload(true, START, early);
            Client(true, f.0, f.1, [], JNull, rs) == (js, Ok(js[|js| - 1]))
  {
    hide Feed, Cut, Calls, IsDone, Frames, Joined, AtEnd, P.Dump, A.Height, Pow16;
    var lines := LinesOf(js);
    AllFramable(js);
    BodyDecodes(lines);
    FeedSplit(START, early, BytesOf(rs));
    var f := Feed(START, early);
    ClientOfAll(f.0, f.1, [], JNull, rs);
    LinesCut(js);
    var front := js[..|js| - 1];
    assert js == front + [js[|js| - 1]];
    LastSplit(JNull, front, [js[|js| - 1]]);
    LastOne(LastDone(JNull, front), js[|js| - 1]);
    assert [] + js == js;
    EndsEmpty(js, js[|js| - 1]);
  }

  lemma LastOne(last: Json, j: Json)
    requires IsDone(j)
    ensures LastDone(last, [j]) == j
  {
    hide IsDone;
    assert LastDone(j, [j][1..]) == j;
  }

  lemma EndsEmpty(calls: seq<Json>, last: Json)
    requires IsDone(last)
    ensures AtEnd([], calls, last) == (calls, Ok(last))
  {
    assert Trim([]) == [];
  }

  lemma AllFramable(js: seq<Json>)
    requires AllSendable(js)
    ensures Framable(LinesOf(js))
  {
    hide Pow16, P.Dump, A.Height;
    forall k | 0 <= k < |js| ensures 0 < |LinesOf(js)[k]| < Pow16(16) { assert Sendable(js[k]); }
  }

  /** Without framing, and even if the last line is never ended, the same. */
  lemma {:induction false} PlainDelivers(js: seq<Json>, early: seq<Byte>, rs: seq<Recv>, ended: bool)
    requires js != [] && AllSendable(js) && IsDone(js[|js| - 1]) && AllData(rs)
    requires var all := Joined(LinesOf(js)); early + BytesOf(rs) == if ended then all else all[..|all| - 1]
    ensures Client(false, START, early, [], JNull, rs) == (js, Ok(js[|js| - 1]))
  {
    hide Cut, Calls, IsDone, Joined, AtEnd, P.Dump, A.Height, Pow16;
    PlainOfAll(START, early, [], JNull, rs);
    var front, last := js[..|js| - 1], js[|js| - 1];
    assert js == front + [last];
    LastSplit(JNull, front, [last]);
    LastOne(LastDone(JNull, front), last);
    if ended {
      LinesCut(js);
      assert [] + js == js;
      EndsEmpty(js, last);
    } else {
      UnendedCut(front, last);
      TailCounts(front, LastDone(JNull, front), last);
      assert [] + front == front;
    }
  }

  lemma {:induction false} PlainOfAll(dec: Dec, buf: seq<Byte>, calls: seq<Json>, last: Json, rs: seq<Recv>)
    requires AllData(rs)
    ensures var cut := Cut(buf + BytesOf(rs)); var now := Calls(cut.0);
            Client(false, dec, buf, calls, last, rs) == AtEnd(cut.1, calls + now, LastDone(last, now))
    decreases |rs|
  {
    hide AtEnd, Cut, Calls;
    var cut := Cut(buf);
    if rs == [] {
      P.Nothing(buf);
    } else {
      var later := BytesOf(rs[1..]);
      assert buf + (rs[0].bytes + later) == buf + rs[0].bytes + later;
      CutSplit(buf, rs[0].bytes + later);
      assert cut.1 + (rs[0].bytes + later) == cut.1 + rs[0].bytes + later;
      PlainOfAll(dec, cut.1 + rs[0].bytes, calls + Calls(cut.0), LastDone(last, Calls(cut.0)), rs[1..]);
      var more := Cut(cut.1 + rs[0].bytes + later);
      CallsSplit(cut.0, more.0);
      LastSplit(last, Calls(cut.0), Calls(more.0));
      assert calls + (Calls(cut.0) + Calls(more.0)) == calls + Calls(cut.0) + Calls(more.0);
    }
  }

  /** Objects one to a line, the last line without its end. */
  lemma UnendedCut(front: seq<Json>, last: Json)
    requires AllSendable(front + [last])
    ensures AllSendable(front) && Sendable(last)
    ensures var all := Joined(LinesOf(front + [last]));
            && all != []
            && Cut(all[..|all| - 1]) == (LinesOf(front), P.Dump(last)) && Calls(LinesOf(front)) == front
  {
    hide Cut, Calls, P.Dump, P.Dumpable, A.Height, Pow16;
    var js := front + [last];
    assert js[|front|] == last;
    forall k | 0 <= k < |front| ensures Sendable(front[k]) { assert js[k] == front[k]; }
    LinesCut(front);
    var lines, d := LinesOf(front), P.Dump(last);
    assert LinesOf(js) == lines + [LineOf(last)];
    JoinedSnoc(lines, LineOf(last));
    assert (Joined(lines) + LineOf(last))[..|Joined(lines)| + |d|] == Joined(lines) + d;
    CutSplit(Joined(lines), d);
    A.DumpVisible(last);
    NoLfInside(d);
    CutNone(d);
    assert [] + d == d && lines + [] == lines;
  }

  lemma {:induction false} JoinedSnoc(lines: seq<seq<Byte>>, line: seq<Byte>)
    ensures Joined(lines + [line]) == Joined(lines) + line
    decreases |lines|
  {
    if lines == [] {
      assert (lines + [line])[1..] == [] && Joined([]) == [];
    } else {
      assert (lines + [line])[1..] == lines[1..] + [line];
      JoinedSnoc(lines[1..], line);
    }
  }

  lemma LfFound(s: seq<Byte>)
    requires Find(s, [LF]).Some?
    ensures !NoLf(s)
  {
    hide Find;
    var p := Find(s, [LF]).value;
    assert s[p..p + 1][0] == LF;
  }

  lemma NoLfInside(s: seq<Byte>)
    requires NoLf(s)
    ensures Find(s, [LF]).None?
  {
    hide Find;
    if Find(s, [LF]).Some? { LfFound(s); }
  }

  lemma TailCounts(calls: seq<Json>, last: Json, j: Json)
    requires Sendable(j) && IsDone(j)
    ensures AtEnd(P.Dump(j), calls, last) == (calls + [j], Ok(j))
  {
    hide Parse, P.Dump, A.Height, Pow16;
    A.DumpVisible(j);
    A.RoundTrip(j);
    DumpTrimmed(j);
  }

  lemma DumpTrimmed(j: Json)
    requires P.Dumpable(j) && j.JObj?
    ensures P.Dump(j) != [] && Trim(P.Dump(j)) == P.Dump(j)
  {
    var d := P.Dump(j);
    assert d[0] == LBRACE && d[|d| - 1] == RBRACE;
    TrimAround([], d, []);
    assert [] + d + [] == d;
  }

  // ---------------------------------------------------------------- what the value returned is

  /** The object says it is the last. */
  predicate Marked(j: Json) { IsMember(j, DONE, JBool(true)) }

  /** `last` is the last object so far that says so, null when none has. */
  predicate Tracks(calls: seq<Json>, last: Json) {
    if last == JNull then forall k :: 0 <= k < |calls| ==> !Marked(calls[k])
    else
      Marked(last)
      && exists k :: 0 <= k < |calls| && calls[k] == last && forall i :: k < i < |calls| ==> !Marked(calls[i])
  }

  lemma DoneIsMarked(j: Json)
    ensures IsDone(j) <==> Marked(j)
  {
    GetIsFirst(j, DONE, JBool(true));
  }

  lemma TracksOne(calls: seq<Json>, last: Json, j: Json)
    requires Tracks(calls, last)
    ensures Tracks(calls + [j], if IsDone(j) then j else last)
  {
    hide IsDone, IsMember;
    DoneIsMarked(j);
    var all := calls + [j];
    if IsDone(j) {
      assert all[|calls|] == j;
      assert !Marked(JNull) by { NullUnmarked(); }
    } else if last != JNull {
      var k :| 0 <= k < |calls| && calls[k] == last && forall i :: k < i < |calls| ==> !Marked(calls[i]);
      assert all[k] == last;
    }
  }

  lemma NullUnmarked()
    ensures !Marked(JNull)
  {
  }

  lemma {:induction false} TracksAll(calls: seq<Json>, last: Json, now: seq<Json>)
    requires Tracks(calls, last)
    ensures Tracks(calls + now, LastDone(last, now))
    decreases |now|
  {
    hide IsDone, Tracks;
    if now == [] {
      assert calls + now == calls;
    } else {
      TracksOne(calls, last, now[0]);
      TracksAll(calls + [now[0]], if IsDone(now[0]) then now[0] else last, now[1..]);
      assert calls + [now[0]] + now[1..] == calls + now;
    }
  }

  lemma EndTracks(buf: seq<Byte>, calls: seq<Json>, last: Json)
    requires Tracks(calls, last)
    ensures var r := AtEnd(buf, calls, last);
            (r.1.Ok? ==> r.1.value != JNull && Tracks(r.0, r.1.value)) && (r.1.Err? ==> Tracks(r.0, JNull))
  {
    hide IsDone, Tracks, ObjectOn;
    var tail := ObjectOn(buf);
    if tail.Some? { TracksOne(calls, last, tail.value); }
  }

  /** Whatever arrives, framed or not: the client returns the last object handed over that says it is
      done, and has none when it says so; a failed read is never taken for an end. */
  lemma {:induction false} OnlyDoneIsReturned(chunked: bool, dec: Dec, buf: seq<Byte>, calls: seq<Json>, last: Json,
                                              rs: seq<Recv>)
    requires Tracks(calls, last)
    ensures var r := Client(chunked, dec, buf, calls, last, rs);
            (r.1.Ok? ==> r.1.value != JNull && Tracks(r.0, r.1.value)) && (r.1 == Err(NoDone) ==> Tracks(r.0, JNull))
    decreases |rs|
  {
    hide Tracks, Cut, Calls, LastDone, AtEnd, Payload;
    var cut := Cut(buf);
    var now := Calls(cut.0);
    TracksAll(calls, last, now);
    if rs == [] || rs[0] == Got([]) {
      EndTracks(cut.1, calls + now, LastDone(last, now));
    } else if rs[0].Got? {
      var f := Payload(chunked, dec, rs[0].bytes);
      OnlyDoneIsReturned(chunked, f.0, cut.1 + f.1, calls + now, LastDone(last, now), rs[1..]);
    }
  }

  /** A read that fails before the stream ends makes the call fail. */
  lemma {:induction false} BrokenFails(chunked: bool, dec: Dec, buf: seq<Byte>, calls: seq<Json>, last: Json,
                                       rs: seq<Recv>, k: nat)
    requires k < |rs| && rs[k].Broken? && AllData(rs[..k])
    ensures Client(chunked, dec, buf, calls, last, rs).1 == Err(ReadFailed)
    decreases k
  {
    hide Cut, Calls, LastDone, AtEnd, Payload;
    if k > 0 {
      assert rs[..k][0] == rs[0] && rs[1..][..k - 1] == rs[..k][1..];
      var cut, f := Cut(buf), Payload(chunked, dec, rs[0].bytes);
      var now := Calls(cut.0);
      BrokenFails(chunked, f.0, cut.1 + f.1, calls + now, LastDone(last, now), rs[1..], k - 1);
    }
  }

  // ---------------------------------------------------------------- spellings

  lemma Spelled()
    ensures DONE == Ascii("done") && CRLF == Ascii("\r\n") && LastChunk() == Ascii("0\r\n\r\n")
  {
  }
}
