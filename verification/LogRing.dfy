/** The lock-free log ring: writers reserve slots with one atomic add and publish with a sequence
    number; readers copy and re-check. Writers and readers interleave slot by slot. */
module LogRing {
  import opened Bytes
  import opened LittleEndian

  const SLOT: nat := 64
  const HEAD_PAYLOAD: nat := 36
  const MAX_RECORD: nat := 4096

  type U32 = x: int | 0 <= x < 0x1_0000_0000

  /** The number of slots, and the checksum, of which nothing is assumed. */
  datatype Conf = Conf(n: nat, sum: seq<Byte> -> U32)

  predicate ConfOk(c: Conf) { c.n > 0 }

  // ---------------------------------------------------------------- records

  /** A record as written: timestamp, line, level and payload. */
  datatype Rec = Rec(ts: nat, line: nat, level: nat, payload: seq<Byte>)

  predicate RecOk(r: Rec) {
    r.ts < Pow256(8) && r.line < Pow256(4) && r.level < 5 && 0 < |r.payload| <= MAX_RECORD
  }

  function Min(a: nat, b: nat): nat { if a <= b then a else b }

  /** Payload bytes stored before continuation slot `j`. */
  function Off(len: nat, j: nat): nat
    requires j > 0
  {
    Min(len, HEAD_PAYLOAD + SLOT * (j - 1))
  }

  /** Head slot and continuation slots. */
  function Slots(len: nat): (k: nat)
    ensures k > 0
  {
    1 + if len <= HEAD_PAYLOAD then 0 else (len - HEAD_PAYLOAD + SLOT - 1) / SLOT
  }

  /** The fields of a head after its sequence number. */
  datatype Fields = Fields(ts: nat, line: nat, level: nat, nslots: nat, len: nat, want: nat)

  function FieldsOf(c: Conf, r: Rec): Fields {
    Fields(r.ts, r.line, r.level, Slots(|r.payload|), |r.payload|, c.sum(r.payload))
  }

  function FieldBytes(f: Fields): (b: seq<Byte>)
    ensures |b| == 20
  {
    ToLe(f.ts, 8) + ToLe(f.line, 4) + ToLe(f.level, 1) + ToLe(f.nslots, 1) + ToLe(f.len, 2) + ToLe(f.want, 4)
  }

  function FieldsAt(slot: seq<Byte>): Fields
    requires |slot| == SLOT
  {
    Fields(Le(slot[8..16]), Le(slot[16..20]), Le(slot[20..21]), Le(slot[21..22]), Le(slot[22..24]), Le(slot[24..28]))
  }

  predicate FieldsFit(f: Fields) {
    f.ts < Pow256(8) && f.line < Pow256(4) && f.level < Pow256(1) && f.nslots < Pow256(1) && f.len < Pow256(2)
    && f.want < Pow256(4)
  }

  lemma Part(slot: seq<Byte>, i: nat, j: nat, a: seq<Byte>, x: seq<Byte>, b: seq<Byte>)
    requires |slot| == SLOT && |a| == i <= j == i + |x| <= 20 && |a + x + b| == 20
    requires slot[8..28] == a + (x + b)
    ensures slot[8 + i..8 + j] == x
  {
    forall m | 0 <= m < |x| ensures slot[8 + i..8 + j][m] == x[m] {
      assert slot[8..28][i + m] == slot[8 + i + m];
      assert (a + (x + b))[i + m] == x[m];
    }
  }

  /** Reading the fields of a slot that holds them. */
  lemma FieldsRead(slot: seq<Byte>, f: Fields)
    requires |slot| == SLOT && FieldsFit(f) && slot[8..28] == FieldBytes(f)
    ensures FieldsAt(slot) == f
  {
    hide ToLe, Le, Pow256;
    var ts, line, level := ToLe(f.ts, 8), ToLe(f.line, 4), ToLe(f.level, 1);
    var nslots, len, want := ToLe(f.nslots, 1), ToLe(f.len, 2), ToLe(f.want, 4);
    Part(slot, 0, 8, [], ts, line + level + nslots + len + want);
    Part(slot, 8, 12, ts, line, level + nslots + len + want);
    Part(slot, 12, 13, ts + line, level, nslots + len + want);
    Part(slot, 13, 14, ts + line + level, nslots, len + want);
    Part(slot, 14, 16, ts + line + level + nslots, len, want);
    Part(slot, 16, 20, ts + line + level + nslots + len, want, []);
    LeInverts(f.ts, 8);
    LeInverts(f.line, 4);
    LeInverts(f.level, 1);
    LeInverts(f.nslots, 1);
    LeInverts(f.len, 2);
    LeInverts(f.want, 4);
  }

  lemma SlotsSmall(len: nat)
    requires len <= MAX_RECORD
    ensures Slots(len) <= 65 && Off(len, Slots(len)) == len
  {
  }

  lemma RecFields(c: Conf, r: Rec)
    requires RecOk(r)
    ensures FieldsFit(FieldsOf(c, r))
  {
    SlotsSmall(|r.payload|);
    assert Pow256(1) == 256 && Pow256(2) == 65536 && Pow256(4) == 0x1_0000_0000;
  }

  // ---------------------------------------------------------------- writers

  /** A writer that has reserved the slots from `start` on and made `phase` of its stores. */
  datatype Writer = Writer(start: nat, rec: Rec, phase: nat)

  datatype State = State(mem: seq<seq<Byte>>, cursor: nat, writers: seq<Writer>)

  function Size(w: Writer): nat { Slots(|w.rec.payload|) }

  predicate Published(w: Writer) { w.phase == Size(w) + 2 }

  /** One store: a logical slot, the offset in it, and the bytes. */
  datatype Store = Store(index: nat, off: nat, data: seq<Byte>)

  /** Invalidate the head, fill it, fill the continuation slots in order, publish. */
  function StoreOf(c: Conf, w: Writer): (st: Store)
    requires w.phase < Size(w) + 2
    ensures st.off + |st.data| <= SLOT && w.start <= st.index < w.start + Size(w)
  {
    var p := w.rec.payload;
    if w.phase == 0 then Store(w.start, 0, ToLe(0, 8))
    else if w.phase == 1 then Store(w.start, 8, FieldBytes(FieldsOf(c, w.rec)) + p[..Off(|p|, 1)])
    else if w.phase <= Size(w) then
      Store(w.start + w.phase - 1, 0, p[Off(|p|, w.phase - 1)..Off(|p|, w.phase)])
    else Store(w.start, 0, ToLe(w.start + 1, 8))
  }

  lemma FieldParts(f: Fields)
    ensures var b := FieldBytes(f);
            && b[0..8] == ToLe(f.ts, 8) && b[8..12] == ToLe(f.line, 4) && b[12..13] == ToLe(f.level, 1)
            && b[13..14] == ToLe(f.nslots, 1) && b[14..16] == ToLe(f.len, 2) && b[16..20] == ToLe(f.want, 4)
  {
    hide ToLe;
  }

  lemma OneByte(v: nat)
    requires v < 256
    ensures ToLe(v, 1) == [v]
  {
    assert ToLe(v / 256, 0) == [];
  }

  lemma NoBytes()
    ensures ToLe(0, 8) == [0, 0, 0, 0, 0, 0, 0, 0]
  {
    assert ToLe(0, 4) == [0, 0, 0, 0] by { assert ToLe(0, 2) == [0, 0]; }
    assert ToLe(0, 6) == [0, 0, 0, 0, 0, 0];
  }

  /** The head: its number, the timestamp, the line, the level, the number of slots, the length, the
      checksum, and the first 36 bytes. The number is cleared before the rest and stored after it. */
  lemma HeadLayout(c: Conf, r: Rec, start: nat)
    requires RecOk(r)
    ensures 1 < Size(Writer(start, r, 0)) + 2
    ensures StoreOf(c, Writer(start, r, 0)) == Store(start, 0, [0, 0, 0, 0, 0, 0, 0, 0])
    ensures StoreOf(c, Writer(start, r, Slots(|r.payload|) + 1)) == Store(start, 0, ToLe(start + 1, 8))
    ensures var p, n, head := r.payload, Slots(|r.payload|), StoreOf(c, Writer(start, r, 1));
            && head.index == start && head.off == 8 && |head.data| >= 20
            && head.data[0..8] == ToLe(r.ts, 8) && head.data[8..12] == ToLe(r.line, 4)
            && head.data[12..13] == [r.level] && head.data[13..14] == [n] && head.data[14..16] == ToLe(|p|, 2)
            && head.data[16..20] == ToLe(c.sum(p), 4) && head.data[20..] == p[..Min(|p|, 36)]
  {
    hide ToLe, Pow256, FieldBytes;
    NoBytes();
    SlotsSmall(|r.payload|);
    var f := FieldsOf(c, r);
    FieldParts(f);
    OneByte(r.level);
    OneByte(f.nslots);
    FrontOfHead(FieldBytes(f), r.payload[..Off(|r.payload|, 1)]);
  }

  lemma FrontOfHead(b: seq<Byte>, p: seq<Byte>)
    requires |b| == 20
    ensures var d := b + p;
            && d[0..8] == b[0..8] && d[8..12] == b[8..12] && d[12..13] == b[12..13] && d[13..14] == b[13..14]
            && d[14..16] == b[14..16] && d[16..20] == b[16..20] && d[20..] == p
  {
  }

  /** The other slots: 64 bytes each, the last perhaps fewer. */
  lemma TailLayout(c: Conf, r: Rec, start: nat, j: nat)
    requires RecOk(r) && 1 <= j < Slots(|r.payload|)
    ensures Slots(|r.payload|) == 1 + (|r.payload| + 27) / 64 <= 65 && 36 + 64 * (j - 1) < |r.payload|
    ensures var p := r.payload;
            StoreOf(c, Writer(start, r, j + 1)) == Store(start + j, 0, p[36 + 64 * (j - 1)..Min(|p|, 36 + 64 * j)])
  {
    SlotsSmall(|r.payload|);
  }

  function Overlay(slot: seq<Byte>, off: nat, data: seq<Byte>): (s: seq<Byte>)
    requires off + |data| <= |slot|
    ensures |s| == |slot|
  {
    slot[..off] + data + slot[off + |data|..]
  }

  predicate Memory(c: Conf, mem: seq<seq<Byte>>) {
    ConfOk(c) && |mem| == c.n && forall i :: 0 <= i < |mem| ==> |mem[i]| == SLOT
  }

  function Put(c: Conf, mem: seq<seq<Byte>>, st: Store): (m: seq<seq<Byte>>)
    requires Memory(c, mem) && st.off + |st.data| <= SLOT
    ensures Memory(c, m)
  {
    mem[st.index % c.n := Overlay(mem[st.index % c.n], st.off, st.data)]
  }

  datatype Event = Reserve(rec: Rec) | Advance(i: nat)

  /** One atomic step of the writers. */
  function Step(c: Conf, s: State, e: Event): (r: Option<State>)
    requires Memory(c, s.mem)
    ensures r.Some? ==> Memory(c, r.value.mem)
  {
    match e
    case Reserve(rec) =>
      if RecOk(rec) && Slots(|rec.payload|) <= c.n then
        Some(State(s.mem, s.cursor + Slots(|rec.payload|), s.writers + [Writer(s.cursor, rec, 0)]))
      else None
    case Advance(i) =>
      if i < |s.writers| && s.writers[i].phase < Size(s.writers[i]) + 2 then
        var w := s.writers[i];
        Some(State(Put(c, s.mem, StoreOf(c, w)), s.cursor, s.writers[i := w.(phase := w.phase + 1)]))
      else None
  }

  // ---------------------------------------------------------------- what the memory holds

  predicate Shows(c: Conf, mem: seq<seq<Byte>>, st: Store)
    requires Memory(c, mem) && st.off + |st.data| <= SLOT
  {
    mem[st.index % c.n][st.off..st.off + |st.data|] == st.data
  }

  function At(w: Writer, phase: nat): Writer { w.(phase := phase) }

  /** No more than a lap of slots has been reserved since the writer's start. */
  predicate Live(c: Conf, s: State, w: Writer) { s.cursor - w.start <= c.n }

  predicate WriterOk(c: Conf, s: State, w: Writer) {
    RecOk(w.rec) && Size(w) <= c.n && w.start + Size(w) <= s.cursor && w.phase <= Size(w) + 2
  }

  /** Reservations follow one another. */
  predicate Ordered(c: Conf, s: State) {
    && (forall i :: 0 <= i < |s.writers| ==> WriterOk(c, s, s.writers[i]))
    && (forall i, j :: 0 <= i < j < |s.writers| ==> s.writers[i].start + Size(s.writers[i]) <= s.writers[j].start)
  }

  /** Everything a live writer has stored, its first invalidation apart, is still there. */
  predicate Kept(c: Conf, mem: seq<seq<Byte>>, w: Writer)
    requires Memory(c, mem) && w.phase <= Size(w) + 2
  {
    forall ph :: 1 <= ph < w.phase ==> Shows(c, mem, StoreOf(c, At(w, ph)))
  }

  predicate Inv(c: Conf, s: State) {
    && Memory(c, s.mem) && Ordered(c, s)
    && forall i :: 0 <= i < |s.writers| && Live(c, s, s.writers[i]) ==> Kept(c, s.mem, s.writers[i])
  }

  /** Each writer publishes before the cursor runs more than a lap past its start. */
  predicate Timely(c: Conf, s: State) {
    forall i :: 0 <= i < |s.writers| && !Published(s.writers[i]) ==> Live(c, s, s.writers[i])
  }

  lemma SlotsApart(n: nat, a: nat, b: nat)
    requires 0 < b - a < n
    ensures a % n != b % n
  {
    var q := b / n - a / n;
    assert b % n - a % n == (b - a) - n * q;
    if q >= 1 { assert n * q >= n; } else { assert n * q <= 0; }
  }

  /** Live reservations of different writers share no physical slot. */
  lemma LiveApart(c: Conf, s: State, i: nat, j: nat, a: nat, b: nat)
    requires ConfOk(c) && Ordered(c, s) && i < |s.writers| && j < |s.writers| && i != j
    requires Live(c, s, s.writers[i]) && Live(c, s, s.writers[j])
    requires s.writers[i].start <= a < s.writers[i].start + Size(s.writers[i])
    requires s.writers[j].start <= b < s.writers[j].start + Size(s.writers[j])
    ensures a % c.n != b % c.n
  {
    hide Size;
    if i < j { SlotsApart(c.n, a, b); } else { SlotsApart(c.n, b, a); }
  }

  lemma PutShows(c: Conf, mem: seq<seq<Byte>>, st: Store)
    requires Memory(c, mem) && st.off + |st.data| <= SLOT
    ensures Shows(c, Put(c, mem, st), st)
  {
    var slot := mem[st.index % c.n];
    var new' := Overlay(slot, st.off, st.data);
    forall k | 0 <= k < |st.data| ensures new'[st.off..st.off + |st.data|][k] == st.data[k] {}
  }

  predicate Apart(c: Conf, a: Store, b: Store)
    requires ConfOk(c)
  {
    a.index % c.n != b.index % c.n || a.off + |a.data| <= b.off || b.off + |b.data| <= a.off
  }

  lemma PutKeeps(c: Conf, mem: seq<seq<Byte>>, st: Store, other: Store)
    requires Memory(c, mem) && st.off + |st.data| <= SLOT && other.off + |other.data| <= SLOT
    requires Apart(c, st, other) && Shows(c, mem, other)
    ensures Shows(c, Put(c, mem, st), other)
  {
    if st.index % c.n == other.index % c.n {
      var slot := mem[st.index % c.n];
      var new' := Overlay(slot, st.off, st.data);
      forall k | 0 <= k < |other.data| ensures new'[other.off..other.off + |other.data|][k] == other.data[k] {
        assert slot[other.off..other.off + |other.data|][k] == other.data[k];
      }
    }
  }

  /** A writer's own stores do not disturb each other, its first invalidation apart. */
  lemma OwnApart(c: Conf, w: Writer, p: nat, q: nat)
    requires ConfOk(c) && Size(w) <= c.n && 1 <= p < q < Size(w) + 2
    ensures Apart(c, StoreOf(c, At(w, q)), StoreOf(c, At(w, p)))
  {
    hide FieldBytes, FieldsOf, ToLe;
    var a, b := StoreOf(c, At(w, p)), StoreOf(c, At(w, q));
    if a.index < b.index { SlotsApart(c.n, a.index, b.index); }
    if b.index < a.index { SlotsApart(c.n, b.index, a.index); }
  }

  lemma KeptByOther(c: Conf, s: State, i: nat, j: nat)
    requires Inv(c, s) && i < |s.writers| && j < |s.writers| && i != j && s.writers[i].phase < Size(s.writers[i]) + 2
    requires Live(c, s, s.writers[i]) && Live(c, s, s.writers[j])
    ensures Kept(c, Put(c, s.mem, StoreOf(c, s.writers[i])), s.writers[j])
  {
    hide Put, Shows, StoreOf;
    var w, st := s.writers[j], StoreOf(c, s.writers[i]);
    forall ph | 1 <= ph < w.phase ensures Shows(c, Put(c, s.mem, st), StoreOf(c, At(w, ph))) {
      LiveApart(c, s, i, j, st.index, StoreOf(c, At(w, ph)).index);
      PutKeeps(c, s.mem, st, StoreOf(c, At(w, ph)));
    }
  }

  lemma KeptByItself(c: Conf, s: State, i: nat)
    requires Inv(c, s) && i < |s.writers| && s.writers[i].phase < Size(s.writers[i]) + 2 && Live(c, s, s.writers[i])
    ensures Kept(c, Put(c, s.mem, StoreOf(c, s.writers[i])), At(s.writers[i], s.writers[i].phase + 1))
  {
    hide Put, Shows, StoreOf;
    var w := s.writers[i];
    var w', st := At(w, w.phase + 1), StoreOf(c, w);
    forall ph | 1 <= ph < w'.phase ensures Shows(c, Put(c, s.mem, st), StoreOf(c, At(w', ph))) {
      assert At(w', ph) == At(w, ph) && At(w, w.phase) == w;
      if ph == w.phase {
        PutShows(c, s.mem, st);
      } else {
        OwnApart(c, w, ph, w.phase);
        PutKeeps(c, s.mem, st, StoreOf(c, At(w, ph)));
      }
    }
  }

  lemma OrderedKept(c: Conf, s: State, e: Event)
    requires ConfOk(c) && Memory(c, s.mem) && Ordered(c, s) && Step(c, s, e).Some?
    ensures Ordered(c, Step(c, s, e).value)
  {
    hide Slots, RecOk, StoreOf, Put;
  }

  /** Every timely step keeps the invariant. */
  lemma StepKeeps(c: Conf, s: State, e: Event)
    requires Inv(c, s) && Timely(c, s) && Step(c, s, e).Some?
    ensures Inv(c, Step(c, s, e).value)
  {
    hide Put, Shows, StoreOf, Ordered, Kept, Size;
    var s' := Step(c, s, e).value;
    OrderedKept(c, s, e);
    forall j | 0 <= j < |s'.writers| && Live(c, s', s'.writers[j])
      ensures WriterOk(c, s', s'.writers[j]) && Kept(c, s'.mem, s'.writers[j])
    {
      OkOf(c, s', j);
      match e
      case Reserve(_) =>
        if j == |s.writers| { NoneKept(c, s.mem, s'.writers[j]); }
      case Advance(i) =>
        if i == j { KeptByItself(c, s, i); } else { KeptByOther(c, s, i, j); }
    }
  }

  lemma OkOf(c: Conf, s: State, j: nat)
    requires Ordered(c, s) && j < |s.writers|
    ensures WriterOk(c, s, s.writers[j])
  {
  }

  lemma NoneKept(c: Conf, mem: seq<seq<Byte>>, w: Writer)
    requires Memory(c, mem) && w.phase == 0
    ensures Kept(c, mem, w)
  {
  }

  // ---------------------------------------------------------------- the reader

  /** A reader of one physical slot, between its accesses to the memory. */
  datatype Reader =
    | Idle(phys: nat)
    | Loaded(phys: nat, seq0: nat)
    | Windowed(phys: nat, seq0: nat)
    | Copying(phys: nat, seq0: nat, f: Fields, got: seq<Byte>, j: nat)
    | Rechecked(seq0: nat, f: Fields, got: seq<Byte>)
    | Verified(seq0: nat, f: Fields, got: seq<Byte>)
    | Accepted(seq0: nat, f: Fields, got: seq<Byte>)
    | Skipped

  function SeqAt(c: Conf, mem: seq<seq<Byte>>, phys: nat): nat
    requires Memory(c, mem) && phys < c.n
  {
    Le(mem[phys][..8])
  }

  /** A sequence number inside the live window. */
  predicate InWindow(c: Conf, cursor: nat, start: nat) { start < cursor && cursor - start <= c.n }

  /** Bytes of the `j`-th continuation slot of a record of `len` bytes. */
  function ChunkLen(len: nat, j: nat): (k: nat)
    requires j > 0
    ensures k <= SLOT
  {
    Off(len, j + 1) - Off(len, j)
  }

  /** The copy buffer starts out as zeros. */
  function Filled(got: seq<Byte>, len: nat): seq<Byte> {
    if |got| >= len then got else got + seq(len - |got|, _ => 0)
  }

  predicate ReaderOk(c: Conf, r: Reader) {
    match r
    case Idle(phys) => phys < c.n
    case Loaded(phys, q) => phys < c.n && q > 0
    case Windowed(phys, q) => phys < c.n && q > 0
    case Copying(phys, q, f, _, j) => phys < c.n && q > 0 && j > 0 && f.nslots <= c.n
    case _ => true
  }

  /** One access of the reader to the memory, and what it does with it. */
  function ReadStep(c: Conf, mem: seq<seq<Byte>>, cursor: nat, since: nat, r: Reader): (r': Reader)
    requires Memory(c, mem) && ReaderOk(c, r)
    ensures ReaderOk(c, r')
  {
    match r
    case Idle(phys) =>
      var q := SeqAt(c, mem, phys);
      if q == 0 || q <= since || (q - 1) % c.n != phys then Skipped else Loaded(phys, q)
    case Loaded(phys, q) =>
      if InWindow(c, cursor, q - 1) then Windowed(phys, q) else Skipped
    case Windowed(phys, q) =>
      var f := FieldsAt(mem[phys]);
      if f.len > MAX_RECORD || f.nslots == 0 || f.nslots > c.n then Skipped
      else Copying(phys, q, f, mem[phys][28..28 + Off(f.len, 1)], 1)
    case Copying(phys, q, f, got, j) =>
      if j < f.nslots then
        Copying(phys, q, f, got + mem[(q - 1 + j) % c.n][..ChunkLen(f.len, j)], j + 1)
      else if SeqAt(c, mem, phys) == q then Rechecked(q, f, Filled(got, f.len))
      else Skipped
    case Rechecked(q, f, got) =>
      if q > 0 && InWindow(c, cursor, q - 1) then Verified(q, f, got) else Skipped
    case Verified(q, f, got) =>
      if c.sum(got) == f.want then Accepted(q, f, got) else Skipped
    case _ => r
  }

  // ---------------------------------------------------------------- nothing torn is accepted

  datatype Act = Write(e: Event) | Read

  /** Writers and one reader, interleaved. */
  function Run(c: Conf, since: nat, s: State, r: Reader, acts: seq<Act>): Option<(State, Reader)>
    requires Memory(c, s.mem) && ReaderOk(c, r)
    decreases |acts|
  {
    if acts == [] then Some((s, r))
    else
      match acts[0]
      case Read => Run(c, since, s, ReadStep(c, s.mem, s.cursor, since, r), acts[1..])
      case Write(e) =>
        var s' := Step(c, s, e);
        if s'.None? then None else Run(c, since, s'.value, r, acts[1..])
  }

  /** Every state of the run is timely. */
  predicate TimelyRun(c: Conf, s: State, acts: seq<Act>)
    requires Memory(c, s.mem)
    decreases |acts|
  {
    Timely(c, s) && (acts != [] ==>
      match acts[0]
      case Read => TimelyRun(c, s, acts[1..])
      case Write(e) => Step(c, s, e).Some? ==> TimelyRun(c, Step(c, s, e).value, acts[1..]))
  }

  /** What a reader that loaded the sequence number of the published record `w` knows: nothing is
      claimed once the record is lapped, for then the second window check fails. */
  predicate Untorn(c: Conf, s: State, w: Writer, r: Reader)
    requires ConfOk(c)
  {
    match r
    case Idle(_) => false
    case Loaded(phys, q) => q == w.start + 1 && phys == w.start % c.n
    case Windowed(phys, q) => q == w.start + 1 && phys == w.start % c.n
    case Copying(phys, q, f, got, j) =>
      && q == w.start + 1 && phys == w.start % c.n && j > 0
      && (Live(c, s, w) ==> f == FieldsOf(c, w.rec) && j <= Size(w) && got == w.rec.payload[..Off(|w.rec.payload|, j)])
    case Rechecked(q, f, got) =>
      q == w.start + 1 && (Live(c, s, w) ==> f == FieldsOf(c, w.rec) && got == w.rec.payload)
    case Verified(q, f, got) => q == w.start + 1 && f == FieldsOf(c, w.rec) && got == w.rec.payload
    case Accepted(q, f, got) => q == w.start + 1 && f == FieldsOf(c, w.rec) && got == w.rec.payload
    case Skipped => true
  }

  /** Everything of a record but its number is in the memory. */
  predicate Body(c: Conf, mem: seq<seq<Byte>>, w: Writer)
    requires Memory(c, mem)
  {
    forall ph :: 1 <= ph <= Size(w) ==> Shows(c, mem, StoreOf(c, At(w, ph)))
  }

  /** A live published record is there, under its number. */
  lemma PublishedBody(c: Conf, s: State, i: nat)
    requires Inv(c, s) && i < |s.writers| && Live(c, s, s.writers[i]) && Published(s.writers[i])
    ensures Body(c, s.mem, s.writers[i])
    ensures s.mem[s.writers[i].start % c.n][..8] == ToLe(s.writers[i].start + 1, 8)
  {
    hide Shows, StoreOf, Slots, ToLe;
    var w := s.writers[i];
    OkOf(c, s, i);
    assert Shows(c, s.mem, StoreOf(c, At(w, Size(w) + 1)));
    NumberShown(c, s.mem, w);
  }

  lemma NumberShown(c: Conf, mem: seq<seq<Byte>>, w: Writer)
    requires Memory(c, mem) && Shows(c, mem, StoreOf(c, At(w, Size(w) + 1)))
    ensures mem[w.start % c.n][..8] == ToLe(w.start + 1, 8)
  {
    hide ToLe, Slots, StoreOf;
    LastStore(c, w);
  }

  lemma LastStore(c: Conf, w: Writer)
    ensures StoreOf(c, At(w, Size(w) + 1)) == Store(w.start, 0, ToLe(w.start + 1, 8))
  {
  }

  lemma HeadStore(c: Conf, w: Writer)
    ensures StoreOf(c, At(w, 1))
            == Store(w.start, 8, FieldBytes(FieldsOf(c, w.rec)) + w.rec.payload[..Off(|w.rec.payload|, 1)])
  {
  }

  /** The head, as the reader sees it. */
  lemma HeadShown(c: Conf, mem: seq<seq<Byte>>, w: Writer)
    requires Memory(c, mem) && RecOk(w.rec) && Body(c, mem, w)
    ensures var slot := mem[w.start % c.n];
            && FieldsAt(slot) == FieldsOf(c, w.rec)
            && slot[28..28 + Off(|w.rec.payload|, 1)] == w.rec.payload[..Off(|w.rec.payload|, 1)]
  {
    hide FieldBytes, FieldsOf, ToLe, FieldsAt, StoreOf;
    var p := w.rec.payload[..Off(|w.rec.payload|, 1)];
    var slot := mem[w.start % c.n];
    var fb := FieldBytes(FieldsOf(c, w.rec));
    HeadStore(c, w);
    assert Shows(c, mem, StoreOf(c, At(w, 1)));
    assert slot[8..28] == fb by {
      forall k | 0 <= k < 20 ensures slot[8..28][k] == fb[k] { assert slot[8..28 + |p|][k] == (fb + p)[k]; }
    }
    forall k | 0 <= k < |p| ensures slot[28..28 + |p|][k] == p[k] {
      assert slot[8..28 + |p|][20 + k] == (fb + p)[20 + k];
    }
    RecFields(c, w.rec);
    FieldsRead(slot, FieldsOf(c, w.rec));
  }

  /** A continuation slot. */
  lemma ChunkShown(c: Conf, mem: seq<seq<Byte>>, w: Writer, j: nat)
    requires Memory(c, mem) && RecOk(w.rec) && Body(c, mem, w) && 1 <= j < Size(w)
    ensures var p := w.rec.payload;
            mem[(w.start + j) % c.n][..ChunkLen(|p|, j)] == p[Off(|p|, j)..Off(|p|, j + 1)]
  {
    assert Shows(c, mem, StoreOf(c, At(w, j + 1)));
  }

  /** What a reader has copied of a live record before slot `j`, and then before slot `j + 1`. */
  lemma CopyGrows(c: Conf, mem: seq<seq<Byte>>, w: Writer, j: nat)
    requires Memory(c, mem) && RecOk(w.rec) && Body(c, mem, w) && 1 <= j < Size(w)
    ensures var p := w.rec.payload;
            p[..Off(|p|, j)] + mem[(w.start + j) % c.n][..ChunkLen(|p|, j)] == p[..Off(|p|, j + 1)]
  {
    hide Body, Slots, Off, ChunkLen;
    var p := w.rec.payload;
    OffGrows(|p|, j);
    ChunkShown(c, mem, w, j);
    assert p[..Off(|p|, j + 1)] == p[..Off(|p|, j)] + p[Off(|p|, j)..Off(|p|, j + 1)];
  }

  lemma OffGrows(len: nat, j: nat)
    requires j > 0
    ensures Off(len, j) <= Off(len, j + 1) <= len
  {
  }

  lemma CopyingKeeps(c: Conf, s: State, since: nat, i: nat, r: Reader)
    requires Inv(c, s) && i < |s.writers| && Published(s.writers[i]) && Live(c, s, s.writers[i])
    requires r.Copying? && ReaderOk(c, r) && Untorn(c, s, s.writers[i], r)
    ensures Untorn(c, s, s.writers[i], ReadStep(c, s.mem, s.cursor, since, r))
  {
    hide SeqAt, Ordered, Kept, Body, Off, ChunkLen, Slots, RecOk, Memory;
    var w := s.writers[i];
    InvOk(c, s, i);
    PublishedBody(c, s, i);
    if r.j < Size(w) {
      CopyGrows(c, s.mem, w, r.j);
    } else {
      WholePayload(w.rec);
    }
  }

  lemma WholePayload(r: Rec)
    requires RecOk(r)
    ensures r.payload[..Off(|r.payload|, Slots(|r.payload|))] == r.payload
  {
    SlotsSmall(|r.payload|);
  }

  lemma ReadKeeps(c: Conf, s: State, since: nat, i: nat, r: Reader)
    requires Inv(c, s) && i < |s.writers| && Published(s.writers[i]) && ReaderOk(c, r) && Untorn(c, s, s.writers[i], r)
    ensures Untorn(c, s, s.writers[i], ReadStep(c, s.mem, s.cursor, since, r))
  {
    hide FieldsAt, SeqAt, Ordered, Kept, Body, Off, ChunkLen, Slots, RecOk;
    InvOk(c, s, i);
    if Live(c, s, s.writers[i]) {
      match r
      case Windowed(_, _) =>
        PublishedBody(c, s, i);
        HeadShown(c, s.mem, s.writers[i]);
      case Copying(_, _, _, _, _) => CopyingKeeps(c, s, since, i, r);
      case _ =>
    }
  }

  lemma InvOk(c: Conf, s: State, i: nat)
    requires Inv(c, s) && i < |s.writers|
    ensures WriterOk(c, s, s.writers[i])
  {
  }

  /** A writer's step leaves a published record published, and lapses its liveness at most. */
  lemma WriteKeeps(c: Conf, s: State, e: Event, i: nat, r: Reader)
    requires Memory(c, s.mem) && i < |s.writers| && Published(s.writers[i]) && Untorn(c, s, s.writers[i], r)
    requires Step(c, s, e).Some?
    ensures var s' := Step(c, s, e).value;
            i < |s'.writers| && s'.writers[i] == s.writers[i] && Untorn(c, s', s.writers[i], r)
  {
    hide FieldsOf, Slots, StoreOf;
  }

  lemma {:induction false} RunKeeps(c: Conf, since: nat, s: State, i: nat, r: Reader, acts: seq<Act>)
    requires Inv(c, s) && i < |s.writers| && Published(s.writers[i]) && ReaderOk(c, r) && Untorn(c, s, s.writers[i], r)
    requires TimelyRun(c, s, acts) && Run(c, since, s, r, acts).Some?
    ensures Untorn(c, Run(c, since, s, r, acts).value.0, s.writers[i], Run(c, since, s, r, acts).value.1)
    decreases |acts|
  {
    hide Ordered, Kept, Untorn, ReadStep, Step, Timely;
    if acts != [] {
      match acts[0]
      case Read =>
        ReadKeeps(c, s, since, i, r);
        RunKeeps(c, since, s, i, ReadStep(c, s.mem, s.cursor, since, r), acts[1..]);
      case Write(e) =>
        StepKeeps(c, s, e);
        WriteKeeps(c, s, e, i, r);
        RunKeeps(c, since, Step(c, s, e).value, i, r, acts[1..]);
    }
  }

  /** Whatever the interleaving, a reader whose first load finds the sequence number of a published
      record accepts, if anything, exactly the record that was written. The checksum plays no part. */
  lemma AcceptedIsUntorn(c: Conf, since: nat, s: State, i: nat, acts: seq<Act>)
    requires Inv(c, s) && TimelyRun(c, s, acts) && i < |s.writers| && Published(s.writers[i])
    requires SeqAt(c, s.mem, s.writers[i].start % c.n) == s.writers[i].start + 1
    requires Run(c, since, s, Idle(s.writers[i].start % c.n), [Read] + acts).Some?
    ensures match Run(c, since, s, Idle(s.writers[i].start % c.n), [Read] + acts).value.1
            case Accepted(q, f, got) =>
              q == s.writers[i].start + 1 && f == FieldsOf(c, s.writers[i].rec) && got == s.writers[i].rec.payload
            case _ => true
  {
    hide Ordered, Kept, Step, Timely;
    var r := Idle(s.writers[i].start % c.n);
    var r1 := ReadStep(c, s.mem, s.cursor, since, r);
    assert ([Read] + acts)[1..] == acts;
    RunKeeps(c, since, s, i, r1, acts);
  }

  /** The empty ring. */
  predicate Start(c: Conf, s: State) { Memory(c, s.mem) && s.cursor == 0 && s.writers == [] }

  lemma {:induction false} RunReaches(c: Conf, since: nat, s: State, r: Reader, acts: seq<Act>)
    requires Inv(c, s) && ReaderOk(c, r) && TimelyRun(c, s, acts) && Run(c, since, s, r, acts).Some?
    ensures Inv(c, Run(c, since, s, r, acts).value.0)
    decreases |acts|
  {
    hide Ordered, Kept, ReadStep, Step, Timely, ReaderOk;
    if acts != [] {
      match acts[0]
      case Read => RunReaches(c, since, s, ReadStep(c, s.mem, s.cursor, since, r), acts[1..]);
      case Write(e) =>
        StepKeeps(c, s, e);
        RunReaches(c, since, Step(c, s, e).value, r, acts[1..]);
    }
  }

  /** The same from the empty ring: `s` is any state a timely run reaches. */
  lemma NothingTorn(c: Conf, since: nat, s0: State, r0: Reader, past: seq<Act>, s: State, i: nat, acts: seq<Act>)
    requires Start(c, s0) && ReaderOk(c, r0) && TimelyRun(c, s0, past)
    requires Run(c, since, s0, r0, past).Some? && Run(c, since, s0, r0, past).value.0 == s
    requires Memory(c, s.mem) && TimelyRun(c, s, acts) && i < |s.writers| && Published(s.writers[i])
    requires SeqAt(c, s.mem, s.writers[i].start % c.n) == s.writers[i].start + 1
    requires Run(c, since, s, Idle(s.writers[i].start % c.n), [Read] + acts).Some?
    ensures match Run(c, since, s, Idle(s.writers[i].start % c.n), [Read] + acts).value.1
            case Accepted(q, f, got) =>
              q == s.writers[i].start + 1 && f == FieldsOf(c, s.writers[i].rec) && got == s.writers[i].rec.payload
            case _ => true
  {
    hide Run, TimelyRun, SeqAt, ReaderOk, FieldsOf;
    RunReaches(c, since, s0, r0, past);
    AcceptedIsUntorn(c, since, s, i, acts);
  }

  // ---------------------------------------------------------------- a quiet ring

  /** A reader alone, to the end. */
  function ReadAlone(c: Conf, mem: seq<seq<Byte>>, cursor: nat, since: nat, r: Reader): (r': Reader)
    requires Memory(c, mem) && ReaderOk(c, r)
    decreases Left(c, r)
  {
    if r.Skipped? || r.Accepted? then r
    else ReadAlone(c, mem, cursor, since, ReadStep(c, mem, cursor, since, r))
  }

  /** Accesses a reader has left, at most. */
  function Left(c: Conf, r: Reader): nat {
    match r
    case Idle(_) => c.n + 6
    case Loaded(_, _) => c.n + 5
    case Windowed(_, _) => c.n + 4
    case Copying(_, _, f, _, j) => 3 + if j < f.nslots then f.nslots - j else 0
    case Rechecked(_, _, _) => 2
    case Verified(_, _, _) => 1
    case _ => 0
  }

  lemma NextSlot(n: nat, a: nat, b: nat, j: nat)
    requires n > 0 && a % n == b % n
    ensures (a + j) % n == (b + j) % n
  {
    var q := a / n - b / n;
    assert a - b == n * q;
    SameRest(n, a + j, b + j, q);
  }

  lemma SameRest(n: nat, a: nat, b: nat, q: int)
    requires n > 0 && a - b == n * q
    ensures a % n == b % n
  {
    var d := a / n - b / n - q;
    assert a % n - b % n == a - b - n * (a / n) + n * (b / n) == -(n * d);
    assert d >= 1 ==> n * d >= n;
    assert d <= -1 ==> n * d <= -(n as int);
  }

  /** Copying a record, found under the number `q`, from continuation slot `j` on. */
  lemma {:induction false} CopiesBody(c: Conf, mem: seq<seq<Byte>>, cursor: nat, since: nat, w: Writer, q: nat, j: nat)
    requires Memory(c, mem) && RecOk(w.rec) && Size(w) <= c.n && Body(c, mem, w) && 1 <= j <= Size(w)
    requires q > 0 && (q - 1) % c.n == w.start % c.n && InWindow(c, cursor, q - 1)
    requires SeqAt(c, mem, w.start % c.n) == q
    ensures var p := w.rec.payload; var f := FieldsOf(c, w.rec);
            f.nslots <= c.n
            && ReadAlone(c, mem, cursor, since, Copying(w.start % c.n, q, f, p[..Off(|p|, j)], j)) == Accepted(q, f, p)
    decreases Size(w) - j
  {
    hide FieldsAt, SeqAt, Slots, Off, ChunkLen, Body, ReadAlone;
    var p, f := w.rec.payload, FieldsOf(c, w.rec);
    OffGrows(|p|, j);
    var r := Copying(w.start % c.n, q, f, p[..Off(|p|, j)], j);
    if j < Size(w) {
      CopyGrows(c, mem, w, j);
      NextSlot(c.n, q - 1, w.start, j);
      AloneStep(c, mem, cursor, since, r);
      CopiesBody(c, mem, cursor, since, w, q, j + 1);
    } else {
      SlotsSmall(|p|);
      assert p[..Off(|p|, j)] == p;
      LastSteps(c, mem, cursor, since, w, q);
    }
  }

  lemma LastSteps(c: Conf, mem: seq<seq<Byte>>, cursor: nat, since: nat, w: Writer, q: nat)
    requires Memory(c, mem) && Size(w) <= c.n && q > 0 && InWindow(c, cursor, q - 1)
    requires SeqAt(c, mem, w.start % c.n) == q
    ensures ReadAlone(c, mem, cursor, since, Copying(w.start % c.n, q, FieldsOf(c, w.rec), w.rec.payload, Size(w)))
            == Accepted(q, FieldsOf(c, w.rec), w.rec.payload)
  {
    hide SeqAt, Slots, ReadAlone, FieldsAt;
    var p, f := w.rec.payload, FieldsOf(c, w.rec);
    AloneStep(c, mem, cursor, since, Copying(w.start % c.n, q, f, p, Size(w)));
    AloneStep(c, mem, cursor, since, Rechecked(q, f, p));
    AloneStep(c, mem, cursor, since, Verified(q, f, p));
    AcceptedStays(c, mem, cursor, since, q, f, p);
  }

  /** With nobody writing, a reader that finds a number over a whole record accepts the two together. */
  lemma ReadsBody(c: Conf, mem: seq<seq<Byte>>, cursor: nat, since: nat, w: Writer, q: nat)
    requires Memory(c, mem) && RecOk(w.rec) && Size(w) <= c.n && Body(c, mem, w)
    requires q > since && (q - 1) % c.n == w.start % c.n && InWindow(c, cursor, q - 1)
    requires SeqAt(c, mem, w.start % c.n) == q
    ensures ReadAlone(c, mem, cursor, since, Idle(w.start % c.n)) == Accepted(q, FieldsOf(c, w.rec), w.rec.payload)
  {
    hide FieldsAt, SeqAt, Body, ReadAlone, Slots;
    var phys := w.start % c.n;
    HeadShown(c, mem, w);
    AloneStep(c, mem, cursor, since, Idle(phys));
    AloneStep(c, mem, cursor, since, Loaded(phys, q));
    AloneStep(c, mem, cursor, since, Windowed(phys, q));
    CopiesBody(c, mem, cursor, since, w, q, 1);
  }

  /** With nobody writing, every published record still inside the window is read back whole. */
  lemma LiveIsRead(c: Conf, s: State, since: nat, i: nat)
    requires Inv(c, s) && i < |s.writers| && Published(s.writers[i]) && Live(c, s, s.writers[i])
    requires s.cursor < Pow256(8) && since <= s.writers[i].start
    ensures ReadAlone(c, s.mem, s.cursor, since, Idle(s.writers[i].start % c.n))
            == Accepted(s.writers[i].start + 1, FieldsOf(c, s.writers[i].rec), s.writers[i].rec.payload)
  {
    hide Ordered, Kept, Pow256, Le, ToLe, ReadAlone, Body;
    var w := s.writers[i];
    InvOk(c, s, i);
    PublishedBody(c, s, i);
    LeInverts(w.start + 1, 8);
    ReadsBody(c, s.mem, s.cursor, since, w, w.start + 1);
  }

  lemma AloneStep(c: Conf, mem: seq<seq<Byte>>, cursor: nat, since: nat, r: Reader)
    requires Memory(c, mem) && ReaderOk(c, r) && !r.Skipped? && !r.Accepted?
    ensures ReadAlone(c, mem, cursor, since, r) == ReadAlone(c, mem, cursor, since, ReadStep(c, mem, cursor, since, r))
    ensures ReadAlone(c, mem, cursor, since, Skipped) == Skipped
  {
  }

  // ---------------------------------------------------------------- decoding

  /** A decoded record; file and message stay bytes. */
  datatype Record = Record(number: nat, ts: nat, level: nat, file: seq<Byte>, line: nat, msg: seq<Byte>)

  /** Position of the first zero byte, or 0. */
  function Nul(p: seq<Byte>): (k: nat)
    ensures k <= |p|
  {
    if 0 in p then FirstZero(p) else 0
  }

  function FirstZero(p: seq<Byte>): (k: nat)
    requires 0 in p
    ensures k < |p| && p[k] == 0 && forall i :: 0 <= i < k ==> p[i] != 0
  {
    if p[0] == 0 then 0 else 1 + FirstZero(p[1..])
  }

  /** Unknown levels read as 1, "info". */
  function LevelOf(v: nat): nat { if v == 0 || 2 <= v <= 4 then v else 1 }

  function Decoded(q: nat, f: Fields, got: seq<Byte>): Record {
    var nul := Nul(got);
    var last := if |got| == 0 then 0 else |got| - 1;
    Record(q, f.ts, LevelOf(f.level), got[..nul], f.line, got[Min(|got|, Min(nul, last) + 1)..])
  }

  /** The payload of a record: file, a zero, message; cut to the largest size. */
  function Payload(file: seq<Byte>, msg: seq<Byte>): (p: seq<Byte>)
    ensures 0 < |p| <= MAX_RECORD
  {
    var f := Min(|file|, MAX_RECORD - 1);
    file[..f] + [0] + msg[..Min(|msg|, MAX_RECORD - 1 - f)]
  }

  /** What is logged is what is read: only the tail beyond the largest size is lost. */
  lemma PayloadDecodes(c: Conf, q: nat, ts: nat, line: nat, level: nat, file: seq<Byte>, msg: seq<Byte>)
    requires level < 5 && 0 !in file
    ensures var d := Decoded(q, FieldsOf(c, Rec(ts, line, level, Payload(file, msg))), Payload(file, msg));
            var f := Min(|file|, MAX_RECORD - 1);
            d == Record(q, ts, level, file[..f], line, msg[..Min(|msg|, MAX_RECORD - 1 - f)])
  {
    hide Slots;
    var p, f := Payload(file, msg), Min(|file|, MAX_RECORD - 1);
    assert p[f] == 0;
    assert p[..f] == file[..f];
    ZeroAt(p, f);
    assert p[f + 1..] == msg[..Min(|msg|, MAX_RECORD - 1 - f)];
  }

  lemma {:induction false} ZeroAt(p: seq<Byte>, k: nat)
    requires k < |p| && p[k] == 0 && 0 !in p[..k]
    ensures 0 in p && FirstZero(p) == k
  {
    if k > 0 {
      assert p[0] == p[..k][0];
      assert p[1..][..k - 1] == p[..k][1..];
      ZeroAt(p[1..], k - 1);
    }
  }

  // ---------------------------------------------------------------- the sorted result

  function Insert(rs: seq<Record>, r: Record): seq<Record> {
    if rs == [] then [r]
    else if r.number < rs[0].number then [r] + rs
    else [rs[0]] + Insert(rs[1..], r)
  }

  /** Stable sort by sequence number. */
  function SortByNumber(rs: seq<Record>): seq<Record> {
    if rs == [] then [] else Insert(SortByNumber(rs[..|rs| - 1]), rs[|rs| - 1])
  }

  predicate Sorted(rs: seq<Record>) { forall i, j :: 0 <= i < j < |rs| ==> rs[i].number < rs[j].number }

  lemma {:induction false} InsertHolds(rs: seq<Record>, r: Record)
    ensures multiset(Insert(rs, r)) == multiset(rs) + multiset{r}
  {
    if rs != [] {
      assert rs == [rs[0]] + rs[1..];
      InsertHolds(rs[1..], r);
    }
  }

  predicate Fresh(rs: seq<Record>, r: Record) { forall i :: 0 <= i < |rs| ==> rs[i].number != r.number }

  lemma {:induction false} InsertSorts(rs: seq<Record>, r: Record)
    requires Sorted(rs) && Fresh(rs, r)
    ensures Sorted(Insert(rs, r))
  {
    if rs != [] && r.number >= rs[0].number {
      assert Fresh(rs, r) && rs[0].number < r.number;
      InsertSorts(rs[1..], r);
      InsertHolds(rs[1..], r);
      var t := Insert(rs[1..], r);
      forall k | 0 <= k < |t| ensures rs[0].number < t[k].number {
        assert t[k] in multiset(t);
      }
    }
  }

  predicate Distinct(rs: seq<Record>) { forall i, j :: 0 <= i < j < |rs| ==> rs[i].number != rs[j].number }

  lemma {:induction false} SortSorts(rs: seq<Record>)
    requires Distinct(rs)
    ensures Sorted(SortByNumber(rs)) && multiset(SortByNumber(rs)) == multiset(rs)
  {
    if rs != [] {
      var front, last := rs[..|rs| - 1], rs[|rs| - 1];
      assert rs == front + [last];
      SortSorts(front);
      var t := SortByNumber(front);
      forall k | 0 <= k < |t| ensures t[k].number != last.number {
        assert t[k] in multiset(front);
      }
      InsertHolds(t, last);
      InsertSorts(t, last);
    }
  }

  /** What one pass over the first `k` physical slots accepts. */
  function Collected(c: Conf, mem: seq<seq<Byte>>, cursor: nat, since: nat, k: nat): seq<Record>
    requires Memory(c, mem) && k <= c.n
  {
    if k == 0 then []
    else
      var r := ReadAlone(c, mem, cursor, since, Idle(k - 1));
      Collected(c, mem, cursor, since, k - 1)
      + if r.Accepted? then [Decoded(r.seq0, r.f, r.got)] else []
  }

  /** A reader keeps the number it loaded, which names its own slot. */
  lemma {:induction false} AcceptsOwnSlot(c: Conf, mem: seq<seq<Byte>>, cursor: nat, since: nat, r: Reader, phys: nat)
    requires Memory(c, mem) && ReaderOk(c, r)
    requires match r
             case Idle(p) => p == phys
             case Skipped => true
             case _ => r.seq0 > since && (r.seq0 - 1) % c.n == phys
    ensures var e := ReadAlone(c, mem, cursor, since, r);
            e.Accepted? ==> e.seq0 > since && (e.seq0 - 1) % c.n == phys
    decreases Left(c, r)
  {
    hide FieldsAt, SeqAt, Filled;
    if !r.Skipped? && !r.Accepted? {
      AcceptsOwnSlot(c, mem, cursor, since, ReadStep(c, mem, cursor, since, r), phys);
    }
  }

  lemma {:induction false} CollectedSlots(c: Conf, mem: seq<seq<Byte>>, cursor: nat, since: nat, k: nat)
    requires Memory(c, mem) && k <= c.n
    ensures Distinct(Collected(c, mem, cursor, since, k))
    ensures forall x :: x in Collected(c, mem, cursor, since, k) ==> x.number > since && (x.number - 1) % c.n < k
  {
    hide ReadAlone, Decoded;
    if k > 0 {
      CollectedSlots(c, mem, cursor, since, k - 1);
      AcceptsOwnSlot(c, mem, cursor, since, Idle(k - 1), k - 1);
      DecodedNumber(ReadAlone(c, mem, cursor, since, Idle(k - 1)));
    }
  }

  lemma DecodedNumber(r: Reader)
    ensures r.Accepted? ==> Decoded(r.seq0, r.f, r.got).number == r.seq0
  {
  }

  lemma {:induction false} CollectedHas(c: Conf, mem: seq<seq<Byte>>, cursor: nat, since: nat, k: nat, phys: nat)
    requires Memory(c, mem) && phys < k <= c.n && ReadAlone(c, mem, cursor, since, Idle(phys)).Accepted?
    ensures var r := ReadAlone(c, mem, cursor, since, Idle(phys));
            Decoded(r.seq0, r.f, r.got) in Collected(c, mem, cursor, since, k)
  {
    hide ReadAlone, Decoded;
    if phys < k - 1 { CollectedHas(c, mem, cursor, since, k - 1, phys); }
  }

  /** The record a reader should get back from a writer. */
  function RecordOf(c: Conf, w: Writer): Record {
    Decoded(w.start + 1, FieldsOf(c, w.rec), w.rec.payload)
  }

  function ReadSince(c: Conf, mem: seq<seq<Byte>>, cursor: nat, since: nat): seq<Record>
    requires Memory(c, mem)
  {
    SortByNumber(Collected(c, mem, cursor, since, c.n))
  }

  /** A published record after `since` that is still inside the window. */
  predicate Readable(c: Conf, s: State, since: nat, w: Writer) { Published(w) && Live(c, s, w) && since <= w.start }

  /** In a quiet ring a read returns every published record after `since` that is still inside the
      window, in the order they were written; nothing else has a number in front of `since`. */
  lemma QuietReadIsComplete(c: Conf, s: State, since: nat)
    requires Inv(c, s) && s.cursor < Pow256(8)
    ensures Sorted(ReadSince(c, s.mem, s.cursor, since))
    ensures forall x :: x in ReadSince(c, s.mem, s.cursor, since) ==> x.number > since
    ensures forall i :: 0 <= i < |s.writers| && Readable(c, s, since, s.writers[i]) ==>
              RecordOf(c, s.writers[i]) in ReadSince(c, s.mem, s.cursor, since)
  {
    hide Ordered, Kept, Pow256, ReadAlone, Decoded, SortByNumber, Collected;
    var all := Collected(c, s.mem, s.cursor, since, c.n);
    CollectedSlots(c, s.mem, s.cursor, since, c.n);
    SortSorts(all);
    forall x | x in SortByNumber(all) ensures x in all { assert x in multiset(all); }
    forall i | 0 <= i < |s.writers| && Readable(c, s, since, s.writers[i])
      ensures RecordOf(c, s.writers[i]) in SortByNumber(all)
    {
      LiveIsRead(c, s, since, i);
      CollectedHas(c, s.mem, s.cursor, since, c.n, s.writers[i].start % c.n);
      assert RecordOf(c, s.writers[i]) in multiset(all);
    }
  }

  // ---------------------------------------------------------------- the ring itself

  /** The memory after the first `k` stores of a writer. */
  function Stored(c: Conf, mem: seq<seq<Byte>>, w: Writer, k: nat): (m: seq<seq<Byte>>)
    requires Memory(c, mem) && k <= Size(w) + 2
    ensures Memory(c, m)
  {
    if k == 0 then mem else Put(c, Stored(c, mem, w, k - 1), StoreOf(c, At(w, k - 1)))
  }

  function Advances(i: nat, k: nat): seq<Act> { if k == 0 then [] else Advances(i, k - 1) + [Write(Advance(i))] }

  class Ring {
    const c: Conf
    const mem: array<seq<Byte>>
    var cursor: nat
    var truncated: nat

    ghost predicate Valid()
      reads this, mem
    {
      Memory(c, mem[..])
    }

    /** A new ring of `c.n` zeroed slots. */
    constructor (c: Conf)
      requires ConfOk(c)
      ensures this.c == c && Valid() && fresh(mem) && cursor == 0 && truncated == 0
    {
      this.c, cursor, truncated := c, 0, 0;
      mem := new seq<Byte>[c.n](_ => seq(SLOT, _ => 0));
    }

    /** Bytes written into part of a slot. */
    method PutBytes(st: Store)
      requires Valid() && st.off + |st.data| <= SLOT
      modifies mem
      ensures Valid() && mem[..] == Put(c, old(mem[..]), st)
    {
      var k := st.index % c.n;
      mem[k] := Overlay(mem[k], st.off, st.data);
    }

    /** One record, written without interruption: the reservation, then every store of its writer. */
    method WriteRecord(ts: nat, line: nat, level: nat, file: seq<Byte>, msg: seq<Byte>)
      requires Valid() && RecOk(Rec(ts, line, level, Payload(file, msg)))
      modifies this, mem
      ensures Valid()
      ensures truncated == old(truncated) + if |file| + 1 + |msg| > MAX_RECORD then 1 else 0
      ensures var w := Writer(old(cursor), Rec(ts, line, level, Payload(file, msg)), 0);
              if Size(w) > c.n then cursor == old(cursor) && mem[..] == old(mem[..])
              else cursor == old(cursor) + Size(w) && mem[..] == Stored(c, old(mem[..]), w, Size(w) + 2)
    {
      hide Put, StoreOf, Pow256, FieldBytes, ToLe, Payload;
      var len := |file| + 1 + |msg|;
      if len > MAX_RECORD {
        truncated := truncated + 1;
        len := MAX_RECORD;
      }
      PayloadLength(file, msg);
      var nslots := Slots(len);
      if nslots > c.n { return; }
      var start := cursor;
      cursor := cursor + nslots;
      var w := Writer(start, Rec(ts, line, level, Payload(file, msg)), 0);
      ghost var before, lost := mem[..], truncated;
      for phase := 0 to nslots + 2
        invariant cursor == start + nslots && truncated == lost
        invariant Valid() && mem[..] == Stored(c, before, w, phase)
      {
        PutBytes(StoreOf(c, At(w, phase)));
      }
    }

    /** One pass over the slots, then a sort by sequence number. */
    method ReadRecords(since: nat) returns (out: seq<Record>)
      requires Valid()
      ensures out == ReadSince(c, mem[..], cursor, since)
    {
      hide ReadAlone, Decoded, SortByNumber;
      out := [];
      for phys := 0 to c.n
        invariant out == Collected(c, mem[..], cursor, since, phys)
      {
        var r := ReadSlot(since, phys);
        if r.Some? { out := out + [r.value]; }
      }
      out := SortByNumber(out);
    }

    method ReadSlot(since: nat, phys: nat) returns (r: Option<Record>)
      requires Valid() && phys < c.n
      ensures var e := ReadAlone(c, mem[..], cursor, since, Idle(phys));
              r == if e.Accepted? then Some(Decoded(e.seq0, e.f, e.got)) else None
    {
      hide ReadAlone, Decoded, Le, FieldsAt, Filled;
      ghost var m := mem[..];
      AloneStep(c, m, cursor, since, Idle(phys));
      var q := Le(mem[phys][..8]);
      if q == 0 || q <= since { return None; }
      var start := q - 1;
      if start % c.n != phys { return None; }
      AloneStep(c, m, cursor, since, Loaded(phys, q));
      if start >= cursor || cursor - start > c.n { return None; }
      AloneStep(c, m, cursor, since, Windowed(phys, q));
      var f := FieldsAt(mem[phys]);
      if f.len > MAX_RECORD || f.nslots == 0 || f.nslots > c.n { return None; }
      var got := mem[phys][28..28 + Off(f.len, 1)];
      for j := 1 to f.nslots
        invariant ReadAlone(c, m, cursor, since, Idle(phys))
                  == ReadAlone(c, m, cursor, since, Copying(phys, q, f, got, j))
      {
        AloneStep(c, m, cursor, since, Copying(phys, q, f, got, j));
        got := got + mem[(start + j) % c.n][..ChunkLen(f.len, j)];
      }
      r := CheckCopy(since, phys, q, f, got);
    }

    /** The checks after the copy. */
    method CheckCopy(since: nat, phys: nat, q: nat, f: Fields, got: seq<Byte>) returns (r: Option<Record>)
      requires Valid() && phys < c.n && q > 0 && 0 < f.nslots <= c.n
      ensures var e := ReadAlone(c, mem[..], cursor, since, Copying(phys, q, f, got, f.nslots));
              r == if e.Accepted? then Some(Decoded(e.seq0, e.f, e.got)) else None
    {
      hide ReadAlone, Decoded, Le, Filled;
      ghost var m := mem[..];
      AloneStep(c, m, cursor, since, Copying(phys, q, f, got, f.nslots));
      if Le(mem[phys][..8]) != q { return None; }
      var payload := Filled(got, f.len);
      AloneStep(c, m, cursor, since, Rechecked(q, f, payload));
      if q - 1 >= cursor || cursor - (q - 1) > c.n { return None; }
      AloneStep(c, m, cursor, since, Verified(q, f, payload));
      if c.sum(payload) != f.want { return None; }
      AcceptedStays(c, m, cursor, since, q, f, payload);
      return Some(Decoded(q, f, payload));
    }
  }

  lemma AcceptedStays(c: Conf, mem: seq<seq<Byte>>, cursor: nat, since: nat, q: nat, f: Fields, got: seq<Byte>)
    requires Memory(c, mem)
    ensures ReadAlone(c, mem, cursor, since, Accepted(q, f, got)) == Accepted(q, f, got)
  {
  }

  lemma PayloadLength(file: seq<Byte>, msg: seq<Byte>)
    ensures |Payload(file, msg)| == Min(|file| + 1 + |msg|, MAX_RECORD) <= 4096
  {
  }

  lemma RunNone(c: Conf, since: nat, s: State, r: Reader)
    requires Memory(c, s.mem) && ReaderOk(c, r)
    ensures Run(c, since, s, r, []) == Some((s, r))
  {
  }

  lemma ReserveRun(c: Conf, since: nat, s: State, rec: Rec, r: Reader)
    requires Memory(c, s.mem) && ReaderOk(c, r) && RecOk(rec) && Slots(|rec.payload|) <= c.n
    ensures var w := Writer(s.cursor, rec, 0);
            Run(c, since, s, r, [Write(Reserve(rec))]) == Some((State(s.mem, s.cursor + Size(w), s.writers + [w]), r))
  {
    hide RecOk, Slots, ReaderOk;
    var first: seq<Act> := [Write(Reserve(rec))];
    assert first[1..] == [];
    RunNone(c, since, State(s.mem, s.cursor + Slots(|rec.payload|), s.writers + [Writer(s.cursor, rec, 0)]), r);
  }

  /** An uninterrupted write is one schedule of the interleaving: reserve, then store after store. */
  lemma {:induction false} WriteIsARun(c: Conf, since: nat, s: State, rec: Rec, r: Reader, k: nat)
    requires Memory(c, s.mem) && ReaderOk(c, r) && RecOk(rec) && Slots(|rec.payload|) <= c.n
    requires k <= Slots(|rec.payload|) + 2
    ensures var w := Writer(s.cursor, rec, 0);
            Run(c, since, s, r, [Write(Reserve(rec))] + Advances(|s.writers|, k))
            == Some((State(Stored(c, s.mem, w, k), s.cursor + Size(w), s.writers + [At(w, k)]), r))
  {
    hide Run, Put, StoreOf, RecOk, Slots, ReaderOk;
    var w, i := Writer(s.cursor, rec, 0), |s.writers|;
    var first: seq<Act> := [Write(Reserve(rec))];
    ReserveRun(c, since, s, rec, r);
    if k == 0 {
      assert first + Advances(i, 0) == first;
    } else {
      WriteIsARun(c, since, s, rec, r, k - 1);
      assert first + Advances(i, k) == (first + Advances(i, k - 1)) + [Write(Advance(i))];
      RunSnoc(c, since, s, r, first + Advances(i, k - 1), Advance(i));
      assert (s.writers + [At(w, k - 1)])[i := At(w, k)] == s.writers + [At(w, k)];
    }
  }

  lemma {:induction false} RunSnoc(c: Conf, since: nat, s: State, r: Reader, acts: seq<Act>, e: Event)
    requires Memory(c, s.mem) && ReaderOk(c, r) && Run(c, since, s, r, acts).Some?
    ensures Memory(c, Run(c, since, s, r, acts).value.0.mem)
    ensures Run(c, since, s, r, acts + [Write(e)])
            == var t := Run(c, since, s, r, acts).value; var n := Step(c, t.0, e);
               if n.None? then None else Some((n.value, t.1))
    decreases |acts|
  {
    hide Memory, ReaderOk, Step, ReadStep;
    if acts == [] {
      assert acts + [Write(e)] == [Write(e)] && [Write(e)][1..] == [];
    } else {
      assert (acts + [Write(e)])[1..] == acts[1..] + [Write(e)];
      match acts[0]
      case Read => RunSnoc(c, since, s, ReadStep(c, s.mem, s.cursor, since, r), acts[1..], e);
      case Write(x) => RunSnoc(c, since, Step(c, s, x).value, r, acts[1..], e);
    }
  }

  predicate Quiet(s: State) { forall i :: 0 <= i < |s.writers| ==> Published(s.writers[i]) }

  /** Writing in a quiet ring is timely at every store, whatever the ring held before. */
  lemma {:induction false} QuietWrite(c: Conf, s: State, rec: Rec, k: nat)
    requires Inv(c, s) && Quiet(s) && RecOk(rec) && Slots(|rec.payload|) <= c.n && k <= Slots(|rec.payload|) + 2
    ensures var w := Writer(s.cursor, rec, 0);
            Inv(c, State(Stored(c, s.mem, w, k), s.cursor + Size(w), s.writers + [At(w, k)]))
  {
    hide Ordered, Kept, Put, StoreOf, RecOk, Slots;
    var w, i := Writer(s.cursor, rec, 0), |s.writers|;
    if k == 0 {
      assert Step(c, s, Reserve(rec)) == Some(State(s.mem, s.cursor + Size(w), s.writers + [w]));
      StepKeeps(c, s, Reserve(rec));
    } else {
      QuietWrite(c, s, rec, k - 1);
      var t := State(Stored(c, s.mem, w, k - 1), s.cursor + Size(w), s.writers + [At(w, k - 1)]);
      assert t.writers[i := At(w, k)] == s.writers + [At(w, k)];
      assert Step(c, t, Advance(i)) == Some(State(Stored(c, s.mem, w, k), t.cursor, s.writers + [At(w, k)]));
      StepKeeps(c, t, Advance(i));
    }
  }

  /** The record is in the live window that ends at `end`, and the reader has not seen it. */
  predicate LiveFrom(c: Conf, end: nat, since: nat, w: Writer) {
    since <= w.start && end - w.start <= c.n
  }

  /** A record written in a quiet ring is read back, along with everything it did not overrun. */
  lemma WrittenIsRead(c: Conf, s: State, rec: Rec, since: nat)
    requires Inv(c, s) && Quiet(s) && RecOk(rec) && Slots(|rec.payload|) <= c.n && since <= s.cursor
    requires s.cursor + Slots(|rec.payload|) < Pow256(8)
    ensures var w := Writer(s.cursor, rec, Slots(|rec.payload|) + 2);
            var out := ReadSince(c, Stored(c, s.mem, At(w, 0), w.phase), s.cursor + Size(w), since);
            && Sorted(out) && RecordOf(c, w) in out
            && (forall i | 0 <= i < |s.writers| && LiveFrom(c, s.cursor + Size(w), since, s.writers[i]) ::
                  RecordOf(c, s.writers[i]) in out)
  {
    hide Ordered, Kept, Stored, RecordOf, ReadSince, Pow256, RecOk;
    var w := Writer(s.cursor, rec, Slots(|rec.payload|) + 2);
    var t := State(Stored(c, s.mem, At(w, 0), w.phase), s.cursor + Size(w), s.writers + [w]);
    QuietWrite(c, s, rec, w.phase);
    assert At(At(w, 0), w.phase) == w;
    QuietReadIsComplete(c, t, since);
    assert t.writers[|s.writers|] == w;
    forall i | 0 <= i < |s.writers| ensures t.writers[i] == s.writers[i] {}
  }

  // ---------------------------------------------------------------- what timeliness is for

  lemma {:induction false} RunConcat(c: Conf, since: nat, s: State, r: Reader, a: seq<Act>, b: seq<Act>)
    requires Memory(c, s.mem) && ReaderOk(c, r) && Run(c, since, s, r, a).Some?
    ensures var t := Run(c, since, s, r, a).value;
            Memory(c, t.0.mem) && ReaderOk(c, t.1) && Run(c, since, s, r, a + b) == Run(c, since, t.0, t.1, b)
    decreases |a|
  {
    hide Memory, ReaderOk, Step, ReadStep;
    if a == [] {
      assert a + b == b;
    } else {
      assert (a + b)[1..] == a[1..] + b && (a + b)[0] == a[0];
      match a[0]
      case Read => RunConcat(c, since, s, ReadStep(c, s.mem, s.cursor, since, r), a[1..], b);
      case Write(x) => RunConcat(c, since, Step(c, s, x).value, r, a[1..], b);
    }
  }

  /** The memory after the first `k` stores that follow a writer's invalidation. */
  function Late(c: Conf, mem: seq<seq<Byte>>, w: Writer, k: nat): (m: seq<seq<Byte>>)
    requires Memory(c, mem) && k <= Size(w)
    ensures Memory(c, m)
  {
    if k == 0 then mem else Put(c, Late(c, mem, w, k - 1), StoreOf(c, At(w, k)))
  }

  /** They leave the whole record, and the number of the head as it was. */
  lemma {:induction false} LateBody(c: Conf, mem: seq<seq<Byte>>, w: Writer, q: nat, k: nat)
    requires Memory(c, mem) && Size(w) <= c.n && k <= Size(w)
    requires Shows(c, mem, Store(w.start, 0, ToLe(q, 8)))
    ensures forall ph :: 1 <= ph <= k ==> Shows(c, Late(c, mem, w, k), StoreOf(c, At(w, ph)))
    ensures Shows(c, Late(c, mem, w, k), Store(w.start, 0, ToLe(q, 8)))
  {
    hide Put, Shows, StoreOf, ToLe, Apart, Memory, Slots;
    if k > 0 {
      LateBody(c, mem, w, q, k - 1);
      var m, st := Late(c, mem, w, k - 1), StoreOf(c, At(w, k));
      PutShows(c, m, st);
      NumberApart(c, w, q, k);
      PutKeeps(c, m, st, Store(w.start, 0, ToLe(q, 8)));
      forall ph | 1 <= ph < k ensures Shows(c, Put(c, m, st), StoreOf(c, At(w, ph))) {
        OwnApart(c, w, ph, k);
        PutKeeps(c, m, st, StoreOf(c, At(w, ph)));
      }
    }
  }

  lemma NumberApart(c: Conf, w: Writer, q: nat, k: nat)
    requires ConfOk(c) && Size(w) <= c.n && 1 <= k <= Size(w)
    ensures Apart(c, StoreOf(c, At(w, k)), Store(w.start, 0, ToLe(q, 8)))
  {
    hide FieldBytes, FieldsOf, ToLe, Slots;
    if k > 1 { SlotsApart(c.n, w.start, w.start + k - 1); }
  }

  lemma {:induction false} LateRun(c: Conf, since: nat, t: State, r: Reader, i: nat, k: nat)
    requires Memory(c, t.mem) && ReaderOk(c, r) && i < |t.writers| && t.writers[i].phase == 1
    requires k <= Size(t.writers[i])
    ensures var w := t.writers[i];
            Run(c, since, t, r, Advances(i, k))
            == Some((State(Late(c, t.mem, w, k), t.cursor, t.writers[i := At(w, 1 + k)]), r))
  {
    hide Put, StoreOf, Slots, ReaderOk;
    var w := t.writers[i];
    if k == 0 {
      assert t.writers[i := At(w, 1)] == t.writers;
      RunNone(c, since, t, r);
    } else {
      LateRun(c, since, t, r, i, k - 1);
      RunSnoc(c, since, t, r, Advances(i, k - 1), Advance(i));
      assert t.writers[i := At(w, k)][i := At(w, 1 + k)] == t.writers[i := At(w, 1 + k)];
      assert At(At(w, k), k) == At(w, k);
    }
  }

  lemma StoredNext(c: Conf, mem: seq<seq<Byte>>, w: Writer, k: nat)
    requires Memory(c, mem) && k < Size(w) + 2
    ensures Stored(c, mem, w, k + 1) == Put(c, Stored(c, mem, w, k), StoreOf(c, At(w, k)))
  {
    hide Put, StoreOf, Memory, Slots;
  }

  /** The published number of a record written without interruption. */
  lemma NumberStored(c: Conf, mem: seq<seq<Byte>>, w: Writer)
    requires Memory(c, mem)
    ensures Shows(c, Stored(c, mem, w, Size(w) + 2), Store(w.start, 0, ToLe(w.start + 1, 8)))
  {
    hide Stored, Put, ToLe, Shows, Slots, StoreOf;
    var st := Store(w.start, 0, ToLe(w.start + 1, 8));
    LastStore(c, w);
    StoredNext(c, mem, w, Size(w) + 1);
    PutShows(c, Stored(c, mem, w, Size(w) + 1), st);
  }

  /** The cursor has come round to the slot of a writer that has invalidated its head and not yet
      written it. */
  predicate CaughtUp(c: Conf, s: State, i: nat) {
    && i < |s.writers| && WriterOk(c, s, s.writers[i]) && s.writers[i].phase == 1
    && s.cursor == s.writers[i].start + c.n
  }

  /** Without timeliness the promise fails, whatever the checksum. In any state in which the cursor has
      come round to a writer's slot, one more record `b` is enough: `b` is written and published, the
      late writer stores its own record, and a reader gets that record under the number of `b`. */
  lemma LateWriterIsMisread(c: Conf, s: State, i: nat, b: Rec, since: nat, r: Reader) returns (acts: seq<Act>, t: State)
    requires Memory(c, s.mem) && ReaderOk(c, r) && CaughtUp(c, s, i)
    requires RecOk(b) && Slots(|b.payload|) <= c.n && since <= s.cursor && s.cursor + 1 < Pow256(8)
    ensures Timely(c, s) ==> !TimelyRun(c, s, acts)
    ensures Memory(c, t.mem) && Run(c, since, s, r, acts) == Some((t, r))
    ensures |t.writers| == |s.writers| + 1
    ensures t.writers[|s.writers|] == Writer(s.cursor, b, Slots(|b.payload|) + 2) && Published(t.writers[|s.writers|])
    ensures ReadAlone(c, t.mem, t.cursor, since, Idle(s.cursor % c.n))
            == Accepted(s.cursor + 1, FieldsOf(c, s.writers[i].rec), s.writers[i].rec.payload)
    ensures Decoded(s.cursor + 1, FieldsOf(c, s.writers[i].rec), s.writers[i].rec.payload)
            in ReadSince(c, t.mem, t.cursor, since)
  {
    hide Run, TimelyRun, Stored, Late, ToLe, Le, Pow256, RecOk, Slots, ReadAlone, Decoded, ReadSince, Timely;
    var w, wb, k := s.writers[i], Writer(s.cursor, b, 0), Slots(|b.payload|) + 2;
    SameRest(c.n, s.cursor, w.start, 1);
    var one := [Write(Reserve(b))] + Advances(|s.writers|, k);
    WriteIsARun(c, since, s, b, r, k);
    var u := State(Stored(c, s.mem, wb, k), s.cursor + Size(wb), s.writers + [At(wb, k)]);
    NumberStored(c, s.mem, wb);
    assert u.writers[i] == w;
    LateRun(c, since, u, r, i, Size(w));
    acts := one + Advances(i, Size(w));
    RunConcat(c, since, s, r, one, Advances(i, Size(w)));
    t := State(Late(c, u.mem, w, Size(w)), u.cursor, u.writers[i := At(w, 1 + Size(w))]);
    Untimely(c, s, i, b, acts);
    LateResult(c, u.mem, u.cursor, since, w, s.cursor + 1);
  }

  lemma Untimely(c: Conf, s: State, i: nat, b: Rec, acts: seq<Act>)
    requires Memory(c, s.mem) && CaughtUp(c, s, i) && RecOk(b) && 0 < Slots(|b.payload|) <= c.n
    requires acts != [] && acts[0] == Write(Reserve(b))
    ensures !TimelyRun(c, s, acts)
  {
    hide Slots;
    var s' := Step(c, s, Reserve(b)).value;
    assert s'.writers[i] == s.writers[i] && !Live(c, s', s'.writers[i]);
    assert !Timely(c, s');
  }

  /** What a reader makes of the late writer's record under the later number `q`. */
  lemma LateResult(c: Conf, mem: seq<seq<Byte>>, cursor: nat, since: nat, w: Writer, q: nat)
    requires Memory(c, mem) && RecOk(w.rec) && Size(w) <= c.n && since < q < Pow256(8)
    requires Shows(c, mem, Store(q - 1, 0, ToLe(q, 8))) && (q - 1) % c.n == w.start % c.n && InWindow(c, cursor, q - 1)
    ensures var m := Late(c, mem, w, Size(w));
            && ReadAlone(c, m, cursor, since, Idle((q - 1) % c.n)) == Accepted(q, FieldsOf(c, w.rec), w.rec.payload)
            && Decoded(q, FieldsOf(c, w.rec), w.rec.payload) in ReadSince(c, m, cursor, since)
  {
    hide Late, ToLe, Le, Pow256, Slots, ReadAlone, Decoded, StoreOf, Collected, SortByNumber;
    var m := Late(c, mem, w, Size(w));
    assert Shows(c, mem, Store(w.start, 0, ToLe(q, 8)));
    LateBody(c, mem, w, q, Size(w));
    LeInverts(q, 8);
    ReadsBody(c, m, cursor, since, w, q);
    CollectedSlots(c, m, cursor, since, c.n);
    SortSorts(Collected(c, m, cursor, since, c.n));
    CollectedHas(c, m, cursor, since, c.n, w.start % c.n);
    assert Decoded(q, FieldsOf(c, w.rec), w.rec.payload) in multiset(Collected(c, m, cursor, since, c.n));
  }

  predicate OneSlot(r: Rec) { RecOk(r) && |r.payload| <= HEAD_PAYLOAD }

  /** `k` records of one slot, one after the other. */
  lemma {:induction false} FillUp(c: Conf, since: nat, s: State, r: Reader, rec: Rec, k: nat)
      returns (acts: seq<Act>, t: State)
    requires Memory(c, s.mem) && ReaderOk(c, r) && OneSlot(rec)
    ensures Memory(c, t.mem) && Run(c, since, s, r, acts) == Some((t, r))
    ensures t.cursor == s.cursor + k && s.writers <= t.writers
    ensures forall j :: |s.writers| <= j < |t.writers| ==> Published(t.writers[j])
  {
    hide Run, Stored, RecOk, ReaderOk;
    acts, t := [], s;
    if k == 0 {
      RunNone(c, since, s, r);
    } else {
      acts, t := FillUp(c, since, s, r, rec, k - 1);
      var w := Writer(t.cursor, rec, 0);
      assert Size(w) == 1;
      WriteIsARun(c, since, t, rec, r, 3);
      RunConcat(c, since, s, r, acts, [Write(Reserve(rec))] + Advances(|t.writers|, 3));
      acts := acts + ([Write(Reserve(rec))] + Advances(|t.writers|, 3));
      t := State(Stored(c, t.mem, w, 3), t.cursor + 1, t.writers + [At(w, 3)]);
    }
  }

  /** Such a state is reached in every ring from its start, and with every pair of records: so in every
      ring, of whatever size, a reader can get the record `a` under the number of the published `b`. */
  lemma EveryRingIsMisread(c: Conf, s0: State, a: Rec, fill: Rec, b: Rec, since: nat, r: Reader)
      returns (acts: seq<Act>, t: State)
    requires Start(c, s0) && ReaderOk(c, r) && RecOk(a) && OneSlot(fill) && RecOk(b)
    requires Slots(|a.payload|) <= c.n && Slots(|b.payload|) <= c.n && since <= c.n && c.n + 1 < Pow256(8)
    ensures Memory(c, t.mem) && Run(c, since, s0, r, acts) == Some((t, r)) && t.writers != []
    ensures t.writers[|t.writers| - 1] == Writer(c.n, b, Slots(|b.payload|) + 2)
    ensures Published(t.writers[|t.writers| - 1])
    ensures Decoded(c.n + 1, FieldsOf(c, a), a.payload) in ReadSince(c, t.mem, t.cursor, since)
  {
    hide Run, TimelyRun, Stored, Pow256, RecOk, Slots, ReadAlone, Decoded, ReadSince, ReaderOk;
    var w := Writer(0, a, 0);
    WriteIsARun(c, since, s0, a, r, 1);
    var u := State(Stored(c, s0.mem, w, 1), Size(w), [At(w, 1)]);
    assert s0.writers + [At(w, 1)] == [At(w, 1)];
    acts := [Write(Reserve(a))] + Advances(0, 1);
    var more: seq<Act>, s: State;
    more, s := FillUp(c, since, u, r, fill, c.n - Size(w));
    RunConcat(c, since, s0, r, acts, more);
    assert s.writers[0] == At(w, 1);
    var last: seq<Act>;
    last, t := LateWriterIsMisread(c, s, 0, b, since, r);
    RunConcat(c, since, s0, r, acts + more, last);
    acts := acts + more + last;
  }
}
