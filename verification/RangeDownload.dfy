/** The resumable parallel download: workers fetch chunks into a preallocated file, a reporter saves
    which are complete, and the process may crash between any two steps. */
module RangeDownload {
  import opened Bytes
  import Sidecar

  // ---------------------------------------------------------------- chunks

  /** The remote file, and the chunk size of a call. */
  datatype Geo = Geo(truth: seq<Byte>, chunk: nat)

  predicate GeoOk(g: Geo): (ok: bool)
    ensures ok ==> g.truth != [] && g.chunk > 0
  {
    g.truth != [] && g.chunk > 0 && Sidecar.Fits(|g.truth|, g.chunk, Count(g))
  }

  function Count(g: Geo): nat
    requires g.chunk > 0
  {
    (|g.truth| + g.chunk - 1) / g.chunk
  }

  function Base(g: Geo, i: nat): nat { i * g.chunk }

  /** Length of chunk `i`: the last one may be shorter. */
  function Len(g: Geo, i: nat): int {
    (if Base(g, i) + g.chunk <= |g.truth| then Base(g, i) + g.chunk else |g.truth|) - Base(g, i)
  }

  lemma ChunkFits(g: Geo, i: nat)
    requires GeoOk(g) && i < Count(g)
    ensures 0 < Len(g, i) && Base(g, i) + Len(g, i) <= |g.truth|
  {
    var size := |g.truth|;
    assert i <= Count(g) - 1;
    assert i * g.chunk <= (Count(g) - 1) * g.chunk;
    assert Count(g) * g.chunk <= size + g.chunk - 1;
    assert (Count(g) - 1) * g.chunk == Count(g) * g.chunk - g.chunk;
  }

  lemma ChunksApart(g: Geo, i: nat, j: nat)
    requires i < j
    ensures Base(g, i) + Len(g, i) <= Base(g, j)
  {
    assert (i + 1) * g.chunk <= j * g.chunk;
  }

  lemma AtLeast(a: nat, c: nat, m: nat)
    requires c > 0 && a >= m * c
    ensures a / c >= m
  {
    var q := a / c - m + 1;
    assert q * c == (a / c) * c - m * c + c;
    assert q * c > 0;
  }

  /** Every byte of the file is in some chunk. */
  lemma ChunkOf(g: Geo, k: nat) returns (i: nat)
    requires GeoOk(g) && k < |g.truth|
    ensures i < Count(g) && Base(g, i) <= k < Base(g, i) + Len(g, i)
  {
    hide Base, Len;
    i := ChunkIndex(k, g.chunk, |g.truth|);
    InChunk(g, i, k);
  }

  lemma ChunkIndex(k: nat, c: nat, size: nat) returns (i: nat)
    requires c > 0 && k < size
    ensures i < (size + c - 1) / c && i * c <= k < i * c + c
  {
    i := k / c;
    Divides(k, c);
    AtLeast(size + c - 1, c, i + 1);
  }

  lemma InChunk(g: Geo, i: nat, k: nat)
    requires k < |g.truth| && i * g.chunk <= k < i * g.chunk + g.chunk
    ensures Base(g, i) <= k < Base(g, i) + Len(g, i)
  {
  }

  lemma Divides(k: nat, c: nat)
    requires c > 0
    ensures (k / c) * c <= k < (k / c) * c + c && (k / c + 1) * c == (k / c) * c + c
  {
  }

  // ---------------------------------------------------------------- state

  /** What survives a crash: the partial file, its sidecar, the finished file. */
  datatype Disk = Disk(part: Option<seq<Byte>>, meta: Option<seq<Byte>>, dest: Option<seq<Byte>>)

  /** A worker; while fetching chunk `i`, `body` is what the response has brought, of which `got` bytes
      count as written. */
  datatype Worker =
    | Loop
    | Fetching(i: nat, attempt: nat, got: nat, body: seq<Byte>)
    | Counting(i: nat)
    | Finished
    | Failed

  /** `snap`: the bits the reporter has read so far for its next sidecar. `claims`: chunks taken, in order. */
  datatype Work = Work(bits: seq<bool>, done: int, next: nat, workers: seq<Worker>,
                       snap: Option<seq<bool>>, claims: seq<nat>)

  datatype Phase =
    | Began(prior: Option<seq<bool>>)
    | Discarded
    | Opening(prior: Option<seq<bool>>)
    | Sizing(prior: Option<seq<bool>>)
    | Working(w: Work)
    | Joined(w: Work)
    | Deciding(w: Work)
    | Renaming
    | Cleaning

  /** `chunk` is the chunk size of the latest call, `result` what it returned. */
  datatype Sys = Sys(disk: Disk, chunk: nat, proc: Option<Phase>, result: Option<bool>)

  datatype Event =
    | Begin(chunk: nat) | Discard(removed: bool) | DropMeta(removed: bool) | Open | SetLen(conns: nat) | IoError
    | Claim(w: nat) | Deliver(w: nat, data: seq<Byte>, kept: nat) | WriteError(w: nat) | Respond(w: nat, ok: bool)
    | CountIn(w: nat)
    | SnapBit | SnapWrite(written: bool)
    | Join | FinalMeta(written: bool) | Decide | Rename | Clean(removed: bool) | Crash

  const MAX_ATTEMPTS: nat := 6

  /** The sidecar's bits, if it describes this download. */
  function Known(g: Geo, meta: Option<seq<Byte>>): (m: Option<seq<bool>>)
    requires g.chunk > 0
    ensures m.Some? ==> |m.value| == Count(g)
  {
    if meta.None? then None else Sidecar.Read(meta.value, |g.truth|, g.chunk, Count(g))
  }

  /** The destination exists with the right size: a new call returns at once. */
  predicate Complete(truth: seq<Byte>, d: Disk) { d.dest.Some? && |d.dest.value| == |truth| }

  function Zeros(n: nat): (z: seq<Byte>)
    ensures |z| == n
  {
    seq(n, _ => 0)
  }

  function Resize(p: seq<Byte>, size: nat): (q: seq<Byte>)
    ensures |q| == size
  {
    if |p| >= size then p[..size] else p + Zeros(size - |p|)
  }

  /** A positioned write; it grows the file when it reaches past its end. */
  function WriteAt(p: seq<Byte>, at: nat, data: seq<Byte>): (q: seq<Byte>)
    ensures |q| >= |p|
  {
    if data == [] then p
    else
      var q := if |p| < at then Resize(p, at) else p;
      q[..at] + data + if at + |data| < |q| then q[at + |data|..] else []
  }

  /** Total length of the chunks below `k` whose bit is set. */
  function SetBytes(g: Geo, bits: seq<bool>, k: nat): int
    requires k <= |bits|
  {
    if k == 0 then 0 else SetBytes(g, bits, k - 1) + if bits[k - 1] then Len(g, k - 1) else 0
  }

  function AllClear(n: nat): seq<bool> { seq(n, _ => false) }

  function Initial(g: Geo, prior: Option<seq<bool>>, conns: nat): Work
    requires g.chunk > 0
  {
    var bits := if prior.Some? then prior.value else AllClear(Count(g));
    Work(bits, SetBytes(g, bits, |bits|), 0, seq(conns, _ => Loop), None, [])
  }

  predicate Over(w: Worker) { w.Finished? || w.Failed? }

  predicate Ended(w: Work) { forall k :: 0 <= k < |w.workers| ==> Over(w.workers[k]) }

  function Put(w: Work, k: nat, x: Worker): Work
    requires k < |w.workers|
  {
    w.(workers := w.workers[k := x])
  }

  // ---------------------------------------------------------------- steps

  /** The bytes of chunk `i`. */
  function Span(g: Geo, p: seq<Byte>, i: nat): (c: seq<Byte>)
    requires GeoOk(g) && |p| >= |g.truth| && i < Count(g)
    ensures |c| == Len(g, i)
  {
    ChunkFits(g, i);
    p[Base(g, i)..Base(g, i) + Len(g, i)]
  }

  /** A worker's step: the new partial file and the new working state. A response may bring anything,
      except that one with a success status that is not longer than its range brings the range's bytes. */
  function WorkStep(g: Geo, p: seq<Byte>, w: Work, e: Event): (r: Option<(seq<Byte>, Work)>)
    requires GeoOk(g) && |p| >= |g.truth| && |w.bits| == Count(g)
    ensures r.Some? ==> |r.value.0| >= |p|
  {
    match e
    case Claim(k) =>
      if k < |w.workers| && w.workers[k] == Loop then
        var w' := w.(next := w.next + 1);
        if w.next >= Count(g) then Some((p, Put(w', k, Finished)))
        else if w.bits[w.next] then Some((p, w'))
        else Some((p, Put(w'.(claims := w.claims + [w.next]), k, Fetching(w.next, 1, 0, []))))
      else None
    case Deliver(k, data, kept) =>
      if k < |w.workers| && w.workers[k].Fetching? && kept <= |data| then
        var f := w.workers[k];
        Some((WriteAt(p, Base(g, f.i) + f.got, data[..kept]),
              Put(w, k, f.(got := f.got + kept, body := f.body + data))))
      else None
    case WriteError(k) =>
      if k < |w.workers| && w.workers[k].Fetching? then Some((p, Put(w, k, Failed))) else None
    case Respond(k, ok) =>
      if k < |w.workers| && w.workers[k].Fetching? && w.workers[k].i < Count(g) then
        var f := w.workers[k];
        if ok && |f.body| <= Len(g, f.i) && !(f.body <= Span(g, g.truth, f.i)) then None
        else if ok && f.got == Len(g, f.i) then
          Some((p, Put(w.(bits := w.bits[f.i := true]), k, Counting(f.i))))
        else if f.attempt >= MAX_ATTEMPTS then Some((p, Put(w, k, Failed)))
        else Some((p, Put(w, k, Fetching(f.i, f.attempt + 1, 0, []))))
      else None
    case CountIn(k) =>
      if k < |w.workers| && w.workers[k].Counting? then
        Some((p, Put(w.(done := w.done + Len(g, w.workers[k].i)), k, Loop)))
      else None
    case SnapBit =>
      var acc := if w.snap.Some? then w.snap.value else [];
      if |acc| < |w.bits| then Some((p, w.(snap := Some(acc + [w.bits[|acc|]])))) else None
    case _ => None
  }

  function SaveMeta(g: Geo, d: Disk, bits: seq<bool>, written: bool): Disk {
    if written then d.(meta := Some(Sidecar.Encoded(|g.truth|, g.chunk, bits))) else d
  }

  predicate AllSet(bits: seq<bool>) { forall i :: 0 <= i < |bits| ==> bits[i] }

  predicate AnyFailed(w: Work) { exists k :: 0 <= k < |w.workers| && w.workers[k].Failed? }

  predicate WorkShape(g: Geo, d: Disk, w: Work) {
    GeoOk(g) && d.part.Some? && |d.part.value| >= |g.truth| && |w.bits| == Count(g)
  }

  function Running(s: Sys, p: Phase): Sys { s.(proc := Some(p)) }

  function Return(s: Sys, ok: bool): Sys { s.(proc := None, result := Some(ok)) }

  /** A call starts, with a chunk size of its own. */
  function Called(truth: seq<Byte>, s: Sys, chunk: nat): Option<Sys> {
    var g := Geo(truth, chunk);
    if GeoOk(g) && !Complete(truth, s.disk) then Some(Sys(s.disk, chunk, Some(Began(Known(g, s.disk.meta))), None))
    else None
  }

  /** One step of a call, of its threads, or a crash. */
  function Step(truth: seq<Byte>, s: Sys, e: Event): Option<Sys> {
    var g := Geo(truth, s.chunk);
    if e.Crash? then Some(s.(proc := None))
    else if s.proc.None? then
      if e.Begin? then Called(truth, s, e.chunk) else None
    else if !GeoOk(g) then None
    else
      match s.proc.value
      case Began(prior) =>
        if prior.None? && s.disk.part.Some? then
          if e.Discard? then
            Some(Running(s.(disk := if e.removed then s.disk.(part := None) else s.disk), Discarded))
          else None
        else if e.Open? then Some(Opened(s, prior)) else if e.IoError? then Some(Return(s, false)) else None
      case Discarded =>
        if e.DropMeta? then
          Some(Running(s.(disk := if e.removed then s.disk.(meta := None) else s.disk), Opening(None)))
        else None
      case Opening(prior) =>
        if e.Open? then Some(Opened(s, prior)) else if e.IoError? then Some(Return(s, false)) else None
      case Sizing(prior) =>
        if e.SetLen? && s.disk.part.Some? then
          Some(Running(s.(disk := s.disk.(part := Some(Resize(s.disk.part.value, |truth|)))),
                       Working(Initial(g, prior, e.conns))))
        else if e.IoError? then Some(Return(s, false)) else None
      case Working(w) => WorkingStep(g, s, w, e)
      case Joined(w) =>
        if e.FinalMeta? then Some(Running(s.(disk := SaveMeta(g, s.disk, w.bits, e.written)), Deciding(w))) else None
      case Deciding(w) =>
        if e.Decide? then
          if AnyFailed(w) || !AllSet(w.bits) then Some(Return(s, false)) else Some(Running(s, Renaming))
        else None
      case Renaming =>
        if e.Rename? then Some(Running(s.(disk := s.disk.(part := None, dest := s.disk.part)), Cleaning))
        else if e.IoError? then Some(Return(s, false)) else None
      case Cleaning =>
        if e.Clean? then Some(Return(s.(disk := if e.removed then s.disk.(meta := None) else s.disk), true)) else None
  }

  function Opened(s: Sys, prior: Option<seq<bool>>): Sys {
    Running(s.(disk := s.disk.(part := Some(if s.disk.part.Some? then s.disk.part.value else []))), Sizing(prior))
  }

  function WorkingStep(g: Geo, s: Sys, w: Work, e: Event): Option<Sys>
    requires GeoOk(g)
  {
    if !WorkShape(g, s.disk, w) then None
    else if e.SnapWrite? then
      if w.snap.Some? && |w.snap.value| == |w.bits| then
        Some(Running(s.(disk := SaveMeta(g, s.disk, w.snap.value, e.written)), Working(w.(snap := None))))
      else None
    else if e.Join? then
      if w.snap.None? && Ended(w) then Some(Running(s, Joined(w))) else None
    else
      var r := WorkStep(g, s.disk.part.value, w, e);
      if r.None? then None
      else Some(Running(s.(disk := s.disk.(part := Some(r.value.0))), Working(r.value.1)))
  }

  function Run(truth: seq<Byte>, s: Sys, es: seq<Event>): Option<Sys>
    decreases |es|
  {
    if es == [] then Some(s)
    else
      var r := Step(truth, s, es[0]);
      if r.None? then None else Run(truth, r.value, es[1..])
  }

  // ---------------------------------------------------------------- what always holds

  /** Every chunk whose bit is set has its true bytes in the file. */
  predicate Covers(g: Geo, bits: seq<bool>, p: seq<Byte>)
    requires GeoOk(g) && |p| == |g.truth| && |bits| == Count(g)
  {
    forall i :: 0 <= i < |bits| && bits[i] ==> Span(g, p, i) == Span(g, g.truth, i)
  }

  predicate Busy(x: Worker) { x.Fetching? || x.Counting? }

  predicate Placed(g: Geo, w: Work, x: Worker)
    requires g.chunk > 0
  {
    Busy(x) ==> x.i < Count(g) && x.i < w.next && x.i < |w.bits| && w.bits[x.i] == x.Counting?
  }

  /** As long as nothing was dropped, what a worker has fetched is in its chunk. */
  predicate Holds(g: Geo, p: seq<Byte>, x: Worker)
    requires GeoOk(g) && |p| == |g.truth|
  {
    x.Fetching? && x.i < Count(g) ==>
      x.got <= |x.body| <= Len(g, x.i) && (x.got == |x.body| ==> x.body <= Span(g, p, x.i))
  }

  predicate AllHold(g: Geo, p: seq<Byte>, ws: seq<Worker>)
    requires GeoOk(g) && |p| == |g.truth|
  {
    forall k :: 0 <= k < |ws| ==> Holds(g, p, ws[k])
  }

  /** No two workers have the same chunk. */
  predicate Separate(w: Work) {
    forall j, k :: 0 <= j < k < |w.workers| && Busy(w.workers[j]) && Busy(w.workers[k]) ==>
      w.workers[j].i != w.workers[k].i
  }

  /** Chunks are claimed in increasing order, so none twice. */
  predicate ClaimsOk(w: Work) {
    && (forall j, k :: 0 <= j < k < |w.claims| ==> w.claims[j] < w.claims[k])
    && (forall k :: 0 <= k < |w.claims| ==> w.claims[k] < w.next)
  }

  predicate SnapOk(w: Work) {
    w.snap.Some? ==> |w.snap.value| <= |w.bits| && forall j :: 0 <= j < |w.snap.value| && w.snap.value[j] ==> w.bits[j]
  }

  /** Bytes of chunks whose bit is set but which are not yet in the total. */
  function Pending(g: Geo, ws: seq<Worker>): int {
    if ws == [] then 0 else (if ws[0].Counting? then Len(g, ws[0].i) else 0) + Pending(g, ws[1..])
  }

  predicate TotalOk(g: Geo, w: Work) { w.done + Pending(g, w.workers) == SetBytes(g, w.bits, |w.bits|) }

  predicate AllPlaced(g: Geo, w: Work)
    requires g.chunk > 0
  {
    forall k :: 0 <= k < |w.workers| ==> Placed(g, w, w.workers[k])
  }

  /** The bookkeeping, whatever the responses bring. */
  predicate Tally(g: Geo, w: Work): (ok: bool)
    ensures ok ==> GeoOk(g) && |w.bits| == Count(g)
  {
    && GeoOk(g) && |w.bits| == Count(g)
    && AllPlaced(g, w) && Separate(w) && ClaimsOk(w) && SnapOk(w) && TotalOk(g, w)
  }

  /** And the file. */
  predicate WorkInv(g: Geo, p: seq<Byte>, w: Work) {
    Tally(g, w) && |p| == |g.truth| && Covers(g, w.bits, p) && AllHold(g, p, w.workers)
  }

  // ---------------------------------------------------------------- the sums

  lemma {:induction false} PendingAfter(g: Geo, ws: seq<Worker>, k: nat, x: Worker)
    requires k < |ws|
    ensures Pending(g, ws[k := x]) + (if ws[k].Counting? then Len(g, ws[k].i) else 0)
            == Pending(g, ws) + if x.Counting? then Len(g, x.i) else 0
  {
    hide Len;
    if k > 0 {
      assert ws[k := x][1..] == ws[1..][k - 1 := x];
      PendingAfter(g, ws[1..], k - 1, x);
    } else {
      assert ws[k := x][1..] == ws[1..];
    }
  }

  lemma {:induction false} SetBytesAfter(g: Geo, bits: seq<bool>, i: nat, n: nat)
    requires i < |bits| && n <= |bits| && !bits[i]
    ensures SetBytes(g, bits[i := true], n) == SetBytes(g, bits, n) + if i < n then Len(g, i) else 0
  {
    hide Len;
    if n > 0 { SetBytesAfter(g, bits, i, n - 1); }
  }

  // ---------------------------------------------------------------- workers keep it

  /** No response brings more than its range asks for. */
  predicate InRange(g: Geo, w: Work, e: Event) {
    e.Deliver? && e.w < |w.workers| && w.workers[e.w].Fetching? ==>
      |w.workers[e.w].body| + |e.data| <= Len(g, w.workers[e.w].i)
  }

  /** A write inside the file replaces bytes. */
  lemma WriteInside(p: seq<Byte>, at: nat, data: seq<Byte>)
    requires at + |data| <= |p|
    ensures WriteAt(p, at, data) == p[..at] + data + p[at + |data|..]
  {
    if data == [] { assert p[..at] + [] + p[at..] == p; }
  }

  lemma WriteApart(p: seq<Byte>, at: nat, data: seq<Byte>, lo: nat, hi: nat)
    requires at + |data| <= |p| && lo <= hi <= |p| && (hi <= at || at + |data| <= lo)
    ensures WriteAt(p, at, data)[lo..hi] == p[lo..hi]
  {
    hide WriteAt;
    WriteInside(p, at, data);
    var q := p[..at] + data + p[at + |data|..];
    forall k | lo <= k < hi ensures q[k] == p[k] {}
  }

  lemma WriteWithin(p: seq<Byte>, lo: nat, hi: nat, at: nat, data: seq<Byte>)
    requires lo + at + |data| <= hi <= |p|
    ensures WriteAt(p, lo + at, data)[lo..hi] == WriteAt(p[lo..hi], at, data)
  {
    hide WriteAt;
    WriteInside(p, lo + at, data);
    WriteInside(p[lo..hi], at, data);
    var q, c := p[..lo + at] + data + p[lo + at + |data|..], p[lo..hi];
    var c' := c[..at] + data + c[at + |data|..];
    assert |c'| == hi - lo;
    forall k | 0 <= k < hi - lo ensures q[lo..hi][k] == c'[k] {
      assert q[lo..hi][k] == q[lo + k];
    }
  }

  /** Writing inside one chunk leaves the others alone. */
  lemma WriteSpan(g: Geo, p: seq<Byte>, i: nat, at: nat, data: seq<Byte>, j: nat)
    requires GeoOk(g) && |p| == |g.truth| && i < Count(g) && j < Count(g) && at + |data| <= Len(g, i)
    ensures var q := WriteAt(p, Base(g, i) + at, data);
            |q| == |p| && Span(g, q, j) == if j == i then WriteAt(Span(g, p, i), at, data) else Span(g, p, j)
  {
    hide Base, Len, WriteAt, GeoOk, Count;
    ChunkFits(g, i);
    ChunkFits(g, j);
    WriteInside(p, Base(g, i) + at, data);
    if i == j {
      WriteWithin(p, Base(g, i), Base(g, i) + Len(g, i), at, data);
    } else {
      if i < j { ChunksApart(g, i, j); } else { ChunksApart(g, j, i); }
      WriteApart(p, Base(g, i) + at, data, Base(g, j), Base(g, j) + Len(g, j));
    }
  }

  /** A worker that moves on, or lets go, without taking another chunk. */
  lemma MovedOn(g: Geo, w: Work, k: nat, x: Worker)
    requires g.chunk > 0 && AllPlaced(g, w) && Separate(w) && k < |w.workers|
    requires Busy(x) ==> x.Fetching? && w.workers[k].Fetching? && x.i == w.workers[k].i
    ensures AllPlaced(g, Put(w, k, x)) && Separate(Put(w, k, x))
  {
    hide Count;
    var w' := Put(w, k, x);
    forall j | 0 <= j < |w'.workers| ensures Placed(g, w', w'.workers[j]) {
      assert Placed(g, w, w.workers[j]);
    }
  }

  /** A worker that takes the next chunk. */
  lemma TookNext(g: Geo, w: Work, k: nat)
    requires g.chunk > 0 && AllPlaced(g, w) && Separate(w) && k < |w.workers| && w.workers[k] == Loop
    requires w.next < Count(g) == |w.bits| && !w.bits[w.next]
    ensures var w' := Put(w.(next := w.next + 1, claims := w.claims + [w.next]), k, Fetching(w.next, 1, 0, []));
            AllPlaced(g, w') && Separate(w')
  {
    hide Count;
    var w' := Put(w.(next := w.next + 1, claims := w.claims + [w.next]), k, Fetching(w.next, 1, 0, []));
    forall j | 0 <= j < |w'.workers| ensures Placed(g, w', w'.workers[j]) {
      assert Placed(g, w, w.workers[j]);
    }
    forall i, j | 0 <= i < j < |w'.workers| && Busy(w'.workers[i]) && Busy(w'.workers[j])
      ensures w'.workers[i].i != w'.workers[j].i
    {
      assert Placed(g, w, w.workers[i]) && Placed(g, w, w.workers[j]);
    }
  }

  /** A worker whose chunk is complete. */
  lemma Completed(g: Geo, w: Work, k: nat)
    requires g.chunk > 0 && AllPlaced(g, w) && Separate(w) && k < |w.workers| && w.workers[k].Fetching?
    requires w.workers[k].i < |w.bits|
    ensures var i := w.workers[k].i; var w' := Put(w.(bits := w.bits[i := true]), k, Counting(i));
            AllPlaced(g, w') && Separate(w')
  {
    hide Count;
    var i := w.workers[k].i;
    var w' := Put(w.(bits := w.bits[i := true]), k, Counting(i));
    assert Placed(g, w, w.workers[k]);
    forall j | 0 <= j < |w'.workers| ensures Placed(g, w', w'.workers[j]) {
      assert Placed(g, w, w.workers[j]);
    }
  }

  /** Every step of the workers and of the reporter's reading keeps the bookkeeping. */
  lemma TallyKeeps(g: Geo, p: seq<Byte>, w: Work, e: Event)
    requires Tally(g, w) && |p| >= |g.truth| && WorkStep(g, p, w, e).Some?
    ensures Tally(g, WorkStep(g, p, w, e).value.1)
  {
    hide Base, Len, Pending, SetBytes, Span, WriteAt, AllPlaced, Separate;
    var w' := WorkStep(g, p, w, e).value.1;
    match e
    case Claim(k) =>
      PendingAfter(g, w.workers, k, w'.workers[k]);
      ClaimTally(g, p, w, k);
    case Respond(k, ok) => RespondTally(g, p, w, k, ok);
    case Deliver(k, _, _) =>
      PendingAfter(g, w.workers, k, w'.workers[k]);
      MovedOn(g, w, k, w'.workers[k]);
    case WriteError(k) =>
      PendingAfter(g, w.workers, k, Failed);
      MovedOn(g, w, k, Failed);
    case CountIn(k) =>
      PendingAfter(g, w.workers, k, Loop);
      MovedOn(g, w, k, Loop);
      Restamped(g, Put(w, k, Loop), w'.done, w.snap);
    case _ => Restamped(g, w, w.done, w'.snap);
  }

  lemma Restamped(g: Geo, w: Work, done: int, snap: Option<seq<bool>>)
    requires g.chunk > 0 && AllPlaced(g, w) && Separate(w)
    ensures AllPlaced(g, w.(done := done, snap := snap)) && Separate(w.(done := done, snap := snap))
  {
    hide Count;
    forall k | 0 <= k < |w.workers| ensures Placed(g, w.(done := done, snap := snap), w.workers[k]) {
      assert Placed(g, w, w.workers[k]);
    }
  }

  lemma RespondTally(g: Geo, p: seq<Byte>, w: Work, k: nat, ok: bool)
    requires Tally(g, w) && |p| >= |g.truth| && WorkStep(g, p, w, Respond(k, ok)).Some?
    ensures Tally(g, WorkStep(g, p, w, Respond(k, ok)).value.1)
  {
    hide Base, Len, Pending, SetBytes, Span, AllPlaced, Separate;
    var w' := WorkStep(g, p, w, Respond(k, ok)).value.1;
    PendingAfter(g, w.workers, k, w'.workers[k]);
    IsPlaced(g, w, k);
    SetBytesAfter(g, w.bits, w.workers[k].i, |w.bits|);
    if w'.workers[k].Counting? { Completed(g, w, k); } else { MovedOn(g, w, k, w'.workers[k]); }
  }

  lemma ClaimTally(g: Geo, p: seq<Byte>, w: Work, k: nat)
    requires Tally(g, w) && |p| >= |g.truth| && WorkStep(g, p, w, Claim(k)).Some?
    ensures var w' := WorkStep(g, p, w, Claim(k)).value.1; AllPlaced(g, w') && Separate(w') && ClaimsOk(w')
  {
    hide Count, TotalOk, SnapOk;
    if w.next >= Count(g) {
      MovedOn(g, w.(next := w.next + 1), k, Finished);
    } else if !w.bits[w.next] {
      TookNext(g, w, k);
    }
  }

  lemma IsPlaced(g: Geo, w: Work, k: nat)
    requires Tally(g, w) && k < |w.workers|
    ensures Placed(g, w, w.workers[k])
  {
  }

  /** A bit is set only when the chunk's true bytes are in the file. */
  lemma RespondKeeps(g: Geo, p: seq<Byte>, w: Work, k: nat, ok: bool)
    requires WorkInv(g, p, w) && WorkStep(g, p, w, Respond(k, ok)).Some?
    ensures var r := WorkStep(g, p, w, Respond(k, ok)).value; r.0 == p && WorkInv(g, p, r.1)
  {
    hide Base, Len, Span, Tally, WriteAt;
    TallyKeeps(g, p, w, Respond(k, ok));
    var f := w.workers[k];
    assert Holds(g, p, f);
    if WorkStep(g, p, w, Respond(k, ok)).value.1.workers[k].Counting? {
      assert f.body == Span(g, p, f.i) == Span(g, g.truth, f.i);
    }
  }

  /** Bytes written by one worker never disturb a complete chunk or another worker's. */
  lemma DeliverKeeps(g: Geo, p: seq<Byte>, w: Work, k: nat, data: seq<Byte>, kept: nat)
    requires WorkInv(g, p, w) && WorkStep(g, p, w, Deliver(k, data, kept)).Some?
    requires InRange(g, w, Deliver(k, data, kept))
    ensures var r := WorkStep(g, p, w, Deliver(k, data, kept)).value; WorkInv(g, r.0, r.1)
  {
    hide Base, Len, Span, WriteAt, ClaimsOk, SnapOk, TotalOk;
    TallyKeeps(g, p, w, Deliver(k, data, kept));
    var f := w.workers[k];
    var q := WorkStep(g, p, w, Deliver(k, data, kept)).value.0;
    assert Holds(g, p, f);
    IsPlaced(g, w, k);
    WriteSpan(g, p, f.i, f.got, data[..kept], f.i);
    forall j: nat | j < Count(g) && j != f.i ensures Span(g, q, j) == Span(g, p, j) {
      WriteSpan(g, p, f.i, f.got, data[..kept], j);
    }
    DeliveredBody(g, p, f, data, kept);
    forall j | 0 <= j < |w.workers| && j != k ensures Holds(g, q, w.workers[j]) {
      IsPlaced(g, w, j);
      assert Holds(g, p, w.workers[j]);
    }
  }

  lemma WriteEnds(c: seq<Byte>, at: nat, data: seq<Byte>)
    requires at + |data| <= |c|
    ensures WriteAt(c, at, data)[..at + |data|] == c[..at] + data
  {
  }

  lemma DeliveredBody(g: Geo, p: seq<Byte>, f: Worker, data: seq<Byte>, kept: nat)
    requires GeoOk(g) && |p| == |g.truth| && f.Fetching? && f.i < Count(g) && Holds(g, p, f)
    requires kept <= |data| && |f.body| + |data| <= Len(g, f.i)
    ensures var q := WriteAt(p, Base(g, f.i) + f.got, data[..kept]);
            |q| == |p| && Holds(g, q, f.(got := f.got + kept, body := f.body + data))
  {
    hide Base, Len, Span, WriteAt;
    WriteSpan(g, p, f.i, f.got, data[..kept], f.i);
    WriteEnds(Span(g, p, f.i), f.got, data[..kept]);
    if f.got + kept == |f.body + data| { assert data[..kept] == data; }
  }

  /** A freshly claimed chunk holds nothing yet. */
  lemma NoneFetched(g: Geo, p: seq<Byte>, i: nat, attempt: nat)
    requires GeoOk(g) && |p| == |g.truth|
    ensures Holds(g, p, Fetching(i, attempt, 0, []))
  {
    if i < Count(g) { ChunkFits(g, i); }
  }

  /** Every step in range keeps the file as well. */
  lemma WorkStepKeeps(g: Geo, p: seq<Byte>, w: Work, e: Event)
    requires WorkInv(g, p, w) && WorkStep(g, p, w, e).Some? && InRange(g, w, e)
    ensures var r := WorkStep(g, p, w, e).value; WorkInv(g, r.0, r.1)
  {
    hide Base, Len, Span, WriteAt, Tally, Covers;
    match e
    case Deliver(k, data, kept) => DeliverKeeps(g, p, w, k, data, kept);
    case Respond(k, ok) => RespondKeeps(g, p, w, k, ok);
    case Claim(_) =>
      TallyKeeps(g, p, w, e);
      NoneFetched(g, p, w.next, 1);
    case _ => TallyKeeps(g, p, w, e);
  }

  /** Bits are only ever set. */
  predicate Within(m: seq<bool>, bits: seq<bool>) { |m| == |bits| && forall i :: 0 <= i < |m| && m[i] ==> bits[i] }

  lemma BitsGrow(g: Geo, p: seq<Byte>, w: Work, e: Event)
    requires WorkInv(g, p, w) && WorkStep(g, p, w, e).Some?
    ensures Within(w.bits, WorkStep(g, p, w, e).value.1.bits)
  {
    hide Base, Len, Span, WriteAt, Covers, AllHold, Separate, ClaimsOk, SnapOk, TotalOk;
  }

  // ---------------------------------------------------------------- the whole system

  /** What a sidecar vouches for: chunks of the size it names, at least one of them. */
  datatype Mark = Mark(g: Geo, bits: seq<bool>)

  function Marks(truth: seq<Byte>, meta: Option<seq<Byte>>): (m: Option<Mark>)
    ensures m.Some? ==> GeoOk(m.value.g) && m.value.g.truth == truth && |m.value.bits| == Count(m.value.g)
  {
    if meta.None? then None
    else
      var g := Geo(truth, Sidecar.ChunkIn(meta.value));
      if GeoOk(g) && Known(g, meta).Some? && true in Known(g, meta).value then Some(Mark(g, Known(g, meta).value))
      else None
  }

  /** A sidecar speaks of one chunk size only. */
  lemma KnownMarks(g: Geo, meta: Option<seq<Byte>>)
    requires GeoOk(g) && Known(g, meta).Some?
    ensures var b := Known(g, meta).value; Marks(g.truth, meta) == if true in b then Some(Mark(g, b)) else None
  {
    hide Sidecar.Read, Sidecar.ChunkIn;
    Sidecar.ReadChunk(meta.value, |g.truth|, g.chunk, Count(g));
  }

  lemma MarksKnown(truth: seq<Byte>, meta: Option<seq<Byte>>)
    requires Marks(truth, meta).Some?
    ensures Known(Marks(truth, meta).value.g, meta) == Some(Marks(truth, meta).value.bits)
    ensures true in Marks(truth, meta).value.bits
  {
  }

  /** What a crash must never break: while the partial file exists, every chunk the sidecar vouches for
      is complete in it; when only the sidecar is left, the download was already finished. */
  predicate Safe(truth: seq<Byte>, d: Disk) {
    var m := Marks(truth, d.meta);
    m.Some? ==>
      if d.part.Some? then |d.part.value| == |truth| && Covers(m.value.g, m.value.bits, d.part.value)
      else Complete(truth, d)
  }

  /** The sidecar vouches for no more than `bits`. */
  predicate Lags(g: Geo, meta: Option<seq<Byte>>, bits: seq<bool>) {
    var m := Marks(g.truth, meta);
    m.Some? ==> m.value.g == g && Within(m.value.bits, bits)
  }

  /** What a call starts from is what the sidecar vouches for. */
  predicate Resumes(g: Geo, meta: Option<seq<Byte>>, prior: Option<seq<bool>>)
    requires GeoOk(g)
  {
    && (prior.Some? ==> |prior.value| == Count(g))
    && Marks(g.truth, meta) == if prior.Some? && true in prior.value then Some(Mark(g, prior.value)) else None
  }

  predicate AtWork(g: Geo, d: Disk, w: Work)
    requires GeoOk(g)
  {
    d.part.Some? && WorkInv(g, d.part.value, w) && Lags(g, d.meta, w.bits)
  }

  predicate PhaseOk(g: Geo, d: Disk, ph: Phase)
    requires GeoOk(g)
  {
    match ph
    case Began(prior) => !Complete(g.truth, d) && Safe(g.truth, d) && prior == Known(g, d.meta)
    case Discarded => !Complete(g.truth, d) && (d.part.Some? ==> Safe(g.truth, d))
    case Opening(prior) => !Complete(g.truth, d) && Safe(g.truth, d) && Resumes(g, d.meta, prior)
    case Sizing(prior) => !Complete(g.truth, d) && Safe(g.truth, d) && Resumes(g, d.meta, prior) && d.part.Some?
    case Working(w) => !Complete(g.truth, d) && Safe(g.truth, d) && AtWork(g, d, w)
    case Joined(w) => !Complete(g.truth, d) && Safe(g.truth, d) && AtWork(g, d, w) && Ended(w)
    case Deciding(w) => !Complete(g.truth, d) && Safe(g.truth, d) && AtWork(g, d, w) && Ended(w)
    case Renaming => !Complete(g.truth, d) && Safe(g.truth, d) && d.part == Some(g.truth)
    case Cleaning => d.dest == Some(g.truth) && d.part.None?
  }

  predicate Inv(truth: seq<Byte>, s: Sys) {
    && (if s.proc.Some? then GeoOk(Geo(truth, s.chunk)) && PhaseOk(Geo(truth, s.chunk), s.disk, s.proc.value)
        else Safe(truth, s.disk))
    && (s.result == Some(true) ==> s.disk.dest == Some(truth))
  }

  /** While the partial file is being discarded, a sidecar that vouches for chunks of it goes next. A
      crash in between is harmless only if the partial file is still there. */
  predicate Careful(truth: seq<Byte>, s: Sys, e: Event) {
    s.proc == Some(Discarded) && Marks(truth, s.disk.meta).Some? ==>
      e == DropMeta(true) || (e.Crash? && s.disk.part.Some?)
  }

  /** No response is longer than its range. */
  predicate Measured(truth: seq<Byte>, s: Sys, e: Event) {
    s.proc.Some? && s.proc.value.Working? ==> InRange(Geo(truth, s.chunk), s.proc.value.w, e)
  }

  /** A run with both properties, whatever chunk sizes its calls have. */
  predicate Orderly(truth: seq<Byte>, s: Sys, es: seq<Event>)
    decreases |es|
  {
    es != [] ==> Careful(truth, s, es[0]) && Measured(truth, s, es[0])
                 && (Step(truth, s, es[0]).Some? ==> Orderly(truth, Step(truth, s, es[0]).value, es[1..]))
  }

  /** A saved sidecar says what its writer had read. */
  lemma Saved(g: Geo, d: Disk, bits: seq<bool>, written: bool)
    requires GeoOk(g) && |bits| == Count(g)
    ensures Known(g, SaveMeta(g, d, bits, written).meta) == if written then Some(bits) else Known(g, d.meta)
    ensures Marks(g.truth, SaveMeta(g, d, bits, written).meta)
            == if !written then Marks(g.truth, d.meta) else if true in bits then Some(Mark(g, bits)) else None
  {
    hide Sidecar.Read, Sidecar.Encoded, Marks;
    if written {
      Sidecar.ReadInvertsWrite(|g.truth|, g.chunk, bits, |g.truth|, g.chunk, |bits|);
      KnownMarks(g, SaveMeta(g, d, bits, written).meta);
    }
  }

  lemma WithinCovers(g: Geo, p: seq<Byte>, m: seq<bool>, bits: seq<bool>)
    requires GeoOk(g) && |p| == |g.truth| && |bits| == Count(g) && Covers(g, bits, p) && Within(m, bits)
    ensures Covers(g, m, p)
  {
  }

  /** A sidecar that lags the bits is safe beside a file that has them. */
  lemma LagsSafe(g: Geo, d: Disk, w: Work)
    requires GeoOk(g) && AtWork(g, d, w)
    ensures Safe(g.truth, d)
  {
    hide Marks, Covers, AllHold, Tally, Known;
    var m := Marks(g.truth, d.meta);
    if m.Some? { WithinCovers(g, d.part.value, m.value.bits, w.bits); }
  }

  lemma SpanAt(g: Geo, p: seq<Byte>, i: nat, k: nat)
    requires GeoOk(g) && |p| >= |g.truth| && i < Count(g) && Base(g, i) <= k < Base(g, i) + Len(g, i)
    ensures k < |g.truth| && Span(g, p, i)[k - Base(g, i)] == p[k]
  {
    ChunkFits(g, i);
  }

  /** All chunks complete is the whole file. */
  lemma AllCovered(g: Geo, p: seq<Byte>, bits: seq<bool>)
    requires GeoOk(g) && |p| == |g.truth| && |bits| == Count(g) && Covers(g, bits, p) && AllSet(bits)
    ensures p == g.truth
  {
    hide Base, Len, Span;
    forall k | 0 <= k < |p| ensures p[k] == g.truth[k] {
      var i := ChunkOf(g, k);
      SpanAt(g, p, i, k);
      SpanAt(g, g.truth, i, k);
    }
  }

  lemma {:induction false} NothingPending(g: Geo, ws: seq<Worker>)
    requires forall k :: 0 <= k < |ws| ==> ws[k] == Loop
    ensures Pending(g, ws) == 0
  {
    if ws != [] { NothingPending(g, ws[1..]); }
  }

  /** Resuming keeps the chunks the sidecar vouches for and starts the rest over. */
  lemma StartsRight(g: Geo, d: Disk, prior: Option<seq<bool>>, conns: nat)
    requires GeoOk(g) && Safe(g.truth, d) && !Complete(g.truth, d) && Resumes(g, d.meta, prior) && d.part.Some?
    ensures var p := Resize(d.part.value, |g.truth|);
            AtWork(g, d.(part := Some(p)), Initial(g, prior, conns))
  {
    hide Span, SetBytes, Marks;
    var w := Initial(g, prior, conns);
    NothingPending(g, w.workers);
    var m := Marks(g.truth, d.meta);
    if m.Some? {
      assert Resize(d.part.value, |g.truth|) == d.part.value;
    } else {
      assert forall i :: 0 <= i < |w.bits| ==> !w.bits[i];
    }
  }

  /** Beginning a call whose sidecar does not match, or matches, with the partial file there or not. */
  lemma BeganResumes(g: Geo, d: Disk, prior: Option<seq<bool>>)
    requires GeoOk(g) && Safe(g.truth, d) && !Complete(g.truth, d) && prior == Known(g, d.meta)
    requires prior.Some? || d.part.None?
    ensures Resumes(g, d.meta, prior)
  {
    hide Marks, Known;
    if prior.Some? { KnownMarks(g, d.meta); }
  }

  lemma WorkingKeeps(truth: seq<Byte>, s: Sys, w: Work, e: Event)
    requires Inv(truth, s) && s.proc == Some(Working(w)) && InRange(Geo(truth, s.chunk), w, e)
    requires WorkingStep(Geo(truth, s.chunk), s, w, e).Some?
    ensures Inv(truth, WorkingStep(Geo(truth, s.chunk), s, w, e).value)
  {
    hide Covers, AllHold, Separate, ClaimsOk, TotalOk, WorkStep, SaveMeta, Marks, Known, Safe;
    var g := Geo(truth, s.chunk);
    var s' := WorkingStep(g, s, w, e).value;
    if e.SnapWrite? {
      Saved(g, s.disk, w.snap.value, e.written);
      assert Within(w.snap.value, w.bits);
      SavedFrame(g, s.disk, w.snap.value, e.written);
      SnapDone(g, s.disk.part.value, w);
      LagsSafe(g, s'.disk, s'.proc.value.w);
    } else if !e.Join? {
      WorkStepKeeps(g, s.disk.part.value, w, e);
      BitsGrow(g, s.disk.part.value, w, e);
      LagsSafe(g, s'.disk, s'.proc.value.w);
    }
  }

  lemma SavedFrame(g: Geo, d: Disk, bits: seq<bool>, written: bool)
    ensures SaveMeta(g, d, bits, written).part == d.part && SaveMeta(g, d, bits, written).dest == d.dest
  {
  }

  lemma SnapDone(g: Geo, p: seq<Byte>, w: Work)
    requires WorkInv(g, p, w)
    ensures WorkInv(g, p, w.(snap := None))
  {
    hide Tally, Covers, AllHold;
    SnapCleared(g, w);
  }

  lemma NoMarks(truth: seq<Byte>)
    ensures Marks(truth, None).None?
  {
  }

  /** Every step of an orderly run keeps the invariant. */
  lemma StepKeeps(truth: seq<Byte>, s: Sys, e: Event)
    requires Inv(truth, s) && Step(truth, s, e).Some? && Careful(truth, s, e) && Measured(truth, s, e)
    ensures Inv(truth, Step(truth, s, e).value)
  {
    hide Covers, WorkInv, WorkStep, SaveMeta, WorkingStep, Initial, Resize, Marks, Known;
    NoMarks(truth);
    if s.proc.Some? && !e.Crash? {
      var g := Geo(truth, s.chunk);
      match s.proc.value
      case Began(prior) =>
        if prior.Some? || s.disk.part.None? { BeganResumes(g, s.disk, prior); }
      case Working(w) => WorkingKeeps(truth, s, w, e);
      case Sizing(prior) =>
        if e.SetLen? {
          StartsRight(g, s.disk, prior, e.conns);
          LagsSafe(g, Step(truth, s, e).value.disk, Initial(g, prior, e.conns));
        }
      case Joined(w) => FinalKeeps(truth, s, w, e);
      case Deciding(w) =>
        if AllSet(w.bits) { DoneIsTruth(g, s.disk.part.value, w); }
      case _ =>
    }
  }

  lemma DoneIsTruth(g: Geo, p: seq<Byte>, w: Work)
    requires WorkInv(g, p, w) && AllSet(w.bits)
    ensures p == g.truth
  {
    AllCovered(g, p, w.bits);
  }

  lemma FinalKeeps(truth: seq<Byte>, s: Sys, w: Work, e: Event)
    requires Inv(truth, s) && s.proc == Some(Joined(w)) && Step(truth, s, e).Some? && !e.Crash?
    ensures Inv(truth, Step(truth, s, e).value)
  {
    hide Covers, AllHold, Separate, ClaimsOk, TotalOk, SnapOk, SaveMeta, Marks, Known, Safe;
    var g := Geo(truth, s.chunk);
    Saved(g, s.disk, w.bits, e.written);
    SavedFrame(g, s.disk, w.bits, e.written);
    LagsSafe(g, Step(truth, s, e).value.disk, w);
  }

  /** Over every orderly run of calls, threads and crashes. */
  lemma {:induction false} RunKeeps(truth: seq<Byte>, s: Sys, es: seq<Event>)
    requires Inv(truth, s) && Run(truth, s, es).Some? && Orderly(truth, s, es)
    ensures Inv(truth, Run(truth, s, es).value)
    decreases |es|
  {
    hide Inv, Step, Careful, Measured;
    if es != [] {
      StepKeeps(truth, s, es[0]);
      RunKeeps(truth, Step(truth, s, es[0]).value, es[1..]);
    }
  }

  /** A first call: nothing is known about the download yet, whatever partial file is left over. */
  predicate FirstCall(s: Sys) { s.proc.None? && s.result.None? && s.disk.meta.None? }

  lemma FirstInv(truth: seq<Byte>, s: Sys)
    requires FirstCall(s)
    ensures Inv(truth, s)
  {
  }

  /** Crash-safe: after any number of calls, with any chunk sizes, and any crashes, at any instant, a
      bit in the sidecar while the partial file exists means that the chunk's true bytes are in that
      file, as long as no response overran its range and no discard left a vouching sidecar behind. */
  lemma CrashSafe(g: Geo, s0: Sys, es: seq<Event>, i: nat)
    requires GeoOk(g) && i < Count(g)
    requires FirstCall(s0) && Run(g.truth, s0, es).Some? && Orderly(g.truth, s0, es)
    ensures var d := Run(g.truth, s0, es).value.disk;
            Known(g, d.meta).Some? && Known(g, d.meta).value[i] && d.part.Some? ==>
              |d.part.value| == |g.truth| && Span(g, d.part.value, i) == Span(g, g.truth, i)
  {
    hide Known, Run, Span, Marks, Orderly, WorkInv, Lags;
    FirstInv(g.truth, s0);
    RunKeeps(g.truth, s0, es);
    var d := Run(g.truth, s0, es).value.disk;
    if Known(g, d.meta).Some? && Known(g, d.meta).value[i] && d.part.Some? { KnownMarks(g, d.meta); }
  }

  /** A call of an orderly run that returns Ok has left the remote file at the destination. */
  lemma OkMeansComplete(truth: seq<Byte>, s0: Sys, es: seq<Event>)
    requires FirstCall(s0) && Run(truth, s0, es).Some? && Orderly(truth, s0, es)
    requires Run(truth, s0, es).value.result == Some(true)
    ensures Run(truth, s0, es).value.disk.dest == Some(truth)
  {
    hide Known, Run;
    FirstInv(truth, s0);
    RunKeeps(truth, s0, es);
  }

  // ---------------------------------------------------------------- the bookkeeping, on every run

  predicate Accounted(truth: seq<Byte>, s: Sys) {
    var g := Geo(truth, s.chunk);
    s.proc.Some? ==>
      && GeoOk(g)
      && match s.proc.value
         case Began(prior) => prior.Some? ==> |prior.value| == Count(g)
         case Opening(prior) => prior.Some? ==> |prior.value| == Count(g)
         case Sizing(prior) => prior.Some? ==> |prior.value| == Count(g)
         case Working(w) => Tally(g, w)
         case Joined(w) => Tally(g, w) && Ended(w)
         case _ => true
  }

  lemma InitialTally(g: Geo, prior: Option<seq<bool>>, conns: nat)
    requires GeoOk(g) && (prior.Some? ==> |prior.value| == Count(g))
    ensures Tally(g, Initial(g, prior, conns))
  {
    hide SetBytes;
    NothingPending(g, Initial(g, prior, conns).workers);
  }

  lemma WorkingAccounts(g: Geo, s: Sys, w: Work, e: Event)
    requires Tally(g, w) && WorkingStep(g, s, w, e).Some? && !e.Join?
    ensures var t := WorkingStep(g, s, w, e).value;
            t.chunk == s.chunk && t.proc.Some? && t.proc.value.Working? && Tally(g, t.proc.value.w)
  {
    hide WorkStep, Tally, SaveMeta;
    if e.SnapWrite? { SnapCleared(g, w); } else { TallyKeeps(g, s.disk.part.value, w, e); }
  }

  lemma StepAccounts(truth: seq<Byte>, s: Sys, e: Event)
    requires Accounted(truth, s) && Step(truth, s, e).Some?
    ensures Accounted(truth, Step(truth, s, e).value)
  {
    hide Tally, Initial, SaveMeta, Known, WorkStep;
    if s.proc.Some? && !e.Crash? {
      var g := Geo(truth, s.chunk);
      match s.proc.value
      case Sizing(prior) => InitialTally(g, prior, if e.SetLen? then e.conns else 0);
      case Working(w) =>
        if !e.Join? {
          hide WorkingStep;
          WorkingAccounts(g, s, w, e);
        }
      case _ =>
    }
  }

  lemma SnapCleared(g: Geo, w: Work)
    requires Tally(g, w)
    ensures Tally(g, w.(snap := None))
  {
    hide AllPlaced, Separate, SetBytes, Pending;
    Restamped(g, w, w.done, None);
  }

  lemma {:induction false} RunAccounts(truth: seq<Byte>, s: Sys, es: seq<Event>)
    requires Accounted(truth, s) && Run(truth, s, es).Some?
    ensures Accounted(truth, Run(truth, s, es).value)
    decreases |es|
  {
    hide Accounted, Step;
    if es != [] {
      StepAccounts(truth, s, es[0]);
      RunAccounts(truth, Step(truth, s, es[0]).value, es[1..]);
    }
  }

  predicate Missing(w: Work, i: nat) { i < |w.bits| && !w.bits[i] }

  /** While a call works, whatever the responses bring: no chunk is claimed twice, no two workers hold
      the same chunk, a chunk already complete is not fetched, and the byte total is that of the chunks
      set, short only of those a worker is about to add. */
  lemma WorkIsExact(truth: seq<Byte>, s0: Sys, es: seq<Event>, w: Work)
    requires FirstCall(s0) && Run(truth, s0, es).Some? && Run(truth, s0, es).value.proc == Some(Working(w))
    ensures forall j, k :: 0 <= j < k < |w.claims| ==> w.claims[j] != w.claims[k]
    ensures Separate(w)
    ensures forall k :: 0 <= k < |w.workers| && w.workers[k].Fetching? ==> Missing(w, w.workers[k].i)
    ensures var g := Geo(truth, Run(truth, s0, es).value.chunk);
            w.done + Pending(g, w.workers) == SetBytes(g, w.bits, |w.bits|)
  {
    hide Run, Pending, SetBytes;
    RunAccounts(truth, s0, es);
    var g := Geo(truth, Run(truth, s0, es).value.chunk);
    forall k | 0 <= k < |w.workers| && w.workers[k].Fetching? ensures Missing(w, w.workers[k].i) {
      assert Placed(g, w, w.workers[k]);
    }
  }

  lemma {:induction false} EndedPending(g: Geo, ws: seq<Worker>)
    requires forall k :: 0 <= k < |ws| ==> Over(ws[k])
    ensures Pending(g, ws) == 0
  {
    if ws != [] { EndedPending(g, ws[1..]); }
  }

  /** When the workers have been joined the total is exactly the bytes of the chunks set. */
  lemma FinalTotal(truth: seq<Byte>, s0: Sys, es: seq<Event>, w: Work)
    requires FirstCall(s0) && Run(truth, s0, es).Some? && Run(truth, s0, es).value.proc == Some(Joined(w))
    ensures w.done == SetBytes(Geo(truth, Run(truth, s0, es).value.chunk), w.bits, |w.bits|)
  {
    hide Run, Pending, SetBytes;
    RunAccounts(truth, s0, es);
    EndedPending(Geo(truth, Run(truth, s0, es).value.chunk), w.workers);
  }

  // ---------------------------------------------------------------- how a call begins and ends

  /** A call with a sidecar that describes its download resumes: no byte of the partial file is dropped
      and work starts with exactly the bits of the sidecar. */
  lemma ResumesFromSidecar(g: Geo, s: Sys, conns: nat, bits: seq<bool>, p: seq<Byte>) returns (t: Sys)
    requires GeoOk(g) && s.proc.None? && !Complete(g.truth, s.disk)
    requires Known(g, s.disk.meta) == Some(bits) && s.disk.part == Some(p)
    ensures Run(g.truth, s, [Begin(g.chunk), Open, SetLen(conns)]) == Some(t)
    ensures t.disk == s.disk.(part := Some(Resize(p, |g.truth|)))
    ensures t.proc == Some(Working(Work(bits, SetBytes(g, bits, |bits|), 0, seq(conns, _ => Loop), None, [])))
    ensures Known(g, t.disk.meta) == Some(bits)
  {
    hide Known, SetBytes, Resize, GeoOk;
    var a := Step(g.truth, s, Begin(g.chunk)).value;
    var b := Step(g.truth, a, Open).value;
    t := Step(g.truth, b, SetLen(conns)).value;
    RunThree(g.truth, s, Begin(g.chunk), Open, SetLen(conns));
  }

  lemma RunThree(truth: seq<Byte>, s: Sys, x: Event, y: Event, z: Event)
    ensures Run(truth, s, [x, y, z])
            == match Step(truth, s, x)
               case None => None
               case Some(a) => match Step(truth, a, y) case None => None case Some(b) => Step(truth, b, z)
  {
    hide Step;
    assert [x, y, z][1..] == [y, z] && [y, z][1..] == [z] && [z][1..] == [];
    var a := Step(truth, s, x);
    if a.Some? {
      var b := Step(truth, a.value, y);
      if b.Some? { assert Run(truth, b.value, [z]) == Step(truth, b.value, z); }
      assert Run(truth, a.value, [y, z]) == if b.None? then None else Run(truth, b.value, [z]);
    }
  }

  /** A partial file without such a sidecar is not opened before it has been discarded. */
  lemma StartsOver(g: Geo, s: Sys, e: Event)
    requires GeoOk(g) && s.proc.None? && !Complete(g.truth, s.disk)
    requires Known(g, s.disk.meta).None? && s.disk.part.Some?
    ensures var t := Step(g.truth, s, Begin(g.chunk));
            t.Some? && (Step(g.truth, t.value, e).Some? <==> e.Discard? || e.Crash?)
  {
    hide Known, GeoOk;
  }

  /** A call begins exactly when the destination is missing or has the wrong size. */
  lemma BeginsWhenNeeded(g: Geo, s: Sys)
    requires GeoOk(g) && s.proc.None?
    ensures Step(g.truth, s, Begin(g.chunk)).None?
            <==> s.disk.dest.Some? && |s.disk.dest.value| == |g.truth|
  {
    hide Known, GeoOk;
  }

  /** A call whose workers are done goes on to the rename exactly when no worker failed and no chunk is
      missing; otherwise it returns an error and leaves the partial file. */
  lemma Decides(g: Geo, s: Sys, w: Work)
    requires GeoOk(g) && s.chunk == g.chunk && s.proc == Some(Deciding(w))
    ensures var fine := (forall k :: 0 <= k < |w.workers| ==> w.workers[k] != Failed)
                        && forall i :: 0 <= i < |w.bits| ==> w.bits[i];
            Step(g.truth, s, Decide)
            == Some(if fine then s.(proc := Some(Renaming)) else s.(proc := None, result := Some(false)))
  {
    hide GeoOk;
  }

  // ---------------------------------------------------------------- giving up

  /** After `n` failed responses in a row to worker `k`. */
  function Failures(g: Geo, p: seq<Byte>, w: Work, k: nat, n: nat): Option<Work>
    requires GeoOk(g) && |p| >= |g.truth| && |w.bits| == Count(g)
  {
    if n == 0 then Some(w)
    else
      var before := Failures(g, p, w, k, n - 1);
      if before.None? || |before.value.bits| != Count(g) then None
      else
        var r := WorkStep(g, p, before.value, Respond(k, false));
        if r.None? then None else Some(r.value.1)
  }

  /** A chunk is asked for six times: five failed responses are each followed by a fresh attempt, and the
      sixth ends the worker. */
  lemma {:induction false} SixAttempts(g: Geo, p: seq<Byte>, w: Work, k: nat, i: nat, n: nat)
    requires GeoOk(g) && |p| >= |g.truth| && |w.bits| == Count(g) && i < Count(g) && n <= 6
    requires k < |w.workers| && w.workers[k] == Fetching(i, 1, 0, [])
    ensures Failures(g, p, w, k, n) == Some(Put(w, k, if n < 6 then Fetching(i, n + 1, 0, []) else Failed))
  {
    hide Span, WriteAt, Len, Count;
    if n > 0 {
      SixAttempts(g, p, w, k, i, n - 1);
      assert w.workers[k := Fetching(i, n, 0, [])][k := Failed] == w.workers[k := Failed];
      assert w.workers[k := Fetching(i, n, 0, [])][k := Fetching(i, n + 1, 0, [])]
          == w.workers[k := Fetching(i, n + 1, 0, [])];
    } else {
      assert w.workers[k := Fetching(i, 1, 0, [])] == w.workers;
    }
  }

  // ---------------------------------------------------------------- building runs

  lemma {:induction false} RunSnoc(truth: seq<Byte>, s: Sys, es: seq<Event>, t: Sys, e: Event)
    requires Run(truth, s, es) == Some(t) && Step(truth, t, e).Some?
    ensures Run(truth, s, es + [e]) == Step(truth, t, e)
    ensures Orderly(truth, s, es) && Careful(truth, t, e) && Measured(truth, t, e) ==> Orderly(truth, s, es + [e])
    decreases |es|
  {
    hide Step, Careful, Measured;
    if es == [] {
      assert es + [e] == [e] && [e][1..] == [];
    } else {
      assert (es + [e])[1..] == es[1..] + [e];
      RunSnoc(truth, Step(truth, s, es[0]).value, es[1..], t, e);
    }
  }

  /** One step more. */
  lemma Go(truth: seq<Byte>, s0: Sys, es: seq<Event>, s: Sys, e: Event) returns (es': seq<Event>, s': Sys)
    requires Run(truth, s0, es) == Some(s) && Step(truth, s, e).Some?
    ensures Step(truth, s, e) == Some(s') && es' == es + [e] && Run(truth, s0, es') == Some(s')
    ensures Orderly(truth, s0, es) && Careful(truth, s, e) && Measured(truth, s, e) ==> Orderly(truth, s0, es')
  {
    hide *;
    RunSnoc(truth, s0, es, s, e);
    es', s' := es + [e], Step(truth, s, e).value;
  }

  /** `b` at work on the partial file `p`. */
  function WorkState(b: Sys, p: seq<Byte>, w: Work): Sys {
    b.(disk := b.disk.(part := Some(p)), proc := Some(Working(w)))
  }

  predicate WorkerEvent(e: Event) {
    e.Claim? || e.Deliver? || e.WriteError? || e.Respond? || e.CountIn? || e.SnapBit?
  }

  /** One step more of a worker or of the reporter's reading. */
  lemma GoWork(g: Geo, s0: Sys, es: seq<Event>, b: Sys, p: seq<Byte>, w: Work, e: Event, q: seq<Byte>, w': Work)
      returns (es': seq<Event>)
    requires GeoOk(g) && b.chunk == g.chunk && |p| >= |g.truth| && |w.bits| == Count(g) && WorkerEvent(e)
    requires Run(g.truth, s0, es) == Some(WorkState(b, p, w)) && WorkStep(g, p, w, e) == Some((q, w'))
    ensures es' == es + [e] && Run(g.truth, s0, es') == Some(WorkState(b, q, w'))
    ensures Orderly(g.truth, s0, es) && InRange(g, w, e) ==> Orderly(g.truth, s0, es')
  {
    hide WorkStep, GeoOk, Run, Orderly;
    var t: Sys;
    es', t := Go(g.truth, s0, es, WorkState(b, p, w), e);
  }

  /** Nothing downloaded yet. */
  function Fresh(chunk: nat): Sys { Sys(Disk(None, None, None), chunk, None, None) }

  lemma Nothing(truth: seq<Byte>, s: Sys)
    ensures Run(truth, s, []) == Some(s) && Orderly(truth, s, [])
  {
  }

  lemma Unwritten(n: nat)
    ensures Resize([], n) == Zeros(n)
  {
  }

  // ---------------------------------------------------------------- a sidecar left behind

  /** The partial file is gone and its sidecar is not: a later call resumes over zeros. */
  lemma Orphaned(truth: seq<Byte>, s: Sys, e: Event) returns (es: seq<Event>, t: Sys)
    requires Inv(truth, s) && s.proc == Some(Discarded) && s.disk.part.None? && Marks(truth, s.disk.meta).Some?
    requires e == Crash || e == DropMeta(false)
    ensures es != [] && es[0] == e && Run(truth, s, es) == Some(t)
    ensures t.disk.meta == s.disk.meta && t.disk.part == Some(Zeros(|truth|))
  {
    hide Run, Marks, Known, Initial, Zeros, Orderly;
    var u := s;
    es := [];
    Nothing(truth, s);
    MarksKnown(truth, s.disk.meta);
    es, u := Go(truth, s, es, u, e);
    if e.Crash? { es, u := Go(truth, s, es, u, Begin(Marks(truth, s.disk.meta).value.g.chunk)); }
    es, u := Go(truth, s, es, u, Open);
    Unwritten(|truth|);
    es, t := Go(truth, s, es, u, SetLen(1));
  }

  /** Where the first `n` chunks are being fetched and the other workers wait. */
  predicate Taken(g: Geo, w: Work, n: nat)
    requires g.chunk > 0
  {
    w.bits == AllClear(Count(g)) && w.next == n && forall k :: n <= k < |w.workers| ==> w.workers[k] == Loop
  }

  /** Workers take the chunks in order. */
  lemma {:induction false} TakeUpTo(g: Geo, s0: Sys, es: seq<Event>, b: Sys, p: seq<Byte>, w0: Work, n: nat)
      returns (es': seq<Event>, w: Work)
    requires GeoOk(g) && b.chunk == g.chunk && |p| >= |g.truth| && Run(g.truth, s0, es) == Some(WorkState(b, p, w0))
    requires Taken(g, w0, 0) && n <= Count(g) && n <= |w0.workers|
    ensures es <= es' && Run(g.truth, s0, es') == Some(WorkState(b, p, w))
    ensures Taken(g, w, n) && |w.workers| == |w0.workers| && w.snap == w0.snap
    ensures n > 0 ==> w.workers[n - 1] == Fetching(n - 1, 1, 0, [])
    ensures Orderly(g.truth, s0, es) ==> Orderly(g.truth, s0, es')
  {
    hide Run, Orderly, WorkState, GeoOk, Count;
    es', w := es, w0;
    if n > 0 {
      es', w := TakeUpTo(g, s0, es, b, p, w0, n - 1);
      es', w := TakeOne(g, s0, es', b, p, w, n - 1);
    }
  }

  /** Worker `k` takes the next chunk, which is not complete. */
  lemma TakeOne(g: Geo, s0: Sys, es: seq<Event>, b: Sys, p: seq<Byte>, w: Work, k: nat)
      returns (es': seq<Event>, w': Work)
    requires GeoOk(g) && b.chunk == g.chunk && |p| >= |g.truth| && Run(g.truth, s0, es) == Some(WorkState(b, p, w))
    requires |w.bits| == Count(g) && w.next < Count(g) && !w.bits[w.next] && k < |w.workers| && w.workers[k] == Loop
    ensures w' == Put(w.(next := w.next + 1, claims := w'.claims), k, Fetching(w.next, 1, 0, []))
    ensures es' == es + [Claim(k)] && Run(g.truth, s0, es') == Some(WorkState(b, p, w'))
    ensures Orderly(g.truth, s0, es) ==> Orderly(g.truth, s0, es')
  {
    hide Run, Orderly, WorkState, GeoOk, Count;
    w' := Put(w.(next := w.next + 1, claims := w.claims + [w.next]), k, Fetching(w.next, 1, 0, []));
    assert WorkStep(g, p, w, Claim(k)) == Some((p, w'));
    es' := GoWork(g, s0, es, b, p, w, Claim(k), p, w');
  }

  lemma Starts(g: Geo, s0: Sys, conns: nat) returns (es: seq<Event>)
    requires GeoOk(g) && s0 == Fresh(s0.chunk)
    ensures Orderly(g.truth, s0, es)
    ensures Taken(g, Initial(g, None, conns), 0) && |Initial(g, None, conns).workers| == conns
    ensures Initial(g, None, conns).snap.None?
    ensures Run(g.truth, s0, es) == Some(WorkState(Fresh(g.chunk), Zeros(|g.truth|), Initial(g, None, conns)))
  {
    hide GeoOk, SetBytes, Count, Orderly, Run, Zeros;
    var s, truth := s0, g.truth;
    es := [];
    Nothing(truth, s0);
    es, s := Go(truth, s0, es, s, Begin(g.chunk));
    es, s := Go(truth, s0, es, s, Open);
    Unwritten(|truth|);
    es, s := Go(truth, s0, es, s, SetLen(conns));
  }

  function Other(b: Byte): Byte { (b + 1) % 256 }

  lemma LastByte(p: seq<Byte>, at: nat, data: seq<Byte>)
    requires data != [] && at <= |p|
    ensures |WriteAt(p, at, data)| > at + |data| - 1 && WriteAt(p, at, data)[at + |data| - 1] == data[|data| - 1]
  {
  }

  lemma Differs(g: Geo, p: seq<Byte>, i: nat, k: nat)
    requires GeoOk(g) && |p| >= |g.truth| && i < Count(g) && Base(g, i) <= k < Base(g, i) + Len(g, i)
    requires k < |g.truth| && p[k] != g.truth[k]
    ensures Span(g, p, i) != Span(g, g.truth, i)
  {
    hide Span, Base, Len, GeoOk, Count;
    SpanAt(g, p, i, k);
    SpanAt(g, g.truth, i, k);
  }

  /** Neither removal worked: a later response with an error body of no more than its range, written
      over byte `k`, damages a chunk the sidecar still vouches for. */
  lemma Outlived(truth: seq<Byte>, s: Sys, k: nat) returns (es: seq<Event>, t: Sys)
    requires Inv(truth, s) && s.proc == Some(Discarded) && s.disk.part.Some? && Marks(truth, s.disk.meta).Some?
    requires k < |truth|
    ensures es != [] && es[0] == DropMeta(false) && Run(truth, s, es) == Some(t)
    ensures t.disk.meta == s.disk.meta && t.disk.part.Some?
    ensures |t.disk.part.value| >= |truth| && t.disk.part.value[k] != truth[k]
  {
    hide Run, Marks, Known, Orderly, Count, Base, WriteAt, Covers, Sidecar.Fits;
    var g, u := Geo(truth, s.chunk), s;
    var p := s.disk.part.value;
    var j := ChunkOf(g, k);
    es := [];
    Nothing(truth, s);
    es, u := Go(truth, s, es, u, DropMeta(false));
    es, u := Go(truth, s, es, u, Open);
    es, u := Go(truth, s, es, u, SetLen(j + 1));
    assert Resize(p, |truth|) == p;
    var w: Work;
    es, w := TakeUpTo(g, s, es, u, p, Initial(g, None, j + 1), j + 1);
    var data := Zeros(k - Base(g, j)) + [Other(truth[k])];
    var q := WriteAt(p, Base(g, j) + 0, data[..|data|]);
    assert data[..|data|] == data;
    LastByte(p, Base(g, j), data);
    var w' := Put(w, j, Fetching(j, 1, |data|, [] + data));
    assert WorkStep(g, p, w, Deliver(j, data, |data|)) == Some((q, w'));
    es := GoWork(g, s, es, u, p, w, Deliver(j, data, |data|), q, w');
    t := WorkState(u, q, w');
  }

  /** Whenever a reachable state is left by a step that is not careful, a run exists after it in which
      the sidecar vouches for a chunk whose bytes are not in the partial file: any chunk `i` it vouches
      for, if the partial file is still there, and any that is not all zeros, if it is gone. */
  lemma CarelessMisleads(truth: seq<Byte>, s: Sys, e: Event, i: nat, k: nat) returns (es: seq<Event>, t: Sys)
    requires Inv(truth, s) && Step(truth, s, e).Some? && !Careful(truth, s, e)
    requires var m := Marks(truth, s.disk.meta).value;
             i < Count(m.g) && m.bits[i] && Base(m.g, i) <= k < Base(m.g, i) + Len(m.g, i)
    requires k < |truth| && (s.disk.part.None? ==> truth[k] != 0)
    ensures es != [] && es[0] == e && Run(truth, s, es) == Some(t)
    ensures var g := Marks(truth, s.disk.meta).value.g;
            && Known(g, t.disk.meta).Some? && Known(g, t.disk.meta).value[i]
            && t.disk.part.Some? && |t.disk.part.value| >= |truth|
            && Span(g, t.disk.part.value, i) != Span(g, truth, i)
  {
    hide Run, Marks, Known, Base, Len, Count, Span, Inv;
    MarksKnown(truth, s.disk.meta);
    if s.disk.part.None? {
      es, t := Orphaned(truth, s, e);
    } else {
      es, t := Outlived(truth, s, k);
    }
    Differs(Marks(truth, s.disk.meta).value.g, t.disk.part.value, i, k);
  }

  /** A response that brings the whole range. */
  lemma Fetches(g: Geo, s0: Sys, es: seq<Event>, b: Sys, p: seq<Byte>, w: Work, k: nat)
      returns (es': seq<Event>, q: seq<Byte>, w': Work)
    requires GeoOk(g) && b.chunk == g.chunk && |p| >= |g.truth| && |w.bits| == Count(g)
    requires Run(g.truth, s0, es) == Some(WorkState(b, p, w))
    requires k < |w.workers| && w.workers[k].Fetching? && w.workers[k].i < Count(g)
    requires w.workers[k].got == 0 && w.workers[k].body == []
    ensures var i := w.workers[k].i;
            && q == WriteAt(p, Base(g, i), Span(g, g.truth, i))
            && w' == Put(w.(bits := w.bits[i := true]), k, Counting(i))
    ensures Run(g.truth, s0, es') == Some(WorkState(b, q, w'))
    ensures Orderly(g.truth, s0, es) ==> Orderly(g.truth, s0, es')
  {
    hide Run, Orderly, WorkState, GeoOk, Count, WriteAt, Base, Len, Span;
    var f := w.workers[k];
    var data := Span(g, g.truth, f.i);
    q := WriteAt(p, Base(g, f.i), data);
    var w1 := Put(w, k, f.(got := |data|, body := data));
    assert data[..|data|] == data && [] + data == data;
    assert WorkStep(g, p, w, Deliver(k, data, |data|)) == Some((q, w1));
    es' := GoWork(g, s0, es, b, p, w, Deliver(k, data, |data|), q, w1);
    w' := Put(w.(bits := w.bits[f.i := true]), k, Counting(f.i));
    assert w1.(bits := w'.bits).workers[k := Counting(f.i)] == w'.workers;
    assert WorkStep(g, q, w1, Respond(k, true)) == Some((q, w'));
    es' := GoWork(g, s0, es', b, q, w1, Respond(k, true), q, w');
  }

  /** The reporter reads the first `n` bits. */
  lemma {:induction false} Snaps(g: Geo, s0: Sys, es: seq<Event>, b: Sys, p: seq<Byte>, w: Work, n: nat)
      returns (es': seq<Event>)
    requires GeoOk(g) && b.chunk == g.chunk && |p| >= |g.truth| && |w.bits| == Count(g) && n <= |w.bits|
    requires Run(g.truth, s0, es) == Some(WorkState(b, p, w)) && w.snap.None?
    ensures Run(g.truth, s0, es')
            == Some(WorkState(b, p, w.(snap := if n == 0 then None else Some(w.bits[..n]))))
    ensures Orderly(g.truth, s0, es) ==> Orderly(g.truth, s0, es')
  {
    hide Run, Orderly, WorkState, GeoOk, Count;
    if n == 0 {
      es' := es;
      assert w.(snap := None) == w;
    } else {
      es' := Snaps(g, s0, es, b, p, w, n - 1);
      var w1 := w.(snap := if n == 1 then None else Some(w.bits[..n - 1]));
      var w2 := w.(snap := Some(w.bits[..n]));
      assert w.bits[..n] == (if n == 1 then [] else w.bits[..n - 1]) + [w.bits[n - 1]];
      assert WorkStep(g, p, w1, SnapBit) == Some((p, w2));
      es' := GoWork(g, s0, es', b, p, w1, SnapBit, p, w2);
    }
  }

  /** The reporter saves all bits. */
  lemma Vouches(g: Geo, s0: Sys, es: seq<Event>, b: Sys, p: seq<Byte>, w: Work)
      returns (es': seq<Event>, b': Sys)
    requires GeoOk(g) && b.chunk == g.chunk && |p| >= |g.truth| && |w.bits| == Count(g) && w.bits != []
    requires Run(g.truth, s0, es) == Some(WorkState(b, p, w)) && w.snap.None?
    ensures b' == b.(disk := b.disk.(meta := b'.disk.meta)) && Known(g, b'.disk.meta) == Some(w.bits)
    ensures Run(g.truth, s0, es') == Some(WorkState(b', p, w))
    ensures Orderly(g.truth, s0, es) ==> Orderly(g.truth, s0, es')
  {
    hide Run, Orderly, GeoOk, Count, Known, Sidecar.Encoded;
    es' := Snaps(g, s0, es, b, p, w, |w.bits|);
    assert w.bits[..|w.bits|] == w.bits;
    var w1 := w.(snap := Some(w.bits));
    var t: Sys;
    es', t := Go(g.truth, s0, es', WorkState(b, p, w1), SnapWrite(true));
    Saved(g, b.disk, w.bits, true);
    b' := b.(disk := b.disk.(meta := t.disk.meta));
    assert w1.(snap := None) == w;
  }

  /** The chunk size changes between two calls, and the second one crashes between the two removals, or
      fails in the second: from a first call, a run ends with a sidecar that vouches for a chunk the
      partial file does not hold. For every file whose first chunk is not all zeros and any two sizes. */
  lemma ChunkChangeMisleads(g: Geo, other: Geo, s0: Sys, k: nat, e: Event)
      returns (past: seq<Event>, s: Sys, es: seq<Event>, t: Sys)
    requires GeoOk(g) && GeoOk(other) && other.truth == g.truth && other.chunk != g.chunk
    requires s0 == Fresh(s0.chunk) && k < Len(g, 0) && k < |g.truth| && g.truth[k] != 0
    requires e == Crash || e == DropMeta(false)
    ensures FirstCall(s0) && Orderly(g.truth, s0, past) && Run(g.truth, s0, past) == Some(s)
    ensures es != [] && es[0] == e && Run(g.truth, s, es) == Some(t)
    ensures 0 < Count(g) && Known(g, t.disk.meta).Some? && Known(g, t.disk.meta).value[0]
    ensures t.disk.part.Some? && |t.disk.part.value| >= |g.truth|
    ensures Span(g, t.disk.part.value, 0) != Span(g, g.truth, 0)
  {
    hide Run, Orderly, Known, Marks, Initial, Zeros, WriteAt, Span, Base, Len, Inv;
    Chunked(g);
    var zeros := Zeros(|g.truth|);
    past := Starts(g, s0, 1);
    var w: Work, p: seq<Byte>, b: Sys;
    past, w := TakeUpTo(g, s0, past, Fresh(g.chunk), zeros, Initial(g, None, 1), 1);
    past, p, w := Fetches(g, s0, past, Fresh(g.chunk), zeros, w, 0);
    past, b := Vouches(g, s0, past, Fresh(g.chunk), p, w);
    KnownMarks(g, b.disk.meta);
    if Known(other, b.disk.meta).Some? { KnownMarks(other, b.disk.meta); }
    assert w.bits[0];
    s := WorkState(b, p, w);
    past, s := Go(g.truth, s0, past, s, Crash);
    past, s := Go(g.truth, s0, past, s, Begin(other.chunk));
    past, s := Go(g.truth, s0, past, s, Discard(true));
    FirstInv(g.truth, s0);
    RunKeeps(g.truth, s0, past);
    es, t := CarelessMisleads(g.truth, s, e, 0, k);
  }

  lemma Chunked(g: Geo)
    requires GeoOk(g)
    ensures 0 < Count(g) && Base(g, 0) == 0
  {
    AtLeast(|g.truth| + g.chunk - 1, g.chunk, 1);
  }

  // ---------------------------------------------------------------- a response longer than its range

  lemma WrittenByte(p: seq<Byte>, at: nat, data: seq<Byte>, x: nat)
    requires at <= |p| && at <= x < at + |data|
    ensures |WriteAt(p, at, data)| > x && WriteAt(p, at, data)[x] == data[x - at]
  {
  }

  /** A response, of whatever status, that runs on with a wrong byte into a chunk the sidecar vouches
      for breaks the promise at once. */
  lemma OverrunBreaks(g: Geo, b: Sys, p: seq<Byte>, w: Work, k: nat, data: seq<Byte>, j: nat, x: nat)
    requires GeoOk(g) && b.chunk == g.chunk && |p| >= |g.truth| && |w.bits| == Count(g)
    requires k < |w.workers| && w.workers[k].Fetching?
    requires j < Count(g) && Known(g, b.disk.meta).Some? && Known(g, b.disk.meta).value[j]
    requires Base(g, j) <= x < Base(g, j) + Len(g, j) && x < |g.truth|
    requires var at := Base(g, w.workers[k].i) + w.workers[k].got;
             at <= x < at + |data| && data[x - at] != g.truth[x]
    ensures var t := Step(g.truth, WorkState(b, p, w), Deliver(k, data, |data|));
            && t.Some? && t.value.disk.meta == b.disk.meta
            && t.value.disk.part.Some? && |t.value.disk.part.value| >= |g.truth|
            && Span(g, t.value.disk.part.value, j) != Span(g, g.truth, j)
  {
    hide WriteAt, Base, Len, Count, Known, Span;
    var f := w.workers[k];
    var at := Base(g, f.i) + f.got;
    assert data[..|data|] == data;
    WrittenByte(p, at, data, x);
    Differs(g, WriteAt(p, at, data), j, x);
  }

  /** So from a first call: two workers, the second chunk complete and saved, and then an error body for
      the first chunk that is longer than the chunk. */
  lemma OverrunMisleads(g: Geo, s0: Sys, junk: seq<Byte>) returns (past: seq<Event>, s: Sys, t: Sys)
    requires GeoOk(g) && s0 == Fresh(s0.chunk) && Count(g) > 1
    requires Base(g, 1) < |junk| && Base(g, 1) < |g.truth| && junk[Base(g, 1)] != g.truth[Base(g, 1)]
    ensures FirstCall(s0) && Orderly(g.truth, s0, past) && Run(g.truth, s0, past) == Some(s)
    ensures Careful(g.truth, s, Deliver(0, junk, |junk|)) && Step(g.truth, s, Deliver(0, junk, |junk|)) == Some(t)
    ensures Known(g, t.disk.meta).Some? && Known(g, t.disk.meta).value[1]
    ensures t.disk.part.Some? && |t.disk.part.value| >= |g.truth|
    ensures Span(g, t.disk.part.value, 1) != Span(g, g.truth, 1)
  {
    hide Run, Orderly, Known, Marks, Initial, WriteAt, Span, Base, Len, Step, Measured;
    Chunked(g);
    ChunkFits(g, 1);
    var zeros, b := Zeros(|g.truth|), Fresh(g.chunk);
    past := Starts(g, s0, 2);
    var w: Work, p: seq<Byte>;
    past, w := TakeUpTo(g, s0, past, b, zeros, Initial(g, None, 2), 1);
    past, w := TakeOne(g, s0, past, b, zeros, w, 1);
    past, p, w := Fetches(g, s0, past, b, zeros, w, 1);
    past, b := Vouches(g, s0, past, b, p, w);
    s := WorkState(b, p, w);
    OverrunBreaks(g, b, p, w, 0, junk, 1, Base(g, 1));
    t := Step(g.truth, s, Deliver(0, junk, |junk|)).value;
  }

  /** One worker, the first `n` chunks complete. */
  predicate FetchedUpTo(g: Geo, w: Work, n: nat)
    requires g.chunk > 0
  {
    && |w.bits| == Count(g) && (forall i :: 0 <= i < |w.bits| ==> w.bits[i] == (i < n))
    && w.next == n && w.workers == [Loop] && w.snap.None?
  }

  /** A download goes through. */
  lemma {:induction false} FetchUpTo(g: Geo, s0: Sys, n: nat) returns (es: seq<Event>, p: seq<Byte>, w: Work)
    requires GeoOk(g) && s0 == Fresh(s0.chunk) && n <= Count(g)
    ensures |p| >= |g.truth| && Run(g.truth, s0, es) == Some(WorkState(Fresh(g.chunk), p, w))
    ensures Orderly(g.truth, s0, es) && FetchedUpTo(g, w, n)
  {
    hide Run, Orderly, WorkState, GeoOk, Count, WriteAt, Base, Len, Span;
    if n == 0 {
      es := Starts(g, s0, 1);
      p, w := Zeros(|g.truth|), Initial(g, None, 1);
    } else {
      es, p, w := FetchUpTo(g, s0, n - 1);
      es, w := TakeOne(g, s0, es, Fresh(g.chunk), p, w, 0);
      es, p, w := Fetches(g, s0, es, Fresh(g.chunk), p, w, 0);
      es, w := CountsIn(g, s0, es, Fresh(g.chunk), p, w, 0);
    }
  }

  lemma CountsIn(g: Geo, s0: Sys, es: seq<Event>, b: Sys, p: seq<Byte>, w: Work, k: nat)
      returns (es': seq<Event>, w': Work)
    requires GeoOk(g) && b.chunk == g.chunk && |p| >= |g.truth| && Run(g.truth, s0, es) == Some(WorkState(b, p, w))
    requires |w.bits| == Count(g) && k < |w.workers| && w.workers[k].Counting?
    ensures w' == Put(w.(done := w'.done), k, Loop)
    ensures Run(g.truth, s0, es') == Some(WorkState(b, p, w'))
    ensures Orderly(g.truth, s0, es) ==> Orderly(g.truth, s0, es')
  {
    hide Run, Orderly, WorkState, GeoOk, Count;
    w' := Put(w.(done := w.done + Len(g, w.workers[k].i)), k, Loop);
    assert WorkStep(g, p, w, CountIn(k)) == Some((p, w'));
    es' := GoWork(g, s0, es, b, p, w, CountIn(k), p, w');
  }

  lemma BaseBelow(g: Geo, i: nat, n: nat)
    requires Base(g, i) < Base(g, n)
    ensures i < n
  {
    assert i >= n ==> i * g.chunk >= n * g.chunk;
  }

  lemma FetchedPrefix(g: Geo, p: seq<Byte>, w: Work, n: nat)
    requires WorkInv(g, p, w) && FetchedUpTo(g, w, n) && n < Count(g)
    ensures Base(g, n) <= |p| && p[..Base(g, n)] == g.truth[..Base(g, n)]
  {
    hide Len, Span, Tally, AllHold;
    ChunkFits(g, n);
    forall x | 0 <= x < Base(g, n) ensures p[x] == g.truth[x] {
      var i := ChunkOf(g, x);
      BaseBelow(g, i, n);
      SpanAt(g, p, i, x);
      SpanAt(g, g.truth, i, x);
    }
  }

  /** A file grown by an overlong write keeps its tail when the chunk is written again. */
  lemma Grown(p: seq<Byte>, truth: seq<Byte>, at: nat, junk: seq<Byte>)
    requires |p| == |truth| && at < |truth| && p[..at] == truth[..at] && |junk| >= |truth| - at
    ensures WriteAt(WriteAt(p, at, junk), at, truth[at..]) == truth + junk[|truth| - at..]
  {
    var q := WriteAt(p, at, junk);
    assert q == p[..at] + junk;
    assert q[at + |truth[at..]|..] == junk[|truth| - at..];
    assert truth[..at] + truth[at..] == truth;
  }

  /** A response with an error status: its body is written and the chunk is tried again. */
  lemma FailsOnce(g: Geo, s0: Sys, es: seq<Event>, b: Sys, p: seq<Byte>, w: Work, junk: seq<Byte>)
      returns (es': seq<Event>, w': Work)
    requires GeoOk(g) && b.chunk == g.chunk && |p| >= |g.truth| && Run(g.truth, s0, es) == Some(WorkState(b, p, w))
    requires |w.bits| == Count(g) && w.workers != [] && w.workers[0].Fetching? && w.workers[0].i < Count(g)
    requires w.workers[0] == Fetching(w.workers[0].i, 1, 0, [])
    ensures w' == Put(w, 0, Fetching(w.workers[0].i, 2, 0, []))
    ensures Run(g.truth, s0, es') == Some(WorkState(b, WriteAt(p, Base(g, w.workers[0].i), junk), w'))
  {
    hide Run, Orderly, WorkState, GeoOk, Count, WriteAt, Base, Len, Span;
    var i := w.workers[0].i;
    var q := WriteAt(p, Base(g, i), junk);
    var w1 := Put(w, 0, Fetching(i, 1, |junk|, junk));
    assert junk[..|junk|] == junk && [] + junk == junk;
    assert WorkStep(g, p, w, Deliver(0, junk, |junk|)) == Some((q, w1));
    es' := GoWork(g, s0, es, b, p, w, Deliver(0, junk, |junk|), q, w1);
    w' := Put(w, 0, Fetching(i, 2, 0, []));
    assert w1.workers[0 := w'.workers[0]] == w'.workers;
    assert WorkStep(g, q, w1, Respond(0, false)) == Some((q, w'));
    es' := GoWork(g, s0, es', b, q, w1, Respond(0, false), q, w');
  }

  lemma Stops(g: Geo, s0: Sys, es: seq<Event>, b: Sys, p: seq<Byte>, w: Work) returns (es': seq<Event>, w': Work)
    requires GeoOk(g) && b.chunk == g.chunk && |p| >= |g.truth| && Run(g.truth, s0, es) == Some(WorkState(b, p, w))
    requires FetchedUpTo(g, w, Count(g))
    ensures w' == w.(next := w.next + 1, workers := [Finished]) && Ended(w')
    ensures Run(g.truth, s0, es') == Some(WorkState(b, p, w'))
  {
    hide Run, Orderly, WorkState, GeoOk, Count;
    w' := w.(next := w.next + 1, workers := [Finished]);
    assert [Loop][0 := Finished] == [Finished];
    assert WorkStep(g, p, w, Claim(0)) == Some((p, w'));
    es' := GoWork(g, s0, es, b, p, w, Claim(0), p, w');
  }

  /** From all chunks complete to the end of the call. */
  lemma Returns(g: Geo, s0: Sys, es: seq<Event>, b: Sys, p: seq<Byte>, w: Work) returns (es': seq<Event>, t: Sys)
    requires GeoOk(g) && b.chunk == g.chunk && |p| >= |g.truth| && Run(g.truth, s0, es) == Some(WorkState(b, p, w))
    requires FetchedUpTo(g, w, Count(g))
    ensures Run(g.truth, s0, es') == Some(t) && t.result == Some(true) && t.disk.dest == Some(p)
  {
    hide Run, Orderly, GeoOk, Count, Sidecar.Encoded;
    var w': Work;
    es', w' := Stops(g, s0, es, b, p, w);
    es', t := Go(g.truth, s0, es', WorkState(b, p, w'), Join);
    es', t := Go(g.truth, s0, es', t, FinalMeta(true));
    es', t := Go(g.truth, s0, es', t, Decide);
    es', t := Go(g.truth, s0, es', t, Rename);
    es', t := Go(g.truth, s0, es', t, Clean(true));
  }

  /** The last chunk. */
  function Last(g: Geo): (n: nat)
    requires GeoOk(g)
    ensures n + 1 == Count(g)
  {
    Chunked(g);
    Count(g) - 1
  }

  lemma LastChunk(g: Geo)
    requires GeoOk(g)
    ensures Base(g, Last(g)) < |g.truth| && Len(g, Last(g)) == |g.truth| - Base(g, Last(g))
    ensures Span(g, g.truth, Last(g)) == g.truth[Base(g, Last(g))..]
  {
    var n := Last(g);
    ChunkFits(g, n);
    Divides(|g.truth| + g.chunk - 1, g.chunk);
    assert (n + 1) * g.chunk == n * g.chunk + g.chunk;
  }

  /** A response to the last chunk that is longer than it leaves the file too long: the retry succeeds, the
      call returns Ok, and what it leaves at the destination is the remote file with the excess after it. */
  lemma OverrunReturnsOk(g: Geo, s0: Sys, junk: seq<Byte>) returns (es: seq<Event>, t: Sys)
    requires GeoOk(g) && s0 == Fresh(s0.chunk) && |junk| > Len(g, Last(g))
    ensures FirstCall(s0) && Run(g.truth, s0, es) == Some(t) && t.result == Some(true)
    ensures 0 <= Len(g, Last(g)) && t.disk.dest == Some(g.truth + junk[Len(g, Last(g))..])
  {
    hide Run, Orderly, WriteAt, Base, Len, Span, Covers, AllHold, Count, GeoOk, Marks;
    var b, truth, n := Fresh(g.chunk), g.truth, Last(g);
    var p: seq<Byte>, w: Work;
    es, p, w := FetchUpTo(g, s0, n);
    FirstInv(truth, s0);
    RunKeeps(truth, s0, es);
    FetchedPrefix(g, p, w, n);
    LastChunk(g);
    Grown(p, truth, Base(g, n), junk);
    es, w := TakeOne(g, s0, es, b, p, w, 0);
    es, w := FailsOnce(g, s0, es, b, p, w, junk);
    var q := WriteAt(p, Base(g, n), junk);
    es, q, w := Fetches(g, s0, es, b, q, w, 0);
    es, w := CountsIn(g, s0, es, b, q, w, 0);
    es, t := Returns(g, s0, es, b, q, w);
  }
}
