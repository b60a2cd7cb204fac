/** The FIFO admission queue of the GPU: a ticket lock over a mutex and a condition variable, as an
    interleaving of the steps its callers take. */
module GpuQueue {
  import opened Bytes

  // ---------------------------------------------------------------- the interleaving

  /** Where a caller stands. `Held` states own the mutex; a number is the caller's ticket. */
  datatype Pc =
    | Idle
    | Check | CheckHeld                       // try_acquire, before its depth check
    | Enter | EnterHeld                       // acquire, before its ticket
    | TestHeld(t: nat)                        // the head of the waiting loop
    | Asleep(t: nat) | Woken(t: nat)          // in the condition variable; awake, wanting the mutex
    | Running(t: nat)                         // has the permit
    | Leave(t: nat) | LeaveHeld(t: nat)       // dropping the permit
    | Notify                                  // mutex released, notify_all still to come

  /** `pc[i]` is caller `i`; any number of callers. */
  datatype State = State(next: nat, serving: nat, holder: Option<nat>, pc: seq<Pc>)

  datatype Event =
    | CallTry(i: nat) | CallAcquire(i: nat) | Lock(i: nat) | Decide(i: nat) | TakeTicket(i: nat)
    | TestTurn(i: nat) | BeginDrop(i: nat) | Serve(i: nat) | NotifyAll(i: nat) | Spurious(i: nat)

  predicate HasTicket(p: Pc) {
    p.TestHeld? || p.Asleep? || p.Woken? || p.Running? || p.Leave? || p.LeaveHeld?
  }

  predicate Held(p: Pc) { p.CheckHeld? || p.EnterHeld? || p.TestHeld? || p.LeaveHeld? }

  predicate Permit(p: Pc) { p.Running? || p.Leave? || p.LeaveHeld? }

  function Locked(p: Pc): Option<Pc> {
    match p
    case Check => Some(CheckHeld)
    case Enter => Some(EnterHeld)
    case Woken(t) => Some(TestHeld(t))
    case Leave(t) => Some(LeaveHeld(t))
    case _ => None
  }

  function Awake(p: Pc): Pc { if p.Asleep? then Woken(p.t) else p }

  function WakeAll(pc: seq<Pc>): (w: seq<Pc>)
    ensures |w| == |pc|
  {
    seq(|pc|, i requires 0 <= i < |pc| => Awake(pc[i]))
  }

  /** One step of caller `e.i`; None when it cannot take it. */
  function Step(cap: nat, s: State, e: Event): Option<State> {
    if e.i >= |s.pc| then None
    else
      var i, p := e.i, s.pc[e.i];
      match e
      case CallTry(_) =>
        if p == Idle then Some(s.(pc := s.pc[i := if cap > 0 then Check else Enter])) else None
      case CallAcquire(_) =>
        if p == Idle then Some(s.(pc := s.pc[i := Enter])) else None
      case Lock(_) =>
        if s.holder == None && Locked(p).Some? then
          Some(s.(holder := Some(i), pc := s.pc[i := Locked(p).value]))
        else None
      case Decide(_) =>
        if p == CheckHeld then
          Some(s.(holder := None, pc := s.pc[i := if s.next - s.serving >= cap then Idle else Enter]))
        else None
      case TakeTicket(_) =>
        if p == EnterHeld then Some(s.(next := s.next + 1, pc := s.pc[i := TestHeld(s.next)])) else None
      case TestTurn(_) =>
        if p.TestHeld? then
          Some(s.(holder := None, pc := s.pc[i := if s.serving == p.t then Running(p.t) else Asleep(p.t)]))
        else None
      case BeginDrop(_) =>
        if p.Running? then Some(s.(pc := s.pc[i := Leave(p.t)])) else None
      case Serve(_) =>
        if p.LeaveHeld? then
          Some(s.(serving := s.serving + 1, holder := None, pc := s.pc[i := Notify]))
        else None
      case NotifyAll(_) =>
        if p == Notify then Some(s.(pc := WakeAll(s.pc)[i := Idle])) else None
      case Spurious(_) =>
        if p.Asleep? then Some(s.(pc := s.pc[i := Woken(p.t)])) else None
  }

  /** Only an idle caller calls, calling without the depth check goes straight to the ticket, and a sleeping
      caller may wake at any time. */
  lemma CallsFromIdle(cap: nat, s: State, i: nat)
    requires i < |s.pc|
    ensures Step(cap, s, CallTry(i)).Some? <==> s.pc[i] == Idle
    ensures Step(cap, s, CallAcquire(i)).Some? <==> s.pc[i] == Idle
    ensures s.pc[i] == Idle ==> Step(cap, s, CallAcquire(i)).value.pc[i] == Enter
    ensures Step(cap, s, Spurious(i)).Some? <==> s.pc[i].Asleep?
    ensures s.pc[i] == Idle ==> (Step(cap, s, CallTry(i)).value.pc[i] == Enter <==> cap == 0)
  {
  }

  /** The counters the mutex guards: each method is the body of one critical section, and takes the
      state of the interleaving to that of the corresponding step. */
  class Counters {
    var next: nat
    var serving: nat

    ghost predicate Are(s: State)
      reads this
    {
      next == s.next && serving == s.serving
    }

    constructor ()
      ensures forall s: State :: Start(s) ==> Are(s)
    {
      next, serving := 0, 0;
    }

    /** The bounded check: an error carries the depth that was found. */
    method Admit(cap: nat, ghost s: State, ghost i: nat) returns (r: Result<(), nat>)
      requires Are(s) && s.serving <= s.next && i < |s.pc| && s.pc[i] == CheckHeld
      ensures r.Err? ==> cap <= r.error == s.next - s.serving
      ensures Step(cap, s, Decide(i)).Some?
      ensures Step(cap, s, Decide(i)).value.pc[i] == if r.Err? then Idle else Enter
    {
      var depth := next - serving;
      if depth >= cap { return Err(depth); }
      return Ok(());
    }

    method TakeTicket(ghost cap: nat, ghost s: State, ghost i: nat) returns (ticket: nat, depth: nat)
      requires Are(s) && s.serving <= s.next && i < |s.pc| && s.pc[i] == EnterHeld
      modifies this
      ensures Step(cap, s, Event.TakeTicket(i)).Some? && Are(Step(cap, s, Event.TakeTicket(i)).value)
      ensures Step(cap, s, Event.TakeTicket(i)).value.pc[i] == TestHeld(ticket) && depth == s.next - s.serving
    {
      ticket := next;
      depth := ticket - serving;
      next := next + 1;
    }

    method MyTurn(ticket: nat, ghost cap: nat, ghost s: State, ghost i: nat) returns (mine: bool)
      requires Are(s) && i < |s.pc| && s.pc[i] == TestHeld(ticket)
      ensures Step(cap, s, TestTurn(i)).Some?
      ensures Step(cap, s, TestTurn(i)).value.pc[i] == if mine then Running(ticket) else Asleep(ticket)
    {
      mine := serving == ticket;
    }

    method ServeNext(ghost cap: nat, ghost s: State, ghost i: nat)
      requires Are(s) && i < |s.pc| && s.pc[i].LeaveHeld?
      modifies this
      ensures Step(cap, s, Serve(i)).Some? && Are(Step(cap, s, Serve(i)).value)
    {
      serving := serving + 1;
    }
  }

  function Run(cap: nat, s: State, es: seq<Event>): Option<State>
    decreases |es|
  {
    if es == [] then Some(s)
    else
      var r := Step(cap, s, es[0]);
      if r.None? then None else Run(cap, r.value, es[1..])
  }

  predicate Start(s: State) {
    s.next == 0 && s.serving == 0 && s.holder == None && forall i :: 0 <= i < |s.pc| ==> s.pc[i] == Idle
  }

  // ---------------------------------------------------------------- the invariant

  predicate Owns(s: State, i: nat, t: nat) { i < |s.pc| && HasTicket(s.pc[i]) && s.pc[i].t == t }

  ghost predicate Owned(s: State, t: nat) { exists i: nat :: Owns(s, i, t) }

  /** The outstanding tickets are exactly those from `serving` up to `next`, each with one owner. */
  ghost predicate Tickets(s: State) {
    && s.serving <= s.next
    && (forall i: nat, t: nat :: Owns(s, i, t) ==> s.serving <= t < s.next)
    && (forall i: nat, j: nat, t: nat :: Owns(s, i, t) && Owns(s, j, t) ==> i == j)
    && (forall t: nat :: s.serving <= t < s.next ==> Owned(s, t))
  }

  /** The mutex has at most one holder, and only its holder is inside a critical section. */
  ghost predicate Mutual(s: State) {
    && (s.holder.Some? ==> s.holder.value < |s.pc|)
    && forall i: nat :: i < |s.pc| ==> (Held(s.pc[i]) <==> s.holder == Some(i))
  }

  /** Only ticket `serving` holds the permit. */
  ghost predicate Served(s: State) { forall i: nat :: i < |s.pc| && Permit(s.pc[i]) ==> s.pc[i].t == s.serving }

  ghost predicate Notifying(s: State) { exists i: nat :: i < |s.pc| && s.pc[i] == Notify }

  /** No lost wakeup: whoever sleeps although it is its turn has a notification coming. */
  ghost predicate Wakeful(s: State) {
    (exists i: nat :: i < |s.pc| && s.pc[i] == Asleep(s.serving)) ==> Notifying(s)
  }

  ghost predicate Inv(s: State) { Tickets(s) && Mutual(s) && Served(s) && Wakeful(s) }

  /** How a step changes who owns which ticket. */
  lemma OwnersAfter(cap: nat, s: State, e: Event, j: nat, t: nat)
    requires Step(cap, s, e).Some?
    ensures var s' := Step(cap, s, e).value;
            Owns(s', j, t) <==> if e.TakeTicket? && j == e.i then t == s.next
                                else if e.Serve? && j == e.i then false
                                else Owns(s, j, t)
  {
  }

  lemma TicketsKept(cap: nat, s: State, e: Event)
    requires Tickets(s) && Served(s) && Step(cap, s, e).Some?
    ensures Tickets(Step(cap, s, e).value)
  {
    hide Owns;
    var s' := Step(cap, s, e).value;
    forall j: nat, t: nat ensures Owns(s', j, t) <==> if e.TakeTicket? && j == e.i then t == s.next
                                else if e.Serve? && j == e.i then false
                                else Owns(s, j, t)
    {
      OwnersAfter(cap, s, e, j, t);
    }
    Entering(cap, s, e);
    assert e.Serve? ==> Owns(s, e.i, s.serving);
    forall t: nat | s'.serving <= t < s'.next ensures Owned(s', t) {
      if e.TakeTicket? && t == s.next {
        assert Owns(s', e.i, t);
      } else {
        assert Owned(s, t);
        var j: nat :| Owns(s, j, t);
        assert Owns(s', j, t);
      }
    }
  }

  /** Before it takes a ticket a caller owns none; dropping the permit gives up ticket `serving`. */
  lemma Entering(cap: nat, s: State, e: Event)
    requires Tickets(s) && Served(s) && Step(cap, s, e).Some?
    ensures e.TakeTicket? ==> forall t: nat :: !Owns(s, e.i, t)
    ensures e.Serve? ==> forall t: nat :: Owns(s, e.i, t) <==> t == s.serving
    ensures var s' := Step(cap, s, e).value;
            s'.next == (if e.TakeTicket? then s.next + 1 else s.next)
            && s'.serving == (if e.Serve? then s.serving + 1 else s.serving)
  {
  }

  lemma MutualKept(cap: nat, s: State, e: Event)
    requires Mutual(s) && Step(cap, s, e).Some?
    ensures Mutual(Step(cap, s, e).value)
  {
  }

  lemma ServedKept(cap: nat, s: State, e: Event)
    requires Tickets(s) && Served(s) && Step(cap, s, e).Some?
    ensures Served(Step(cap, s, e).value)
  {
    hide Tickets;
    var s' := Step(cap, s, e).value;
    if e.Serve? {
      Entering(cap, s, e);
      forall j: nat | j < |s'.pc| && Permit(s'.pc[j]) ensures false {
        OneOwner(s, e.i, j, s.serving);
      }
    }
  }

  lemma OneOwner(s: State, i: nat, j: nat, t: nat)
    requires Tickets(s) && Owns(s, i, t) && Owns(s, j, t)
    ensures i == j
  {
  }

  lemma WakefulKept(cap: nat, s: State, e: Event)
    requires Wakeful(s) && Step(cap, s, e).Some?
    ensures Wakeful(Step(cap, s, e).value)
  {
    var s' := Step(cap, s, e).value;
    if i: nat :| i < |s'.pc| && s'.pc[i] == Asleep(s'.serving) {
      if e.Serve? {
        assert s'.pc[e.i] == Notify;
      } else {
        assert !e.NotifyAll?;
        assert s.pc[i] == Asleep(s.serving);
        var j: nat :| j < |s.pc| && s.pc[j] == Notify;
        assert s'.pc[j] == Notify;
      }
    }
  }

  lemma StepKeeps(cap: nat, s: State, e: Event)
    requires Inv(s) && Step(cap, s, e).Some?
    ensures Inv(Step(cap, s, e).value)
  {
    hide Tickets, Mutual, Served, Wakeful, Step;
    TicketsKept(cap, s, e);
    MutualKept(cap, s, e);
    ServedKept(cap, s, e);
    WakefulKept(cap, s, e);
  }

  /** Every run keeps the invariant. */
  lemma {:induction false} RunKeeps(cap: nat, s: State, es: seq<Event>)
    requires Inv(s) && Run(cap, s, es).Some?
    ensures Inv(Run(cap, s, es).value)
    decreases |es|
  {
    hide Inv, Step;
    if es != [] {
      StepKeeps(cap, s, es[0]);
      RunKeeps(cap, Step(cap, s, es[0]).value, es[1..]);
    }
  }

  /** The states a queue can reach. */
  ghost predicate Reachable(cap: nat, s: State) {
    exists s0: State, es: seq<Event> :: Start(s0) && Run(cap, s0, es) == Some(s)
  }

  lemma ReachableInv(cap: nat, s: State)
    requires Reachable(cap, s)
    ensures Inv(s)
  {
    var s0: State, es: seq<Event> :| Start(s0) && Run(cap, s0, es) == Some(s);
    RunKeeps(cap, s0, es);
  }

  /** Mutual exclusion: the permit has at most one holder. */
  lemma OnePermit(cap: nat, s: State, i: nat, j: nat)
    requires Reachable(cap, s) && i < |s.pc| && j < |s.pc| && Permit(s.pc[i]) && Permit(s.pc[j])
    ensures i == j && s.pc[i].t == s.serving
  {
    ReachableInv(cap, s);
    OneOwner(s, i, j, s.serving);
  }

  // ---------------------------------------------------------------- first in, first out

  /** Permits dropped during a run. */
  function Drops(es: seq<Event>): nat {
    if es == [] then 0 else (if es[0].Serve? then 1 else 0) + Drops(es[1..])
  }

  predicate NeverDrops(es: seq<Event>, i: nat) { forall k :: 0 <= k < |es| ==> es[k] != Serve(i) }

  lemma {:induction false} DropsServe(cap: nat, s: State, es: seq<Event>)
    requires Run(cap, s, es).Some?
    ensures Run(cap, s, es).value.serving == s.serving + Drops(es)
    decreases |es|
  {
    if es != [] { DropsServe(cap, Step(cap, s, es[0]).value, es[1..]); }
  }

  lemma {:induction false} TicketStays(cap: nat, s: State, es: seq<Event>, i: nat, t: nat)
    requires Run(cap, s, es).Some? && Owns(s, i, t) && NeverDrops(es, i)
    ensures Owns(Run(cap, s, es).value, i, t)
    decreases |es|
  {
    hide Step, Owns;
    if es != [] {
      assert es[0] != Serve(i);
      HoldersWait(cap, s, es[0], i, t);
      OwnersAfter(cap, s, es[0], i, t);
      TicketStays(cap, Step(cap, s, es[0]).value, es[1..], i, t);
    }
  }

  lemma HoldersWait(cap: nat, s: State, e: Event, i: nat, t: nat)
    requires Owns(s, i, t) && Step(cap, s, e).Some?
    ensures e != TakeTicket(i)
  {
  }

  /** Arrival order is service order: a caller that found `depth` requests ahead of it keeps its place
      until it drops its own permit, is let in after exactly `depth` drops, and never before. */
  lemma ServedAfterDepth(cap: nat, s: State, i: nat, es: seq<Event>)
    requires Reachable(cap, s) && Step(cap, s, TakeTicket(i)).Some?
    requires Run(cap, Step(cap, s, TakeTicket(i)).value, es).Some? && NeverDrops(es, i)
    ensures var depth, s' := s.next - s.serving, Run(cap, Step(cap, s, TakeTicket(i)).value, es).value;
            && Owns(s', i, s.next) && Drops(es) <= depth
            && (Drops(es) == depth <==> s'.serving == s.next)
            && (Permit(s'.pc[i]) ==> Drops(es) == depth)
  {
    hide Step, Tickets, Mutual, Wakeful;
    ReachableInv(cap, s);
    var s1 := Step(cap, s, TakeTicket(i)).value;
    OwnersAfter(cap, s, TakeTicket(i), i, s.next);
    Entering(cap, s, TakeTicket(i));
    RunKeeps(cap, s, [TakeTicket(i)] + es);
    assert ([TakeTicket(i)] + es)[1..] == es;
    TicketStays(cap, s1, es, i, s.next);
    DropsServe(cap, s1, es);
    OwnedInRange(Run(cap, s1, es).value, i, s.next);
  }

  lemma OwnedInRange(s: State, i: nat, t: nat)
    requires Tickets(s) && Owns(s, i, t)
    ensures s.serving <= t < s.next
  {
  }

  // ---------------------------------------------------------------- no run gets stuck

  /** Steps of callers already there: no arrivals, no spurious wakeups. */
  predicate Quiet(es: seq<Event>) {
    forall k :: 0 <= k < |es| ==> !es[k].CallTry? && !es[k].CallAcquire? && !es[k].Spurious?
  }

  lemma {:induction false} RunConcat(cap: nat, s: State, a: seq<Event>, b: seq<Event>)
    requires Run(cap, s, a).Some?
    ensures Run(cap, s, a + b) == Run(cap, Run(cap, s, a).value, b)
    decreases |a|
  {
    hide Step;
    if a == [] {
      assert a + b == b;
    } else {
      assert (a + b)[1..] == a[1..] + b;
      RunConcat(cap, Step(cap, s, a[0]).value, a[1..], b);
    }
  }

  /** `es` leads quietly from `s` to `s'`. */
  ghost predicate Leads(cap: nat, s: State, es: seq<Event>, s': State) {
    Quiet(es) && Run(cap, s, es) == Some(s') && Inv(s) && Inv(s')
  }

  lemma LeadsOn(cap: nat, s: State, a: seq<Event>, s1: State, b: seq<Event>, s2: State)
    requires Leads(cap, s, a, s1) && Leads(cap, s1, b, s2)
    ensures Leads(cap, s, a + b, s2)
  {
    hide Inv, Step;
    RunConcat(cap, s, a, b);
  }

  lemma LeadsByOne(cap: nat, s: State, e: Event) returns (s': State)
    requires Inv(s) && Step(cap, s, e).Some? && Quiet([e])
    ensures Leads(cap, s, [e], s') && Step(cap, s, e) == Some(s')
  {
    hide Inv, Step;
    s' := Step(cap, s, e).value;
    OneStep(cap, s, e);
    StepKeeps(cap, s, e);
  }

  lemma OneStep(cap: nat, s: State, e: Event)
    ensures Run(cap, s, [e]) == Step(cap, s, e)
  {
    hide Step;
    assert [e][1..] == [];
    if Step(cap, s, e).Some? { assert Run(cap, Step(cap, s, e).value, []) == Step(cap, s, e); }
  }

  /** Every caller but `i` keeps its ticket, and none of them is let in. */
  ghost predicate OthersKeep(s: State, s': State, i: nat) {
    forall j: nat, t: nat :: j != i && Owns(s, j, t) ==> Owns(s', j, t) && (Permit(s'.pc[j]) ==> Permit(s.pc[j]))
  }

  lemma KeepOn(s: State, s1: State, s2: State, i: nat)
    requires OthersKeep(s, s1, i) && OthersKeep(s1, s2, i)
    ensures OthersKeep(s, s2, i)
  {
    hide Owns, Permit;
  }

  /** Whoever holds the mutex gives it up. */
  lemma MutexFreed(cap: nat, s: State, h: nat) returns (es: seq<Event>, s': State)
    requires Inv(s) && s.holder == Some(h)
    ensures Leads(cap, s, es, s') && s'.holder == None && OthersKeep(s, s', h) && s'.serving >= s.serving
    ensures h < |s.pc| && (s.pc[h].TestHeld? ==> Owns(s', h, s.pc[h].t) && !s'.pc[h].Leave?)
    ensures h < |s'.pc| && !Held(s'.pc[h])
  {
    hide Tickets, Served, Wakeful, Run;
    assert Held(s.pc[h]);
    match s.pc[h]
    case CheckHeld =>
      s' := LeadsByOne(cap, s, Decide(h));
      es := [Decide(h)];
    case EnterHeld =>
      var s1 := LeadsByOne(cap, s, TakeTicket(h));
      s' := LeadsByOne(cap, s1, TestTurn(h));
      es := [TakeTicket(h)] + [TestTurn(h)];
      LeadsOn(cap, s, [TakeTicket(h)], s1, [TestTurn(h)], s');
    case TestHeld(_) =>
      s' := LeadsByOne(cap, s, TestTurn(h));
      es := [TestTurn(h)];
    case LeaveHeld(_) =>
      s' := LeadsByOne(cap, s, Serve(h));
      es := [Serve(h)];
  }

  /** With the mutex free, the caller whose turn it is gets the permit. */
  lemma HeadRuns(cap: nat, s: State, o: nat) returns (es: seq<Event>, s': State)
    requires Inv(s) && s.holder == None && Owns(s, o, s.serving)
    ensures Leads(cap, s, es, s') && s'.holder == None && s'.serving == s.serving && OthersKeep(s, s', o)
    ensures Permit(s.pc[o]) ==> s' == s
    ensures o < |s'.pc| && (s'.pc[o] == Running(s.serving) || s'.pc[o] == Leave(s.serving))
    ensures !Permit(s.pc[o]) ==> s'.pc[o] == Running(s.serving)
  {
    hide Run, Tickets;
    if s.pc[o].Asleep? {
      var j: nat :| j < |s.pc| && s.pc[j] == Notify;
      var s1 := LeadsByOne(cap, s, NotifyAll(j));
      var rest;
      rest, s' := WokenRuns(cap, s1, o);
      LeadsOn(cap, s, [NotifyAll(j)], s1, rest, s');
      assert OthersKeep(s, s1, o);
      KeepOn(s, s1, s', o);
      es := [NotifyAll(j)] + rest;
    } else if s.pc[o].Woken? {
      es, s' := WokenRuns(cap, s, o);
    } else {
      assert !Held(s.pc[o]);
      assert Run(cap, s, []) == Some(s) by { EmptyRun(cap, s); }
      es, s' := [], s;
    }
  }

  lemma EmptyRun(cap: nat, s: State)
    ensures Run(cap, s, []) == Some(s)
  {
  }

  lemma WokenRuns(cap: nat, s: State, o: nat) returns (es: seq<Event>, s': State)
    requires Inv(s) && s.holder == None && o < |s.pc| && s.pc[o] == Woken(s.serving)
    ensures Leads(cap, s, es, s') && s'.holder == None && s'.serving == s.serving && OthersKeep(s, s', o)
    ensures o < |s'.pc| && s'.pc[o] == Running(s.serving)
  {
    hide Run, Inv;
    var s1 := LeadsByOne(cap, s, Lock(o));
    s' := LeadsByOne(cap, s1, TestTurn(o));
    LeadsOn(cap, s, [Lock(o)], s1, [TestTurn(o)], s');
    es := [Lock(o)] + [TestTurn(o)];
  }

  /** A caller with the permit drops it, and the next ticket is served. */
  lemma HeadLeaves(cap: nat, s: State, o: nat) returns (es: seq<Event>, s': State)
    requires Inv(s) && s.holder == None && o < |s.pc|
    requires s.pc[o] == Running(s.serving) || s.pc[o] == Leave(s.serving)
    ensures Leads(cap, s, es, s') && s'.holder == None && s'.serving == s.serving + 1 && OthersKeep(s, s', o)
  {
    hide Run, Inv;
    if s.pc[o].Running? {
      var s1 := LeadsByOne(cap, s, BeginDrop(o));
      var rest;
      rest, s' := LeaverLeaves(cap, s1, o);
      LeadsOn(cap, s, [BeginDrop(o)], s1, rest, s');
      es := [BeginDrop(o)] + rest;
    } else {
      es, s' := LeaverLeaves(cap, s, o);
    }
  }

  lemma LeaverLeaves(cap: nat, s: State, o: nat) returns (es: seq<Event>, s': State)
    requires Inv(s) && s.holder == None && o < |s.pc| && s.pc[o] == Leave(s.serving)
    ensures Leads(cap, s, es, s') && s'.holder == None && s'.serving == s.serving + 1 && OthersKeep(s, s', o)
  {
    hide Run, Inv;
    var s1 := LeadsByOne(cap, s, Lock(o));
    s' := LeadsByOne(cap, s1, Serve(o));
    LeadsOn(cap, s, [Lock(o)], s1, [Serve(o)], s');
    es := [Lock(o)] + [Serve(o)];
  }

  lemma {:induction false} TurnComes(cap: nat, s: State, i: nat, t: nat) returns (es: seq<Event>, s': State)
    requires Inv(s) && s.holder == None && Owns(s, i, t) && !Permit(s.pc[i])
    ensures Leads(cap, s, es, s') && i < |s'.pc| && s'.pc[i] == Running(t)
    decreases t - s.serving
  {
    hide Run, Served, Mutual, Wakeful;
    assert s.serving <= t < s.next;
    assert Owned(s, s.serving);
    var o: nat :| Owns(s, o, s.serving);
    var s1;
    es, s1 := HeadRuns(cap, s, o);
    if t == s.serving {
      s' := s1;
    } else {
      var es2, s2 := HeadLeaves(cap, s1, o);
      LeadsOn(cap, s, es, s1, es2, s2);
      assert Owns(s1, i, t) && !Permit(s1.pc[i]);
      assert Owns(s2, i, t) && !Permit(s2.pc[i]);
      var es3;
      es3, s' := TurnComes(cap, s2, i, t);
      LeadsOn(cap, s, es + es2, s2, es3, s');
      es := es + es2 + es3;
    }
  }

  /** From every reachable state, every waiting caller can still get the permit, without any new
      arrival or spurious wakeup: no interleaving loses a wakeup or blocks the queue. */
  lemma AlwaysAdmissible(cap: nat, s: State, i: nat, t: nat) returns (es: seq<Event>)
    requires Reachable(cap, s) && Owns(s, i, t) && !Permit(s.pc[i])
    ensures Quiet(es) && Run(cap, s, es).Some? && i < |Run(cap, s, es).value.pc|
    ensures Run(cap, s, es).value.pc[i] == Running(t)
  {
    hide Run, Reachable;
    ReachableInv(cap, s);
    var s';
    if s.holder.Some? {
      var s1, rest;
      es, s1 := MutexFreed(cap, s, s.holder.value);
      assert Owns(s1, i, t);
      if s1.pc[i] == Running(t) {
        s' := s1;
      } else {
        rest, s' := TurnComes(cap, s1, i, t);
        LeadsOn(cap, s, es, s1, rest, s');
        es := es + rest;
      }
    } else {
      es, s' := TurnComes(cap, s, i, t);
    }
  }

  // ---------------------------------------------------------------- the admission cap

  function CountBetween(pc: seq<Pc>): nat {
    if pc == [] then 0 else (if pc[0].Enter? || pc[0].EnterHeld? then 1 else 0) + CountBetween(pc[1..])
  }

  /** Callers past the depth check but without a ticket yet. */
  function Between(s: State): nat { CountBetween(s.pc) }

  function Gone(p: Pc): nat { if p.Enter? || p.EnterHeld? then 1 else 0 }

  lemma {:induction false} CountAfter(pc: seq<Pc>, i: nat, p: Pc)
    requires i < |pc|
    ensures CountBetween(pc[i := p]) + Gone(pc[i]) == CountBetween(pc) + Gone(p)
  {
    if i > 0 {
      assert pc[i := p][1..] == pc[1..][i - 1 := p];
      CountAfter(pc[1..], i - 1, p);
    } else {
      assert pc[i := p][1..] == pc[1..];
    }
  }

  lemma {:induction false} CountWoken(pc: seq<Pc>)
    ensures CountBetween(WakeAll(pc)) == CountBetween(pc)
  {
    if pc != [] {
      assert WakeAll(pc)[1..] == WakeAll(pc[1..]);
      CountWoken(pc[1..]);
    }
  }

  /** Callers come only through the bounded check, and never more than `k` are between its two
      critical sections. */
  predicate Crowd(cap: nat, k: nat, s: State, es: seq<Event>)
    decreases |es|
  {
    && Between(s) <= k
    && (es != [] ==> !es[0].CallAcquire?)
    && (es != [] && Step(cap, s, es[0]).Some? ==> Crowd(cap, k, Step(cap, s, es[0]).value, es[1..]))
  }

  lemma BetweenAfter(cap: nat, s: State, e: Event)
    requires cap > 0 && Step(cap, s, e).Some? && !e.CallAcquire?
    ensures var s' := Step(cap, s, e).value;
            Between(s') + (if e.TakeTicket? then 1 else 0)
            == Between(s) + (if e.Decide? && s.next - s.serving < cap then 1 else 0)
  {
    hide CountBetween, WakeAll;
    var s' := Step(cap, s, e).value;
    if e.NotifyAll? {
      CountWoken(s.pc);
      CountAfter(WakeAll(s.pc), e.i, Idle);
      assert Gone(WakeAll(s.pc)[e.i]) == 0 by { Woke(s.pc, e.i); }
    } else {
      assert s'.pc == s.pc[e.i := s'.pc[e.i]];
      CountAfter(s.pc, e.i, s'.pc[e.i]);
    }
  }

  lemma Woke(pc: seq<Pc>, i: nat)
    requires i < |pc|
    ensures WakeAll(pc)[i] == Awake(pc[i])
  {
  }

  /** With at most `k` callers between check and enqueue, the queue never exceeds cap - 1 + k. */
  lemma {:induction false} DepthBounded(cap: nat, k: nat, s: State, es: seq<Event>)
    requires cap > 0 && k > 0 && Inv(s) && Run(cap, s, es).Some? && Crowd(cap, k, s, es)
    requires s.next - s.serving + Between(s) <= cap - 1 + k
    ensures var s' := Run(cap, s, es).value; s'.next - s'.serving <= cap - 1 + k
    decreases |es|
  {
    hide Step, Between, Tickets, Mutual, Served, Wakeful;
    if es != [] {
      var s1 := Step(cap, s, es[0]).value;
      StepKeeps(cap, s, es[0]);
      BetweenAfter(cap, s, es[0]);
      Counted(cap, s, es[0]);
      assert Crowd(cap, k, s1, es[1..]);
      assert Between(s1) <= k;
      DepthBounded(cap, k, s1, es[1..]);
    }
  }

  lemma Counted(cap: nat, s: State, e: Event)
    requires Inv(s) && Step(cap, s, e).Some?
    ensures var s' := Step(cap, s, e).value;
            && s.serving <= s.next && s'.serving <= s'.next
            && s'.next - s'.serving <= s.next - s.serving + (if e.TakeTicket? then 1 else 0)
  {
    StepKeeps(cap, s, e);
  }

  lemma {:induction false} NoneBetween(pc: seq<Pc>)
    requires forall i :: 0 <= i < |pc| ==> pc[i] == Idle
    ensures CountBetween(pc) == 0
  {
    if pc != [] { NoneBetween(pc[1..]); }
  }

  /** The cap as a caller can rely on it. */
  lemma CapHolds(cap: nat, k: nat, s0: State, es: seq<Event>)
    requires cap > 0 && k > 0 && Start(s0) && Run(cap, s0, es).Some? && Crowd(cap, k, s0, es)
    ensures Run(cap, s0, es).value.next - Run(cap, s0, es).value.serving <= cap - 1 + k
  {
    hide Run, Crowd;
    NoneBetween(s0.pc);
    DepthBounded(cap, k, s0, es);
  }

  // ---------------------------------------------------------------- and it is not tighter

  /** `a` callers hold tickets (the first runs), those up to `b` are past the check, the rest idle. */
  function Stage(n: nat, a: nat, b: nat): State
    requires a <= b <= n
  {
    State(a, 0, None, seq(n, i requires 0 <= i < n =>
      if i < a then (if i == 0 then Running(0) else Asleep(i)) else if i < b then Enter else Idle))
  }

  lemma {:induction false} StageBetween(n: nat, a: nat, b: nat)
    requires a <= b <= n
    ensures Between(Stage(n, a, b)) == b - a
    decreases b - a
  {
    hide CountBetween;
    if a < b {
      StageBetween(n, a + 1, b);
      assert Stage(n, a + 1, b).pc == Stage(n, a, b).pc[a := if a == 0 then Running(0) else Asleep(a)];
      CountAfter(Stage(n, a, b).pc, a, if a == 0 then Running(0) else Asleep(a));
    } else {
      NoneOf(Stage(n, a, b).pc);
    }
  }

  lemma {:induction false} NoneOf(pc: seq<Pc>)
    requires forall i :: 0 <= i < |pc| ==> Gone(pc[i]) == 0
    ensures CountBetween(pc) == 0
  {
    if pc != [] { NoneOf(pc[1..]); }
  }

  /** A run in which the crowd stays within `k`, ending in `s2`. */
  ghost predicate Crowds(cap: nat, k: nat, s: State, es: seq<Event>, s2: State) {
    Run(cap, s, es) == Some(s2) && Crowd(cap, k, s, es) && Between(s2) <= k
  }

  lemma {:induction false} CrowdsOn(cap: nat, k: nat, s: State, a: seq<Event>, s1: State, b: seq<Event>, s2: State)
    requires Crowds(cap, k, s, a, s1) && Crowds(cap, k, s1, b, s2)
    ensures Crowds(cap, k, s, a + b, s2)
    decreases |a|
  {
    hide Step, Between;
    if a == [] {
      assert a + b == b;
    } else {
      assert (a + b)[1..] == a[1..] + b;
      CrowdsOn(cap, k, Step(cap, s, a[0]).value, a[1..], s1, b, s2);
    }
  }

  lemma CrowdStep(cap: nat, k: nat, s: State, e: Event, s1: State)
    requires cap > 0 && Step(cap, s, e) == Some(s1) && !e.CallAcquire? && Between(s) <= k && Between(s1) <= k
    ensures Crowds(cap, k, s, [e], s1)
  {
    hide Step, Between;
    assert [e][1..] == [];
    OneStep(cap, s, e);
    assert Crowd(cap, k, s1, []);
  }

  /** One more caller passes the check. */
  lemma PassOne(cap: nat, k: nat, n: nat, a: nat, b: nat)
    requires a <= b < n && a < cap && b + 1 - a <= k
    ensures Crowds(cap, k, Stage(n, a, b), [CallTry(b)] + [Lock(b)] + [Decide(b)], Stage(n, a, b + 1))
  {
    hide Between, CountBetween, Crowds;
    var s := Stage(n, a, b);
    var s1 := s.(pc := s.pc[b := Check]);
    var s2 := s.(pc := s.pc[b := CheckHeld], holder := Some(b));
    var s3 := Stage(n, a, b + 1);
    StageBetween(n, a, b);
    StageBetween(n, a, b + 1);
    BetweenAfter(cap, s, CallTry(b));
    assert s2.pc == s1.pc[b := CheckHeld];
    BetweenAfter(cap, s1, Lock(b));
    assert s3.pc == s2.pc[b := Enter];
    CrowdStep(cap, k, s, CallTry(b), s1);
    CrowdStep(cap, k, s1, Lock(b), s2);
    CrowdStep(cap, k, s2, Decide(b), s3);
    CrowdsOn(cap, k, s, [CallTry(b)], s1, [Lock(b)], s2);
    CrowdsOn(cap, k, s, [CallTry(b)] + [Lock(b)], s2, [Decide(b)], s3);
  }

  /** One of those past the check takes its ticket. */
  lemma EnqueueOne(cap: nat, k: nat, n: nat, a: nat, b: nat)
    requires a < b <= n && cap > 0 && b - a <= k
    ensures Crowds(cap, k, Stage(n, a, b), [Lock(a)] + [TakeTicket(a)] + [TestTurn(a)], Stage(n, a + 1, b))
  {
    hide Between, CountBetween, Crowds;
    var s := Stage(n, a, b);
    var s1 := s.(pc := s.pc[a := EnterHeld], holder := Some(a));
    var s2 := s.(pc := s.pc[a := TestHeld(a)], holder := Some(a), next := a + 1);
    var s3 := Stage(n, a + 1, b);
    StageBetween(n, a, b);
    StageBetween(n, a + 1, b);
    BetweenAfter(cap, s, Lock(a));
    assert s2.pc == s1.pc[a := TestHeld(a)];
    BetweenAfter(cap, s1, TakeTicket(a));
    assert s3.pc == s2.pc[a := if a == 0 then Running(0) else Asleep(a)];
    CrowdStep(cap, k, s, Lock(a), s1);
    CrowdStep(cap, k, s1, TakeTicket(a), s2);
    CrowdStep(cap, k, s2, TestTurn(a), s3);
    CrowdsOn(cap, k, s, [Lock(a)], s1, [TakeTicket(a)], s2);
    CrowdsOn(cap, k, s, [Lock(a)] + [TakeTicket(a)], s2, [TestTurn(a)], s3);
  }

  /** One after another, `a` callers queue up to the cap. */
  lemma {:induction false} QueueUp(cap: nat, k: nat, n: nat, a: nat) returns (es: seq<Event>)
    requires k > 0 && a <= n && a <= cap && cap > 0
    ensures Crowds(cap, k, Stage(n, 0, 0), es, Stage(n, a, a))
  {
    hide Run, Step, Between, Crowds;
    if a == 0 {
      es := [];
      StageBetween(n, 0, 0);
      StaysPut(cap, k, Stage(n, 0, 0));
    } else {
      es := QueueUp(cap, k, n, a - 1);
      PassOne(cap, k, n, a - 1, a - 1);
      EnqueueOne(cap, k, n, a - 1, a);
      var pass := [CallTry(a - 1)] + [Lock(a - 1)] + [Decide(a - 1)];
      var enq := [Lock(a - 1)] + [TakeTicket(a - 1)] + [TestTurn(a - 1)];
      CrowdsOn(cap, k, Stage(n, 0, 0), es, Stage(n, a - 1, a - 1), pass, Stage(n, a - 1, a));
      CrowdsOn(cap, k, Stage(n, 0, 0), es + pass, Stage(n, a - 1, a), enq, Stage(n, a, a));
      es := es + pass + enq;
    }
  }

  lemma StaysPut(cap: nat, k: nat, s: State)
    requires Between(s) <= k
    ensures Crowds(cap, k, s, [], s)
  {
  }

  /** Then `m` callers pass the check together. */
  lemma {:induction false} PassTogether(cap: nat, k: nat, n: nat, a: nat, m: nat) returns (es: seq<Event>)
    requires m <= k && a + m <= n && a < cap
    ensures Crowds(cap, k, Stage(n, a, a), es, Stage(n, a, a + m))
  {
    hide Run, Step, Between, Crowds;
    if m == 0 {
      es := [];
      StageBetween(n, a, a);
      StaysPut(cap, k, Stage(n, a, a));
    } else {
      es := PassTogether(cap, k, n, a, m - 1);
      var b := a + m - 1;
      PassOne(cap, k, n, a, b);
      var pass := [CallTry(b)] + [Lock(b)] + [Decide(b)];
      CrowdsOn(cap, k, Stage(n, a, a), es, Stage(n, a, b), pass, Stage(n, a, b + 1));
      es := es + pass;
    }
  }

  /** And all of them enqueue. */
  lemma {:induction false} EnqueueTogether(cap: nat, k: nat, n: nat, a: nat, b: nat) returns (es: seq<Event>)
    requires a <= b <= n && b - a <= k && cap > 0
    ensures Crowds(cap, k, Stage(n, a, b), es, Stage(n, b, b))
    decreases b - a
  {
    hide Run, Step, Between, Crowds;
    if a == b {
      es := [];
      StageBetween(n, a, b);
      StaysPut(cap, k, Stage(n, a, b));
    } else {
      EnqueueOne(cap, k, n, a, b);
      var enq := [Lock(a)] + [TakeTicket(a)] + [TestTurn(a)];
      var rest := EnqueueTogether(cap, k, n, a + 1, b);
      CrowdsOn(cap, k, Stage(n, a, b), enq, Stage(n, a + 1, b), rest, Stage(n, b, b));
      es := enq + rest;
    }
  }

  /** The bound is attained for every cap and every `k`: the cap alone does not bound the queue. */
  lemma CapIsExceeded(cap: nat, k: nat) returns (s0: State, es: seq<Event>)
    requires cap > 0 && k > 0
    ensures Start(s0) && Run(cap, s0, es).Some? && Crowd(cap, k, s0, es)
    ensures Run(cap, s0, es).value.next - Run(cap, s0, es).value.serving == cap - 1 + k
  {
    hide Run, Step, Between, Crowd;
    var n := cap - 1 + k;
    s0 := Stage(n, 0, 0);
    var queue := QueueUp(cap, k, n, cap - 1);
    var pass := PassTogether(cap, k, n, cap - 1, k);
    var enq := EnqueueTogether(cap, k, n, cap - 1, n);
    CrowdsOn(cap, k, s0, queue, Stage(n, cap - 1, cap - 1), pass, Stage(n, cap - 1, n));
    CrowdsOn(cap, k, s0, queue + pass, Stage(n, cap - 1, n), enq, Stage(n, n, n));
    es := queue + pass + enq;
  }
}
