/** The rtthreads kernel as a transition system over values. A step is one atomic
    section of the code: an ATOMIC_BLOCK up to and including the switch that ends
    it, the timer interrupt, or a straight-line piece of periodic_pattern between
    two of them. The classes of module Kernel carry the same steps out in place. */
module KernelModel {
  import opened Words

  type Tid = nat
  type SemId = nat

  const MAIN: Tid := 0
  const NORM_PRIO: u8 := 2
  const OVERRUN_PRIO: u8 := 3
  const TICK_US := 128

  datatype Status = Slept | Active | Blocked | SemBlocked

  /** block_pattern 0, 1 and 2. */
  datatype Pattern = Periodic | Sporadic | Aperiodic

  /** Where a thread stands in periodic_pattern: the statement it executes next.
      Only at Executor and Handlers does it run code of the application. */
  datatype Pc = Start | Offset | Gate | Stamp | Reset | Executor | Charging | Handlers | Decrement

  datatype Thread = Thread(
    priority: u8, status: Status, ticksToWait: u32, carryWait: bool,
    pattern: Pattern, minPeriod: u32, maxDeadline: u32, maxCost: u32, cost: u32, offset: u32,
    mitPolicy: u8, queueMax: i32, pending: i32, lastInput: u32,
    waitsOn: Option<SemId>, atsActive: bool, atsPending: u32,
    pc: Pc, counter: u32, ticksAux: u32)

  /** What the interrupt does after thread_yield returns to it. WholeInterrupt: the
      whole handler is one step, so tick_counter_previous is written at once.
      DeferredWrite: it is written only when the preempted context resumes. */
  datatype IsrMode = WholeInterrupt | DeferredWrite

  /** `time` counts the ticks without bound; no step of the code reads it. */
  datatype State = State(
    mode: IsrMode,
    ring: seq<Tid>, th: map<Tid, Thread>, current: Tid, nextTid: Tid,
    time: nat, clock: u32, carry: bool, prev: u32, inIsr: set<Tid>, lastCost: u32,
    sems: map<SemId, i16>)

  /** The arguments of the three creation calls, in microseconds, and in `junk` the
      fields that malloc leaves as they are. */
  datatype Config = Config(
    pattern: Pattern, priority: u8, offsetUs: u32, periodUs: u32, deadlineUs: u32, costUs: u32,
    mitPolicy: u8, queueMax: u32, junk: Thread)

  datatype Event =
    | Tick
    | YieldCall
    | Sleep(ticks: u32)
    | Signal(target: Tid)
    | SemP(sem: SemId)
    | SemV(sem: SemId)
    | AtsSignal(target: Tid)
    | AtsEnable
    | AtsDisable
    | ReadCost
    | PatternStep
    | Create(config: Config)
    | Remove(target: Tid)
    | SemCreate(sem: SemId, initial: i16)

  // ---------------------------------------------------------------- the run queue

  function IndexOf(ring: seq<Tid>, t: Tid): (i: nat)
    requires t in ring
    ensures i < |ring| && ring[i] == t
  {
    if ring[0] == t then 0 else 1 + IndexOf(ring[1..], t)
  }

  ghost predicate Listed(ring: seq<Tid>, threads: set<Tid>, t: Tid) {
    t in threads <==> t in ring
  }

  /** The list holds the known threads and no others. */
  ghost predicate Exactly(ring: seq<Tid>, threads: set<Tid>) {
    forall t {:trigger Listed(ring, threads, t)} :: Listed(ring, threads, t)
  }

  lemma ExactlyIn(ring: seq<Tid>, threads: set<Tid>)
    requires Exactly(ring, threads)
    ensures forall t :: t in threads <==> t in ring
  {
    forall t ensures t in threads <==> t in ring {
      assert Listed(ring, threads, t);
    }
  }

  ghost predicate Differ(ring: seq<Tid>, i: int, j: int) {
    0 <= i < j < |ring| ==> ring[i] != ring[j]
  }

  ghost predicate NoDuplicates(ring: seq<Tid>) {
    forall i, j {:trigger Differ(ring, i, j)} :: Differ(ring, i, j)
  }

  /** The order in which the scan meets the threads: from the successor of the
      current one round to the current one itself. */
  function VisitOrder(ring: seq<Tid>, current: Tid): (order: seq<Tid>)
    requires current in ring
    ensures |order| == |ring|
  {
    var i := IndexOf(ring, current);
    ring[i + 1..] + ring[..i + 1]
  }

  function Without(ring: seq<Tid>, t: Tid): seq<Tid> {
    if t in ring then var i := IndexOf(ring, t); ring[..i] + ring[i + 1..] else ring
  }

  // ---------------------------------------------------------------- one scan

  /** What one visit of the scan does to a thread. */
  function Wake(x: Thread, clock: u32, carry: bool): Thread {
    match x.status
    case Slept =>
      var carryWait := x.carryWait && !carry;
      x.(carryWait := carryWait,
         status := if !carryWait && x.ticksToWait < clock then Active else Slept)
    case Blocked =>
      if Add32(x.lastInput, Add32(x.minPeriod, x.minPeriod)) < clock
      then x.(lastInput := Add32(x.lastInput, x.minPeriod)) else x
    case _ => x
  }

  function Scanned(s: State): (th: map<Tid, Thread>)
    ensures th.Keys == s.th.Keys
  {
    map t | t in s.th :: Wake(s.th[t], s.clock, s.carry)
  }

  ghost predicate Covers(th: map<Tid, Thread>, order: seq<Tid>) {
    forall t :: t in order ==> t in th
  }

  /** The candidate after the threads of `order` were visited in turn. */
  function Choose(th: map<Tid, Thread>, current: Tid, order: seq<Tid>): (c: Tid)
    requires MAIN in th && Covers(th, order)
    ensures c in th
  {
    if order == [] then MAIN
    else
      var c := Choose(th, current, order[..|order| - 1]);
      var t := order[|order| - 1];
      if th[t].status == Active && th[t].priority >= th[c].priority && t != current then t else c
  }

  // ---------------------------------------------------------------- thread_yield

  /** Charges ticks to a thread and demotes it when it has overrun its budget. */
  function Charge(x: Thread, ticks: u32): Thread {
    var cost := Add32(x.cost, ticks);
    x.(cost := cost, priority := if x.maxCost < cost then OVERRUN_PRIO else x.priority)
  }

  /** thread_start in the resumed context: the pending asynchronous signals are consumed. */
  function Drain(x: Thread): Thread {
    if x.atsActive then x.(atsPending := 0) else x
  }

  /** How one step concerns one thread: whether it is the current one, the target of the
      call, the one dispatched next; and the clock and carry flag the step works with. */
  datatype Role = Role(
    current: bool, target: bool, blocks: bool, resched: bool, next: bool,
    clock: u32, carry: bool, lastCost: u32)

  /** What thread_yield does to a thread. */
  function Settle(x: Thread, r: Role): Thread {
    var w := Wake(x, r.clock, r.carry);
    var y := if r.current then Charge(w, Sub32(r.clock, r.lastCost)) else w;
    if r.next then Drain(y) else y
  }

  /** The run queue: no thread twice, main last, and the nodes are the known threads. */
  ghost predicate Queue(ring: seq<Tid>, threads: set<Tid>) {
    && ring != [] && ring[|ring| - 1] == MAIN
    && NoDuplicates(ring)
    && Exactly(ring, threads)
  }

  /** The structure every scan relies on. */
  ghost predicate Linked(s: State) {
    Queue(s.ring, s.th.Keys) && MAIN in s.th && s.current in s.th
  }

  ghost function Next(s: State): (c: Tid)
    requires Linked(s)
    ensures c in s.th
  {
    ExactlyIn(s.ring, s.th.Keys);
    Choose(Scanned(s), s.current, VisitOrder(s.ring, s.current))
  }

  ghost function Yield(s: State): (r: State)
    requires Linked(s)
  {
    var c := Next(s);
    s.(th := map t | t in s.th ::
         Settle(s.th[t], Role(t == s.current, false, false, true, t == c, s.clock, s.carry, s.lastCost)),
       current := c,
       lastCost := Add32(s.lastCost, Sub32(s.clock, s.lastCost)),
       prev := if c in s.inIsr then s.clock else s.prev,
       inIsr := s.inIsr - {c})
  }

  // ---------------------------------------------------------------- the calls

  /** The record tick_sleep leaves behind before it yields. */
  function Asleep(x: Thread, clock: u32, ticks: u32): Thread {
    var deadline := Add32(ticks, clock);
    x.(status := Slept, ticksToWait := deadline, carryWait := clock > deadline)
  }

  /** The outcome of thread_signal's two policy switches. */
  datatype Decision = Decision(accept: bool, record: bool, result: int)

  function Decide(x: Thread, now: u32): Decision {
    var mit := x.mitPolicy % 16;
    var over := x.mitPolicy / 16;
    if x.queueMax >= x.pending then
      if Sub32(now, x.lastInput) > x.minPeriod || x.pattern != Sporadic then Decision(true, true, 0)
      else if mit == 1 then Decision(true, true, 0)
      else if mit == 2 then Decision(false, false, 2)
      else if mit == 3 then Decision(false, false, 0)
      else if mit == 4 then Decision(false, true, 0)
      else Decision(false, false, -3)
    else
      if over == 1 then Decision(true, true, 0)
      else if over == 2 then Decision(false, false, 0x20)
      else if over == 3 then Decision(false, false, 0)
      else if over == 4 then Decision(false, true, 0)
      else Decision(false, false, -2)
  }

  /** thread_signal up to thread_unblock's yield. */
  function Signalled(x: Thread, now: u32): Thread {
    var d := Decide(x, now);
    x.(pending := if d.accept then Inc32(x.pending) else x.pending,
       lastInput := if d.record then now else x.lastInput,
       status := if x.status == Blocked then Active else x.status)
  }

  /** The thread thread_semaphore_V hands the semaphore to. */
  function HandOff(th: map<Tid, Thread>, order: seq<Tid>, m: SemId): (c: Option<Tid>)
    requires Covers(th, order)
    ensures c.Some? ==> c.value in order && th[c.value].waitsOn == Some(m)
  {
    if order == [] then None
    else
      var c := HandOff(th, order[..|order| - 1], m);
      var t := order[|order| - 1];
      if th[t].waitsOn == Some(m) && (c.None? || th[c.value].priority < th[t].priority) then Some(t) else c
  }

  /** One statement of periodic_pattern, up to the yield it may end in. */
  function PatternPre(x: Thread, clock: u32, lastCost: u32): Thread {
    match x.pc
    case Start => x.(cost := 0, pc := Offset)
    case Offset => Asleep(x, clock, x.offset).(pc := Gate)
    case Gate => if GateOpen(x) then x.(pc := Stamp) else x.(status := Blocked)
    case Stamp => x.(counter := clock, pc := Reset)
    case Reset => x.(cost := 0, pc := Executor)
    case Executor => x.(ticksAux := clock, pc := Charging)
    case Charging => x.(cost := Add32(x.cost, Sub32(clock, lastCost)), pc := Handlers)
    case Handlers =>
      var next := Add32(x.counter, x.minPeriod);
      var y := x.(counter := next, pc := Decrement);
      if x.pattern == Aperiodic then y else Asleep(y, clock, Sub32(next, x.ticksAux))
    case Decrement => x.(pending := Dec32(x.pending), pc := Gate)
  }

  /** What a call does to a thread before the yield it may end in. */
  function Touch(x: Thread, e: Event, r: Role): Thread {
    match e
    case Sleep(n) => if r.current then Asleep(x, r.clock, n) else x
    case Signal(_) => if r.target then Signalled(x, r.clock) else x
    case SemP(m) => if r.current && r.blocks then x.(waitsOn := Some(m), status := SemBlocked) else x
    case SemV(_) => if r.target then x.(waitsOn := None, status := Active) else x
    case AtsSignal(_) => if r.target then x.(atsPending := Add32(x.atsPending, 1)) else x
    case AtsEnable => if r.current then x.(atsActive := true) else x
    case AtsDisable => if r.current then x.(atsActive := false) else x
    case ReadCost => if r.current then x.(cost := Add32(x.cost, Sub32(r.clock, r.lastCost))) else x
    case PatternStep => if r.current then PatternPre(x, r.clock, r.lastCost) else x
    case _ => x
  }

  /** The whole step, as one thread sees it. */
  function Move(x: Thread, e: Event, r: Role): Thread {
    var y := Touch(x, e, r);
    if r.resched then Settle(y, r) else y
  }

  predicate GateOpen(x: Thread) {
    x.pattern == Periodic || x.pending > 0
  }

  predicate PatternYields(x: Thread) {
    || x.pc == Offset
    || (x.pc == Gate && !GateOpen(x))
    || (x.pc == Handlers && x.pattern != Aperiodic)
  }

  function NewThread(cfg: Config): Thread {
    var queued := cfg.pattern != Periodic;
    Thread(
      priority := cfg.priority, status := Active,
      ticksToWait := cfg.junk.ticksToWait, carryWait := cfg.junk.carryWait,
      pattern := cfg.pattern,
      minPeriod := if cfg.pattern == Aperiodic then 0 else cfg.periodUs / TICK_US,
      maxDeadline := cfg.deadlineUs / TICK_US, maxCost := cfg.costUs / TICK_US,
      cost := cfg.junk.cost, offset := cfg.offsetUs / TICK_US,
      mitPolicy := if queued then cfg.mitPolicy else cfg.junk.mitPolicy,
      queueMax := if queued then AsInt32(cfg.queueMax) else cfg.junk.queueMax,
      pending := if queued then 0 else cfg.junk.pending,
      lastInput := if queued then 0 else cfg.junk.lastInput,
      waitsOn := None, atsActive := false, atsPending := 0,
      pc := Start, counter := 0, ticksAux := 0)
  }

  /** The record of the main thread; the fields the code leaves unset are 0 here. */
  const MAIN_THREAD := Thread(
    priority := NORM_PRIO, status := Active, ticksToWait := 0, carryWait := false,
    pattern := Periodic, minPeriod := 0, maxDeadline := 0, maxCost := 0xFFFF_FFFF, cost := 0, offset := 0,
    mitPolicy := 0, queueMax := 0, pending := 0, lastInput := 0,
    waitsOn := None, atsActive := false, atsPending := 0,
    pc := Executor, counter := 0, ticksAux := 0)

  // ---------------------------------------------------------------- steps

  ghost predicate ThreadOk(s: State, t: Tid)
    requires t in s.th
  {
    && t < s.nextTid
    && (s.th[t].waitsOn.Some? <==> s.th[t].status == SemBlocked)
    && (s.th[t].waitsOn.Some? ==> s.th[t].waitsOn.value in s.sems)
  }

  ghost predicate ThreadsOk(s: State) {
    forall t {:trigger ThreadOk(s, t)} :: t in s.th ==> ThreadOk(s, t)
  }

  ghost predicate MainOk(x: Thread) {
    x.status == Active && x.priority == NORM_PRIO && x.maxCost == 0xFFFF_FFFF
  }

  /** Run-queue well-formedness and what every dispatched thread satisfies. */
  ghost predicate WF(s: State) {
    && s.clock == Word(s.time) && s.lastCost == s.clock && MAIN < s.nextTid
    && (s.ring == [] ==> s.th == map[] && s.current == MAIN && s.inIsr == {})
    && (s.ring != [] ==>
      && Linked(s)
      && ThreadsOk(s)
      && MainOk(s.th[MAIN])
      && s.th[s.current].status == Active
      && s.th[s.current].priority >= NORM_PRIO
      && s.inIsr <= s.th.Keys)
  }

  function Boot(mode: IsrMode): State {
    State(mode, [], map[], MAIN, 1, 0, 0, false, 0, {}, 0, map[])
  }

  /** Application code runs: the main thread, an executor or an error handler. */
  predicate CanCall(s: State) {
    s.current in s.th && s.th[s.current].pc in {Executor, Handlers}
  }

  /** Signals, V operations and asynchronous signals may also come from interrupt
      handlers, so nothing is asked of the current thread for them, nor for a P that does
      not block. The main thread never blocks. A removed thread is not the current one. */
  predicate Enabled(s: State, e: Event) {
    match e
    case Create(_) => true
    case SemCreate(m, _) => m !in s.sems
    case Remove(t) => t != s.current || t == MAIN
    case Tick => s.ring != []
    case YieldCall => s.ring != []
    case Sleep(_) => CanCall(s) && s.current != MAIN
    case Signal(t) => t in s.th
    case SemP(m) => m in s.sems && (s.sems[m] > 0 || (CanCall(s) && s.current != MAIN))
    case SemV(m) => m in s.sems
    case AtsSignal(t) => t in s.th
    case AtsEnable => CanCall(s)
    case AtsDisable => CanCall(s)
    case ReadCost => CanCall(s)
    case PatternStep => s.ring != [] && s.current != MAIN
  }

  ghost function SemTarget(s: State, m: SemId): Option<Tid>
    requires WF(s)
  {
    if s.ring == [] then None
    else
      ExactlyIn(s.ring, s.th.Keys);
      HandOff(s.th, s.ring[..|s.ring| - 1], m)
  }

  /** Does the step end in thread_yield? */
  ghost predicate Resched(s: State, e: Event)
    requires WF(s) && Enabled(s, e)
  {
    match e
    case Tick => true
    case YieldCall => true
    case Sleep(_) => true
    case Signal(t) => s.th[t].status == Blocked
    case SemP(m) => s.sems[m] <= 0
    case SemV(m) => SemTarget(s, m).Some?
    case PatternStep => PatternYields(s.th[s.current])
    case _ => false
  }

  ghost predicate IsTarget(s: State, e: Event, t: Tid)
    requires WF(s) && Enabled(s, e)
  {
    match e
    case Signal(u) => t == u
    case AtsSignal(u) => t == u
    case SemV(m) => SemTarget(s, m) == Some(t)
    case _ => false
  }

  /** The role of a thread in a step, before the choice of the next thread is known. */
  ghost function PreRole(s: State, e: Event, t: Tid): Role
    requires WF(s) && Enabled(s, e)
  {
    var clock := if e.Tick? then Add32(s.clock, 1) else s.clock;
    Role(t == s.current, IsTarget(s, e, t), e.SemP? && s.sems[e.sem] <= 0, Resched(s, e), false,
         clock, if e.Tick? then s.prev > clock else s.carry, s.lastCost)
  }

  ghost function SemsAfter(s: State, e: Event): map<SemId, i16>
    requires WF(s) && Enabled(s, e)
  {
    match e
    case SemP(m) => if s.sems[m] <= 0 then s.sems else s.sems[m := s.sems[m] - 1]
    case SemV(m) =>
      if SemTarget(s, m).Some? then s.sems else s.sems[m := Inc16(s.sems[m])]
    case SemCreate(m, n) => s.sems[m := n]
    case _ => s.sems
  }

  /** get_current_cost_ticks brings the last-cost mark up to the clock. */
  predicate Accounts(s: State, e: Event) {
    e.ReadCost? || (e.PatternStep? && s.current in s.th && s.th[s.current].pc == Charging)
  }

  ghost predicate Structural(e: Event) {
    e.Create? || e.Remove?
  }

  ghost function Restructure(s: State, e: Event): State
    requires WF(s) && Structural(e)
  {
    match e
    case Create(cfg) =>
      var ring := if s.ring == [] then [MAIN] else s.ring;
      var th := if s.ring == [] then map[MAIN := MAIN_THREAD] else s.th;
      s.(ring := [s.nextTid] + ring, th := th[s.nextTid := NewThread(cfg)], nextTid := s.nextTid + 1)
    case Remove(t) =>
      if t in s.th && t != MAIN
      then s.(ring := Without(s.ring, t), th := map u | u in s.th && u != t :: s.th[u], inIsr := s.inIsr - {t})
      else s
  }

  /** The step without the yield it may end in. */
  ghost function Pre(s: State, e: Event): State
    requires WF(s) && Enabled(s, e)
  {
    if Structural(e) then Restructure(s, e)
    else
      var r := PreRole(s, e, s.current);
      s.(th := map t | t in s.th :: Touch(s.th[t], e, PreRole(s, e, t)),
         time := if e.Tick? then s.time + 1 else s.time, clock := r.clock, carry := r.carry,
         inIsr := if e.Tick? && s.mode.DeferredWrite? then s.inIsr + {s.current} else s.inIsr,
         lastCost := if Accounts(s, e) then Add32(s.lastCost, Sub32(s.clock, s.lastCost)) else s.lastCost,
         sems := SemsAfter(s, e))
  }

  ghost function Step(s: State, e: Event): State
    requires WF(s) && Enabled(s, e)
  {
    PreLinked(s, e);
    var p := Pre(s, e);
    var q := if Resched(s, e) then Yield(p) else p;
    if e.Tick? && s.mode.WholeInterrupt? then q.(prev := q.clock) else q
  }

  lemma WithoutMembers(ring: seq<Tid>, t: Tid, threads: set<Tid>)
    requires t in ring && NoDuplicates(ring) && Exactly(ring, threads)
    ensures Exactly(Without(ring, t), threads - {t})
  {
    var i := IndexOf(ring, t);
    var r := Without(ring, t);
    assert r == ring[..i] + ring[i + 1..];
    forall u ensures Listed(r, threads - {t}, u) {
      assert Listed(ring, threads, u);
      if u in ring && u != t {
        var k := IndexOf(ring, u);
        WithoutAt(ring, t, if k < i then k else k - 1);
        assert r[if k < i then k else k - 1] == u;
      }
      if u in r {
        var j :| 0 <= j < |r| && r[j] == u;
        WithoutAt(ring, t, j);
        assert Differ(ring, i, j + 1) && Differ(ring, j, i);
      }
    }
  }

  lemma WithoutAt(ring: seq<Tid>, t: Tid, j: nat)
    requires t in ring && j < |ring| - 1
    ensures |Without(ring, t)| == |ring| - 1
    ensures Without(ring, t)[j] == ring[if j < IndexOf(ring, t) then j else j + 1]
  {
  }

  lemma WithoutDistinct(ring: seq<Tid>, t: Tid)
    requires t in ring && NoDuplicates(ring)
    ensures NoDuplicates(Without(ring, t))
  {
    var i, r := IndexOf(ring, t), Without(ring, t);
    forall j, k ensures Differ(r, j, k) {
      if 0 <= j < k < |r| {
        WithoutAt(ring, t, j);
        WithoutAt(ring, t, k);
        assert Differ(ring, if j < i then j else j + 1, if k < i then k else k + 1);
      }
    }
  }

  /** thread_remove deletes exactly the requested node and keeps the order of the rest. */
  lemma WithoutKeeps(ring: seq<Tid>, t: Tid)
    requires t in ring && NoDuplicates(ring) && ring[|ring| - 1] != t
    ensures var r := Without(ring, t);
      && |r| == |ring| - 1 && NoDuplicates(r) && r[|r| - 1] == ring[|ring| - 1]
      && exists i :: 0 <= i < |ring| && ring[i] == t && r[..i] == ring[..i] && r[i..] == ring[i + 1..]
  {
    WithoutDistinct(ring, t);
    var i := IndexOf(ring, t);
    var r := Without(ring, t);
    assert r[..i] == ring[..i] && r[i..] == ring[i + 1..];
  }

  lemma AheadKeeps(ring: seq<Tid>, t: Tid, threads: set<Tid>)
    requires NoDuplicates(ring) && Exactly(ring, threads) && t !in threads
    ensures NoDuplicates([t] + ring) && Exactly([t] + ring, threads + {t})
  {
    forall u ensures Listed([t] + ring, threads + {t}, u) {
      assert Listed(ring, threads, u);
    }
    assert Listed(ring, threads, t);
    forall j, k ensures Differ([t] + ring, j, k) {
      assert Differ(ring, j - 1, k - 1);
    }
  }

  lemma CreateLinked(s: State, cfg: Config)
    requires WF(s)
    ensures Linked(Restructure(s, Create(cfg)))
  {
    var ring := if s.ring == [] then [MAIN] else s.ring;
    var threads := if s.ring == [] then {MAIN} else s.th.Keys;
    assert s.nextTid !in threads by {
      assert s.nextTid in s.th ==> ThreadOk(s, s.nextTid);
    }
    AheadKeeps(ring, s.nextTid, threads);
    assert Restructure(s, Create(cfg)).th.Keys == threads + {s.nextTid};
  }

  /** The list stays well formed even if the running thread removes itself; that only
      leaves the processor with a thread that is no longer listed. */
  lemma RemoveLinked(s: State, t: Tid)
    requires WF(s) && s.ring != []
    ensures var n := Restructure(s, Remove(t));
      && Queue(n.ring, n.th.Keys) && MAIN in n.th
      && (n.current in n.th <==> t != s.current || t == MAIN)
  {
    if t in s.th && t != MAIN {
      assert Listed(s.ring, s.th.Keys, t);
      WithoutKeeps(s.ring, t);
      WithoutMembers(s.ring, t, s.th.Keys);
      assert Restructure(s, Remove(t)).th.Keys == s.th.Keys - {t};
    }
  }

  lemma PreLinked(s: State, e: Event)
    requires WF(s) && Enabled(s, e)
    ensures Pre(s, e).ring != [] ==> Linked(Pre(s, e))
    ensures s.ring != [] ==> Pre(s, e).ring != []
    ensures Resched(s, e) ==> s.ring != []
  {
    if e.Create? {
      CreateLinked(s, e.config);
    } else if e.Remove? {
      if s.ring != [] {
        RemoveLinked(s, e.target);
      }
    } else {
      assert Pre(s, e).th.Keys == s.th.Keys;
    }
  }
}
