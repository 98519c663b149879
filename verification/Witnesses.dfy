/** Runs that reach the rare failures: a deadline that is never met, a sleep cut short, and
    a signal that is refused although it keeps its distance. One thread beside main is
    enough for each. */
module Witnesses {
  import opened Words
  import opened KernelModel
  import opened KernelRuns
  import opened CarryProofs
  import opened SleepProofs
  import opened SeparationProofs
  import opened SignalProofs

  // ---------------------------------------------------------------- runs in the making

  function Last(r: Run): State
    requires |r.states| == |r.events| + 1
  {
    r.states[|r.events|]
  }

  /** q goes on from r, without a signal. */
  ghost predicate Quietly(r: Run, q: Run) {
    && IsRun(r) && IsRun(q) && r.states <= q.states && r.events <= q.events
    && forall l :: |r.events| <= l < |q.events| ==> !q.events[l].Signal?
  }

  lemma QuietlyOn(r: Run, q: Run, p: Run)
    requires Quietly(r, q) && Quietly(q, p)
    ensures Quietly(r, p)
  {
    forall l | |r.events| <= l < |p.events| ensures !p.events[l].Signal? {
      assert l < |q.events| ==> p.events[l] == q.events[l];
    }
  }

  /** One more step. */
  lemma Do(r: Run, e: Event) returns (q: Run)
    requires IsRun(r) && Enabled(Last(r), e)
    ensures IsRun(q) && q.events == r.events + [e] && r.states <= q.states
    ensures WF(Last(r)) && Last(q) == Step(Last(r), e) && WF(Last(q))
    ensures !e.Signal? ==> Quietly(r, q)
  {
    RunWf(r, |r.events|);
    var n := Step(Last(r), e);
    RunExtends(r, Last(r), e, n);
    q := Extended(r, e, n);
    RunWf(q, |q.events|);
  }

  // ---------------------------------------------------------------- main alone

  ghost predicate Alone(s: State) {
    WF(s) && s.ring == [MAIN] && s.current == MAIN && s.inIsr == {} && s.prev == s.clock && s.nextTid == 2
  }

  lemma AloneNext(s: State)
    requires Linked(s) && s.ring == [MAIN] && s.current == MAIN
    ensures Next(s) == MAIN
  {
    ExactlyIn(s.ring, s.th.Keys);
    assert VisitOrder(s.ring, MAIN) == [MAIN];
  }

  lemma AloneTick(s: State)
    requires Alone(s)
    ensures Alone(Step(s, Tick)) && Step(s, Tick).time == s.time + 1 && Step(s, Tick).mode == s.mode
  {
    PreLinked(s, Tick);
    StepWf(s, Tick);
    StepFrame(s, Tick);
    AloneNext(Pre(s, Tick));
    IsrStep(s, Tick);
  }

  /** A thread is created and removed, which brings main with it; then main runs alone. */
  lemma {:induction false} IdleUntil(mode: IsrMode, cfg: Config, time: nat) returns (r: Run)
    ensures IsRun(r) && Alone(Last(r)) && Last(r).time == time && Last(r).mode == mode
  {
    if time == 0 {
      r := Run([Boot(mode)], []);
      r := Do(r, Create(cfg));
      r := Do(r, Remove(1));
    } else {
      r := IdleUntil(mode, cfg, time - 1);
      AloneTick(Last(r));
      r := Do(r, Tick);
    }
  }

  // ---------------------------------------------------------------- main and one thread

  ghost predicate Pair(s: State, t: Tid) {
    WF(s) && s.ring == [t, MAIN] && t != MAIN && t in s.th && s.nextTid == t + 1 <= 3
  }

  /** But for cost, priority and asynchronous signals, y is x. */
  ghost predicate SameCore(x: Thread, y: Thread) {
    && x == y.(priority := x.priority, cost := x.cost, atsPending := x.atsPending)
    && (x.priority >= NORM_PRIO ==> y.priority >= NORM_PRIO)
  }

  predicate Ready(x: Thread) {
    x.status == Active && x.priority >= NORM_PRIO
  }

  lemma PairNext(s: State, t: Tid)
    requires Linked(s) && s.ring == [t, MAIN] && t != MAIN && MainOk(s.th[MAIN])
    ensures t in s.th
    ensures Next(s) == if s.current == MAIN && Ready(Wake(s.th[t], s.clock, s.carry)) then t else MAIN
  {
    ExactlyIn(s.ring, s.th.Keys);
    var th := Scanned(s);
    if s.current == MAIN {
      assert VisitOrder(s.ring, MAIN) == [t, MAIN];
      assert [t, MAIN][..1] == [t];
      assert Choose(th, MAIN, [t]) == if Ready(th[t]) then t else MAIN;
    } else {
      assert s.ring[0] == t && VisitOrder(s.ring, t) == [MAIN, t];
      assert [MAIN, t][..1] == [MAIN];
      assert Choose(th, t, [MAIN]) == MAIN;
    }
  }

  /** The thread's record as the call leaves it, before the yield the call may end in. */
  ghost function Touched(s: State, e: Event, t: Tid): Thread
    requires WF(s) && Enabled(s, e) && t in s.th
  {
    Touch(s.th[t], e, PreRole(s, e, t))
  }

  ghost predicate PairMoves(s: State, e: Event, t: Tid, n: State)
    requires WF(s) && Enabled(s, e) && t in s.th && t in n.th
  {
    var x := Touched(s, e, t);
    && SameCore(if Resched(s, e) then Wake(x, n.clock, n.carry) else x, n.th[t])
    && n.current == (if !Resched(s, e) then s.current
                     else if s.current == MAIN && Ready(Wake(x, n.clock, n.carry)) then t else MAIN)
  }

  lemma PairKept(s: State, e: Event, t: Tid)
    requires Pair(s, t) && Enabled(s, e) && !Structural(e)
    ensures var n := Step(s, e);
      Pair(n, t) && n.time == (if e.Tick? then s.time + 1 else s.time) && n.mode == s.mode
  {
    StepWf(s, e);
    StepFrame(s, e);
  }

  lemma SettleCore(x: Thread, r: Role)
    ensures SameCore(Wake(x, r.clock, r.carry), Settle(x, r))
  {
  }

  lemma PairRecord(s: State, e: Event, t: Tid)
    requires Pair(s, t) && Enabled(s, e) && !Structural(e)
    ensures t in Step(s, e).th
    ensures var n := Step(s, e); var x := Touched(s, e, t);
      SameCore(if Resched(s, e) then Wake(x, n.clock, n.carry) else x, n.th[t])
  {
    ThreadStep(s, e, t);
    PreThread(s, e, t);
    TouchRole(s.th[t], e, PreRole(s, e, t), RoleOf(s, e, t).next);
    SettleCore(Touched(s, e, t), RoleOf(s, e, t));
    PreLinked(s, e);
  }

  lemma PairCurrent(s: State, e: Event, t: Tid)
    requires Pair(s, t) && Enabled(s, e) && !Structural(e)
    ensures var n := Step(s, e); var x := Touched(s, e, t);
      n.current == (if !Resched(s, e) then s.current
                    else if s.current == MAIN && Ready(Wake(x, n.clock, n.carry)) then t else MAIN)
  {
    ThreadStep(s, e, t);
    PreThread(s, e, t);
    PreLinked(s, e);
    if Resched(s, e) {
      MainStep(s, e);
      PairNext(Pre(s, e), t);
    }
  }

  /** One call. */
  lemma Go(r: Run, e: Event, t: Tid) returns (q: Run)
    requires IsRun(r) && Pair(Last(r), t) && Enabled(Last(r), e) && !Structural(e)
    ensures IsRun(q) && q.events == r.events + [e] && r.states <= q.states && Last(q) == Step(Last(r), e)
    ensures Pair(Last(q), t) && PairMoves(Last(r), e, t, Last(q)) && Last(q).mode == Last(r).mode
    ensures Last(q).time == if e.Tick? then Last(r).time + 1 else Last(r).time
    ensures !e.Signal? ==> Quietly(r, q)
  {
    q := Do(r, e);
    PairKept(Last(r), e, t);
    PairRecord(Last(r), e, t);
    PairCurrent(Last(r), e, t);
  }

  // ---------------------------------------------------------------- a thread gets going

  /** What the creation call fixed. */
  ghost predicate Configured(x: Thread, cfg: Config) {
    && x.pattern == cfg.pattern && x.minPeriod == NewThread(cfg).minPeriod && x.mitPolicy == NewThread(cfg).mitPolicy
    && x.queueMax == NewThread(cfg).queueMax && x.priority >= NORM_PRIO && x.waitsOn.None?
  }

  /** The thread has the processor and is ready to execute the statement pc. */
  ghost predicate Running(s: State, t: Tid, pc: Pc, cfg: Config) {
    Pair(s, t) && s.current == t && s.th[t].status == Active && s.th[t].pc == pc && Configured(s.th[t], cfg)
  }

  lemma Created(s: State, cfg: Config)
    requires WF(s) && (s == Boot(s.mode) || Alone(s)) && cfg.priority >= NORM_PRIO
    ensures var n := Step(s, Create(cfg));
      && Pair(n, s.nextTid) && n.current == MAIN && n.time == s.time && n.mode == s.mode
      && n.th[s.nextTid] == NewThread(cfg)
      && n.inIsr == s.inIsr && n.prev == s.prev
  {
    StepWf(s, Create(cfg));
    StepThreads(s, Create(cfg), s.nextTid);
  }

  predicate SameArrivals(x: Thread, y: Thread) {
    x.pending == y.pending && x.lastInput == y.lastInput
  }

  /** The time, the mode and what the interrupt left behind. */
  predicate SameClock(s: State, n: State) {
    && n.time == s.time && n.clock == s.clock && n.mode == s.mode
    && n.inIsr == s.inIsr && n.prev == s.prev && n.carry == s.carry
  }

  lemma RunReaches(r: Run)
    requires IsRun(r)
    ensures WF(Last(r)) && Last(r).clock == Word(Last(r).time)
    ensures Last(r).mode.WholeInterrupt? ==> Last(r).inIsr == {}
  {
    RunWf(r, |r.events|);
    MarkedRun(r, |r.events|);
  }

  /** A call other than a tick, with no thread inside the interrupt to be resumed. */
  lemma CallClock(s: State, e: Event)
    requires WF(s) && Enabled(s, e) && !Structural(e) && !e.Tick? && s.ring != []
    requires !Resched(s, e) || s.inIsr == {}
    requires s.mode.WholeInterrupt? ==> s.inIsr == {}
    ensures SameClock(s, Step(s, e))
  {
    IsrStep(s, e);
    ClockStep(s, e);
  }

  function NextPc(pc: Pc): Pc {
    match pc
    case Gate => Stamp
    case Stamp => Reset
    case Reset => Executor
    case Executor => Charging
    case Charging => Handlers
    case _ => Gate
  }

  /** The statements of a cycle that go straight on. */
  predicate Straight(x: Thread) {
    x.pc in {Stamp, Reset, Executor, Charging, Decrement} || (x.pc == Gate && GateOpen(x))
  }

  /** The record after one of them. */
  ghost predicate Advanced(x: Thread, y: Thread, clock: u32) {
    && y.status == x.status && y.pc == NextPc(x.pc) && y.lastInput == x.lastInput
    && y.pending == (if x.pc == Decrement then Dec32(x.pending) else x.pending)
    && y.counter == (if x.pc == Stamp then clock else x.counter)
    && y.ticksAux == (if x.pc == Executor then clock else x.ticksAux)
  }

  lemma AdvanceRecord(x: Thread, y: Thread, clock: u32, lastCost: u32, cfg: Config)
    requires Straight(x) && SameCore(PatternPre(x, clock, lastCost), y) && Configured(x, cfg)
    ensures Advanced(x, y, clock) && Configured(y, cfg)
  {
  }

  lemma Straightforward(r: Run, t: Tid, cfg: Config) returns (q: Run)
    requires IsRun(r) && Pair(Last(r), t) && Last(r).current == t && Last(r).th[t].status == Active
    requires Straight(Last(r).th[t]) && Configured(Last(r).th[t], cfg)
    ensures Quietly(r, q) && Running(Last(q), t, NextPc(Last(r).th[t].pc), cfg) && SameClock(Last(r), Last(q))
    ensures Advanced(Last(r).th[t], Last(q).th[t], Last(r).clock)
  {
    RunReaches(r);
    q := Go(r, PatternStep, t);
    CallClock(Last(r), PatternStep);
    StraightMoves(Last(r), t, Last(q), cfg);
  }

  lemma StraightMoves(s: State, t: Tid, n: State, cfg: Config)
    requires Pair(s, t) && s.current == t && t in n.th && PairMoves(s, PatternStep, t, n)
    requires Straight(s.th[t]) && Configured(s.th[t], cfg)
    ensures Advanced(s.th[t], n.th[t], s.clock) && Configured(n.th[t], cfg) && n.current == t
  {
    AdvanceRecord(s.th[t], n.th[t], s.clock, s.lastCost, cfg);
  }

  /** Through an open gate into the executor. */
  lemma ToExecutor(r: Run, t: Tid, cfg: Config) returns (q: Run)
    requires IsRun(r) && Running(Last(r), t, Gate, cfg) && GateOpen(Last(r).th[t])
    ensures Quietly(r, q) && Running(Last(q), t, Executor, cfg) && SameArrivals(Last(q).th[t], Last(r).th[t])
    ensures SameClock(Last(r), Last(q)) && Last(q).th[t].counter == Last(q).clock
  {
    var r1 := Straightforward(r, t, cfg);
    var r2 := Straightforward(r1, t, cfg);
    q := Straightforward(r2, t, cfg);
    QuietlyOn(r, r1, r2);
    QuietlyOn(r, r2, q);
  }

  /** The main thread yields to a ready thread. */
  lemma MainYields(r: Run, t: Tid) returns (q: Run)
    requires IsRun(r) && Pair(Last(r), t) && Last(r).current == MAIN && Ready(Last(r).th[t])
    ensures Quietly(r, q) && Pair(Last(q), t) && Last(q).current == t && SameCore(Last(r).th[t], Last(q).th[t])
    ensures Last(q).time == Last(r).time && Last(q).mode == Last(r).mode
    ensures Last(q).carry == Last(r).carry && Last(q).clock == Last(r).clock
    ensures Last(q).inIsr == Last(r).inIsr - {t}
    ensures Last(q).prev == if t in Last(r).inIsr then Last(r).clock else Last(r).prev
  {
    RunReaches(r);
    IsrStep(Last(r), YieldCall);
    ClockStep(Last(r), YieldCall);
    q := Go(r, YieldCall, t);
  }

  // ---------------------------------------------------------------- from its creation to its gate

  /** t is created in the first step of q after r. */
  ghost predicate Births(r: Run, q: Run, t: Tid) {
    && |r.states| == |r.events| + 1 <= |q.events| && |q.states| == |q.events| + 1
    && t == Last(r).nextTid && t in q.states[|r.events| + 1].th
  }

  lemma Start1(r: Run, cfg: Config) returns (q: Run, t: Tid)
    requires IsRun(r) && (Last(r) == Boot(Last(r).mode) || Alone(Last(r)))
    requires cfg.priority >= NORM_PRIO && cfg.offsetUs < TICK_US
    ensures Quietly(r, q) && Pair(Last(q), t) && Last(q).current == t && SameCore(NewThread(cfg), Last(q).th[t])
    ensures Last(q).time == Last(r).time && Last(q).mode == Last(r).mode
    ensures Last(q).inIsr == {} && Last(q).prev == Last(r).prev
    ensures Births(r, q, t)
  {
    t := Last(r).nextTid;
    RunReaches(r);
    Created(Last(r), cfg);
    var r1 := Do(r, Create(cfg));
    q := MainYields(r1, t);
    QuietlyOn(r, r1, q);
  }

  /** The offset of 0: asleep, and main has the processor. */
  lemma Start2(r: Run, t: Tid, cfg: Config) returns (q: Run)
    requires IsRun(r) && Pair(Last(r), t) && Last(r).current == t && SameCore(NewThread(cfg), Last(r).th[t])
    requires cfg.priority >= NORM_PRIO && cfg.offsetUs < TICK_US && Last(r).inIsr == {}
    ensures Quietly(r, q) && Pair(Last(q), t) && Last(q).current == MAIN && Last(q).time == Last(r).time
    ensures Last(q).mode == Last(r).mode && Last(q).inIsr == {} && Last(q).prev == Last(r).prev
    ensures var x := Last(q).th[t];
      && x.status == Slept && x.pc == Gate && x.ticksToWait == Last(q).clock && !x.carryWait
      && Configured(x, cfg) && SameArrivals(x, NewThread(cfg))
  {
    RunReaches(r);
    CallClock(Last(r), PatternStep);
    var r1 := Go(r, PatternStep, t);
    assert Last(r1).current == t && SameCore(NewThread(cfg).(pc := Offset), Last(r1).th[t]);
    q := FallsAsleep(r1, t);
    assert NewThread(cfg).offset == 0;
    QuietlyOn(r, r1, q);
  }

  /** tick_sleep of the offset, when that is 0. */
  lemma FallsAsleep(r: Run, t: Tid) returns (q: Run)
    requires IsRun(r) && Pair(Last(r), t) && Last(r).current == t && Last(r).inIsr == {}
    requires Last(r).th[t].pc == Offset && Last(r).th[t].offset == 0
    ensures Quietly(r, q) && Pair(Last(q), t) && Last(q).current == MAIN && SameClock(Last(r), Last(q))
    ensures SameCore(Last(r).th[t].(status := Slept, ticksToWait := Last(r).clock, carryWait := false, pc := Gate),
                     Last(q).th[t])
  {
    RunReaches(r);
    CallClock(Last(r), PatternStep);
    q := Go(r, PatternStep, t);
  }

  /** A tick past the deadline brings the sleeper to the processor. */
  lemma TickWakes(r: Run, t: Tid) returns (q: Run)
    requires IsRun(r) && Pair(Last(r), t) && Last(r).current == MAIN && Last(r).clock < LAST_WORD
    requires Last(r).th[t].status == Slept && !Last(r).th[t].carryWait && Last(r).th[t].priority >= NORM_PRIO
    requires Last(r).th[t].ticksToWait == Last(r).clock
    ensures Quietly(r, q) && Pair(Last(q), t) && Last(q).current == t
    ensures SameCore(Last(r).th[t].(status := Active), Last(q).th[t])
    ensures Last(q).time == Last(r).time + 1 && Last(q).mode == Last(r).mode
    ensures Last(q).mode.DeferredWrite? && Last(r).inIsr == {} ==>
      Last(q).inIsr == {MAIN} && Last(q).prev == Last(r).prev
  {
    RunReaches(r);
    ClockStep(Last(r), Tick);
    q := Go(r, Tick, t);
    if Last(r).mode.DeferredWrite? && Last(r).inIsr == {} { TickIntoThread(Last(r), t); }
  }

  /** A tick that preempts main with the write deferred. */
  lemma TickIntoThread(s: State, t: Tid)
    requires Pair(s, t) && s.mode.DeferredWrite? && s.current == MAIN && s.inIsr == {} && Step(s, Tick).current == t
    ensures Step(s, Tick).inIsr == {MAIN} && Step(s, Tick).prev == s.prev
  {
    IsrStep(s, Tick);
  }

  /** From its creation a thread without offset comes to its gate within a tick. */
  lemma StartUp(r: Run, cfg: Config) returns (q: Run, t: Tid)
    requires IsRun(r) && (Last(r) == Boot(Last(r).mode) || Alone(Last(r))) && Last(r).clock < LAST_WORD
    requires cfg.priority >= NORM_PRIO && cfg.offsetUs < TICK_US
    ensures Quietly(r, q) && Running(Last(q), t, Gate, cfg) && SameArrivals(Last(q).th[t], NewThread(cfg))
    ensures Last(q).time == Last(r).time + 1 && Last(q).mode == Last(r).mode
    ensures Last(q).mode.DeferredWrite? ==> Last(q).inIsr == {MAIN} && Last(q).prev == Last(r).prev
    ensures Births(r, q, t)
  {
    var r1, r2;
    r1, t := Start1(r, cfg);
    r2 := Start2(r1, t, cfg);
    RunReaches(r);
    RunReaches(r2);
    q := TickWakes(r2, t);
    QuietlyOn(r, r1, r2);
    QuietlyOn(r, r2, q);
  }

  // ---------------------------------------------------------------- the deadline that is never met

  /** A sleep from time 1 to the last value of the counter, in either mode: by
      SleepRefinesClock the thread sleeps for ever. */
  lemma ResidueReached(mode: IsrMode, cfg: Config) returns (r: Run, i: nat, t: Tid)
    requires cfg.priority >= NORM_PRIO && cfg.offsetUs < TICK_US && cfg.pattern == Periodic
    ensures SleepOf(r, i, i + 1, t, 0xFFFF_FFFE) && r.states[i].mode == mode
    ensures r.states[i].time == 1 && Word(r.states[i].time + 0xFFFF_FFFE) == LAST_WORD
    ensures !CutShort(r.states[i], 0xFFFF_FFFE)
  {
    var r0 := Run([Boot(mode)], []);
    var r1;
    r1, t := StartUp(r0, cfg);
    var r2 := ToExecutor(r1, t, cfg);
    i := |r2.events|;
    r := GoesToSleep(r2, t, 0xFFFF_FFFE);
  }

  /** The executor calls tick_sleep. */
  lemma GoesToSleep(r: Run, t: Tid, ticks: u32) returns (q: Run)
    requires IsRun(r) && Pair(Last(r), t) && Last(r).current == t && Last(r).th[t].pc == Executor
    ensures SleepOf(q, |r.events|, |r.events| + 1, t, ticks) && r.states <= q.states && |q.events| == |r.events| + 1
    ensures q.states[|r.events|] == Last(r) && q.states[|r.events| + 1].nextTid <= 3
    ensures CutShort(Last(r), ticks) ==> Last(q).th[t].status == Active
  {
    q := Go(r, Sleep(ticks), t);
    assert q.states[|r.events|] == Last(r) && PutsToSleep(Last(r), Sleep(ticks), ticks);
    SleepBegins(q, |r.events|, t, ticks);
  }

  // ---------------------------------------------------------------- the sleep that is cut short

  /** A tick that preempts the thread in its executor and resumes main inside the interrupt,
      which writes tick_counter_previous at last. */
  lemma TickToMain(r: Run, t: Tid) returns (q: Run)
    requires IsRun(r) && Pair(Last(r), t) && Last(r).mode.DeferredWrite? && Last(r).current == t
    requires Last(r).th[t].status == Active
    ensures Quietly(r, q) && Pair(Last(q), t) && Last(q).current == MAIN && SameCore(Last(r).th[t], Last(q).th[t])
    ensures Last(q).time == Last(r).time + 1 && Last(q).mode == Last(r).mode
    ensures Last(q).carry == (Last(r).prev > Last(q).clock)
    ensures Last(q).inIsr == Last(r).inIsr + {t} - {MAIN}
    ensures Last(q).prev == if MAIN in Last(r).inIsr then Last(q).clock else Last(r).prev
  {
    RunReaches(r);
    IsrStep(Last(r), Tick);
    q := Go(r, Tick, t);
  }

  /** And back. */
  lemma TickToThread(r: Run, t: Tid) returns (q: Run)
    requires IsRun(r) && Pair(Last(r), t) && Last(r).mode.DeferredWrite? && Last(r).current == MAIN
    requires Ready(Last(r).th[t])
    ensures Quietly(r, q) && Pair(Last(q), t) && Last(q).current == t && SameCore(Last(r).th[t], Last(q).th[t])
    ensures Last(q).time == Last(r).time + 1 && Last(q).mode == Last(r).mode
    ensures Last(q).carry == (Last(r).prev > Last(q).clock)
  {
    RunReaches(r);
    IsrStep(Last(r), Tick);
    q := Go(r, Tick, t);
  }

  /** The thread is in its executor when the counter is about to wrap, and nobody is inside
      the interrupt. */
  lemma BeforeWrap(cfg: Config) returns (r: Run, t: Tid)
    requires cfg.priority >= NORM_PRIO && cfg.offsetUs < TICK_US && cfg.pattern == Periodic
    ensures IsRun(r) && Running(Last(r), t, Executor, cfg) && Last(r).mode.DeferredWrite?
    ensures Last(r).time == 0xFFFF_FFFF && Last(r).inIsr == {} && Last(r).prev == 0xFFFF_FFFF
  {
    var r0 := IdleUntil(DeferredWrite, cfg, 0xFFFF_FFFD);
    RunReaches(r0);
    var r1;
    r1, t := StartUp(r0, cfg);
    var r2 := ToExecutor(r1, t, cfg);
    var r3 := TickToMain(r2, t);
    RunReaches(r3);
    r := MainYields(r3, t);
  }

  /** With the deferred write a sleep of 2^32 - 1 ticks, begun one tick after a wrap while
      the flag is still up, is over at once. */
  lemma CutShortReached(cfg: Config) returns (r: Run, i: nat, t: Tid)
    requires cfg.priority >= NORM_PRIO && cfg.offsetUs < TICK_US && cfg.pattern == Periodic
    ensures SleepOf(r, i, i + 1, t, 0xFFFF_FFFF) && CutShort(r.states[i], 0xFFFF_FFFF)
    ensures r.states[i + 1].th[t].status == Active && Margin(r.states[i + 1]) < 0x1_0000_0000
  {
    var r1;
    r1, t := BeforeWrap(cfg);
    var r2 := TickToMain(r1, t);
    RunReaches(r2);
    var r3 := TickToThread(r2, t);
    RunReaches(r3);
    r := GoesToSleep(r3, t, 0xFFFF_FFFF);
    i := |r3.events|;
  }

  // ---------------------------------------------------------------- time passes

  /** A tick with the thread ready: it or main has the processor. */
  lemma TickEither(r: Run, t: Tid) returns (q: Run)
    requires IsRun(r) && Pair(Last(r), t) && Last(r).th[t].status == Active
    ensures Quietly(r, q) && Pair(Last(q), t) && SameCore(Last(r).th[t], Last(q).th[t])
    ensures Last(q).time == Last(r).time + 1 && Last(q).current in {t, MAIN}
  {
    q := Go(r, Tick, t);
  }

  lemma {:induction false} TicksPass(r: Run, t: Tid, n: nat) returns (q: Run)
    requires IsRun(r) && Pair(Last(r), t) && Last(r).th[t].status == Active && Last(r).current in {t, MAIN}
    ensures Quietly(r, q) && Pair(Last(q), t) && SameCore(Last(r).th[t], Last(q).th[t])
    ensures Last(q).time == Last(r).time + n && Last(q).current in {t, MAIN}
    decreases n
  {
    if n == 0 {
      q := r;
    } else {
      var p := TicksPass(r, t, n - 1);
      q := TickEither(p, t);
      QuietlyOn(r, p, q);
    }
  }

  /** n ticks later the thread has the processor, at the same statement. */
  lemma LaterAtHand(r: Run, t: Tid, pc: Pc, cfg: Config, n: nat) returns (q: Run)
    requires IsRun(r) && Running(Last(r), t, pc, cfg)
    ensures Quietly(r, q) && Running(Last(q), t, pc, cfg) && Last(q).time == Last(r).time + n
    ensures SameCore(Last(r).th[t], Last(q).th[t])
  {
    var p := TicksPass(r, t, n);
    q := p;
    if Last(p).current == MAIN {
      q := MainYields(p, t);
      QuietlyOn(r, p, q);
    }
  }

  // ---------------------------------------------------------------- the cycle that overruns

  /** A cycle of 2 ticks with a period of 1, in either mode: by OverrunSleeps the thread
      then sleeps for 2^32 - 1 ticks. */
  lemma OverrunReached(mode: IsrMode, cfg: Config) returns (r: Run, h: nat, t: Tid)
    requires cfg.priority >= NORM_PRIO && cfg.offsetUs < TICK_US && cfg.pattern == Periodic
    requires cfg.periodUs == TICK_US
    ensures IsRun(r) && h + 1 == |r.events| && t != MAIN && t in Last(r).th && FewThreads(Last(r))
    ensures Statement(r.states[h], r.events[h], t, Handlers) && r.states[h].th[t].pattern == Periodic
    ensures LogAt(r, t, h).start == Some(1) && LogAt(r, t, h).read == 3 && r.states[h].th[t].minPeriod == 1
    ensures !CutShort(r.states[h], 0xFFFF_FFFF)
  {
    var r0 := Run([Boot(mode)], []);
    var r1;
    r1, t := StartUp(r0, cfg);
    var r2 := ToExecutor(r1, t, cfg);
    RunReaches(r2);
    var r3 := LaterAtHand(r2, t, Executor, cfg, 2);
    RunReaches(r3);
    r, h := OverrunEnds(r3, t, cfg);
  }

  lemma OverrunEnds(r: Run, t: Tid, cfg: Config) returns (q: Run, h: nat)
    requires IsRun(r) && Running(Last(r), t, Executor, cfg) && Last(r).time == 3 && Last(r).th[t].counter == 1
    requires cfg.pattern == Periodic && cfg.periodUs == TICK_US
    ensures IsRun(q) && h + 1 == |q.events| && t != MAIN && t in Last(q).th && FewThreads(Last(q))
    ensures Statement(q.states[h], q.events[h], t, Handlers) && q.states[h].th[t].pattern == Periodic
    ensures LogAt(q, t, h).start == Some(1) && LogAt(q, t, h).read == 3 && q.states[h].th[t].minPeriod == 1
    ensures !CutShort(q.states[h], 0xFFFF_FFFF)
  {
    RunReaches(r);
    var r4 := Straightforward(r, t, cfg);
    RunReaches(r4);
    var r5 := Straightforward(r4, t, cfg);
    h := |r5.events|;
    q := AtHandlers(r5, t, cfg);
    OverrunLogged(q, h, t);
  }

  /** The statement that goes to sleep after the handlers. */
  lemma AtHandlers(r: Run, t: Tid, cfg: Config) returns (q: Run)
    requires IsRun(r) && Running(Last(r), t, Handlers, cfg)
    ensures IsRun(q) && q.events == r.events + [PatternStep] && q.states[|r.events|] == Last(r)
    ensures t in Last(q).th && FewThreads(Last(q))
  {
    q := Go(r, PatternStep, t);
  }

  lemma OverrunLogged(r: Run, h: nat, t: Tid)
    requires IsRun(r) && h < |r.events| && Pair(r.states[h], t) && r.states[h].time == 3
    requires var x := r.states[h].th[t]; x.pc == Handlers && x.pattern == Periodic && x.counter == 1 && x.ticksAux == 3
    ensures LogAt(r, t, h).start == Some(1) && LogAt(r, t, h).read == 3 && !CutShort(r.states[h], 0xFFFF_FFFF)
  {
    CycleRun(r, t, h);
    MarkedRun(r, h);
    var log := LogAt(r, t, h);
    WordSmall(log.start.value);
    WordSmall(log.read);
    ShortTime(r, h);
  }

  /** Before the first wrap the carry flag is down. */
  lemma {:induction false} ShortTime(r: Run, i: nat)
    requires IsRun(r) && i < |r.states| && r.states[i].time < 0x1_0000_0000
    ensures !r.states[i].carry
  {
    if i > 0 {
      IdsGrow(r, i - 1, i);
      ShortTime(r, i - 1);
      RunGoes(r, i - 1);
      LaggingRun(r, i - 1);
      ShortStep(r.states[i - 1], r.events[i - 1]);
    }
  }

  lemma ShortStep(s: State, e: Event)
    requires WF(s) && Enabled(s, e) && Lagging(s) && !s.carry && Step(s, e).time < 0x1_0000_0000
    ensures !Step(s, e).carry
  {
    ClockStep(s, e);
    CarryStep(s, e);
  }

  // ---------------------------------------------------------------- a sporadic thread

  function Period(cfg: Config): nat {
    cfg.periodUs / TICK_US
  }

  ghost predicate Sporadically(cfg: Config) {
    && cfg.pattern == Sporadic && Period(cfg) > 0 && cfg.offsetUs < TICK_US
    && cfg.priority >= NORM_PRIO && cfg.queueMax < 0x8000_0000
  }

  /** The queue fields, and where the thread stands. */
  ghost predicate Waits(s: State, t: Tid, cfg: Config, status: Status, pc: Pc, pending: i32, last: u32) {
    && Pair(s, t) && s.current == MAIN && Configured(s.th[t], cfg)
    && s.th[t].status == status && s.th[t].pc == pc && s.th[t].pending == pending && s.th[t].lastInput == last
  }

  /** The field after a scan has seen the thread blocked. */
  function Aged(last: u32, clock: u32, p: u32): u32 {
    if Add32(last, Add32(p, p)) < clock then Add32(last, p) else last
  }

  lemma GateCloses(r: Run, t: Tid, cfg: Config) returns (q: Run)
    requires IsRun(r) && Running(Last(r), t, Gate, cfg) && Sporadically(cfg) && Last(r).th[t].pending == 0
    ensures Quietly(r, q) && Last(q).time == Last(r).time
    ensures Waits(Last(q), t, cfg, Blocked, Gate, 0, Aged(Last(r).th[t].lastInput, Last(r).clock, Period(cfg)))
  {
    RunReaches(r);
    ClockStep(Last(r), PatternStep);
    q := Go(r, PatternStep, t);
    GateMoves(Last(r), t, Last(q), cfg);
  }

  lemma GateMoves(s: State, t: Tid, n: State, cfg: Config)
    requires Running(s, t, Gate, cfg) && Sporadically(cfg) && s.th[t].pending == 0
    requires Pair(n, t) && PairMoves(s, PatternStep, t, n) && n.clock == s.clock
    ensures Waits(n, t, cfg, Blocked, Gate, 0, Aged(s.th[t].lastInput, s.clock, Period(cfg)))
  {
    assert Touched(s, PatternStep, t) == s.th[t].(status := Blocked);
  }

  /** Main yields to nobody, and the scan sees the blocked thread once more. */
  lemma ScanAges(r: Run, t: Tid, cfg: Config, last: u32) returns (q: Run)
    requires IsRun(r) && Waits(Last(r), t, cfg, Blocked, Gate, 0, last) && Sporadically(cfg)
    ensures Quietly(r, q) && Last(q).time == Last(r).time
    ensures Waits(Last(q), t, cfg, Blocked, Gate, 0, Aged(last, Last(r).clock, Period(cfg)))
  {
    ClockStep(Last(r), YieldCall);
    q := Go(r, YieldCall, t);
  }

  /** A signal to the blocked thread, whatever becomes of it. */
  lemma SignalArrives(r: Run, t: Tid, cfg: Config, last: u32) returns (q: Run)
    requires IsRun(r) && Waits(Last(r), t, cfg, Blocked, Gate, 0, last) && Sporadically(cfg)
    ensures IsRun(q) && q.events == r.events + [Signal(t)] && r.states <= q.states && SignalsAt(q, |r.events|, t)
    ensures Last(q).time == Last(r).time && Running(Last(q), t, Gate, cfg)
    ensures SameArrivals(Signalled(Last(r).th[t], Last(r).clock), Last(q).th[t])
  {
    ClockStep(Last(r), Signal(t));
    q := Go(r, Signal(t), t);
  }

  lemma EndsCycle(r: Run, t: Tid, cfg: Config) returns (q: Run)
    requires IsRun(r) && Running(Last(r), t, Handlers, cfg) && Sporadically(cfg)
    requires Last(r).th[t].counter == Last(r).th[t].ticksAux == Last(r).clock < 0x1_0000_0000 - Period(cfg)
    ensures Quietly(r, q) && Last(q).time == Last(r).time && Last(q).th.Keys == Last(r).th.Keys
    ensures Waits(Last(q), t, cfg, Slept, Decrement, Last(r).th[t].pending, Last(r).th[t].lastInput)
    ensures Last(q).th[t].ticksToWait == Last(r).clock + Period(cfg) && !Last(q).th[t].carryWait
  {
    RunReaches(r);
    ClockStep(Last(r), PatternStep);
    StepFrame(Last(r), PatternStep);
    q := Go(r, PatternStep, t);
  }

  /** Ticks before the deadline change nothing. */
  lemma {:induction false} SleepsOn(r: Run, t: Tid, cfg: Config, n: nat) returns (q: Run)
    requires IsRun(r) && Pair(Last(r), t)
    requires Waits(Last(r), t, cfg, Slept, Decrement, Last(r).th[t].pending, Last(r).th[t].lastInput)
    requires !Last(r).th[t].carryWait && Last(r).clock + n <= Last(r).th[t].ticksToWait
    ensures Quietly(r, q) && Last(q).time == Last(r).time + n && t in Last(r).th
    ensures Waits(Last(q), t, cfg, Slept, Decrement, Last(r).th[t].pending, Last(r).th[t].lastInput)
    ensures Last(q).th[t].ticksToWait == Last(r).th[t].ticksToWait && !Last(q).th[t].carryWait
    decreases n
  {
    if n == 0 {
      q := r;
    } else {
      var p := SleepsOn(r, t, cfg, n - 1);
      RunReaches(r);
      RunReaches(p);
      WordNext(Last(r).time, n - 1);
      q := SleepsOneTick(p, t, cfg);
      QuietlyOn(r, p, q);
    }
  }

  lemma WordNext(time: nat, n: nat)
    requires Word(time) + n < 0x1_0000_0000
    ensures Word(time + n) == Word(time) + n
  {
  }

  lemma SleepsOneTick(r: Run, t: Tid, cfg: Config) returns (q: Run)
    requires IsRun(r) && Pair(Last(r), t)
    requires Waits(Last(r), t, cfg, Slept, Decrement, Last(r).th[t].pending, Last(r).th[t].lastInput)
    requires !Last(r).th[t].carryWait && Last(r).clock < Last(r).th[t].ticksToWait
    ensures Quietly(r, q) && Last(q).time == Last(r).time + 1 && t in Last(r).th
    ensures Waits(Last(q), t, cfg, Slept, Decrement, Last(r).th[t].pending, Last(r).th[t].lastInput)
    ensures Last(q).th[t].ticksToWait == Last(r).th[t].ticksToWait && !Last(q).th[t].carryWait
  {
    RunReaches(r);
    ClockStep(Last(r), Tick);
    q := Go(r, Tick, t);
  }

  // ---------------------------------------------------------------- the first signal and its cycle

  /** The thread waits blocked when the first signal comes at time l, and accepts it. */
  lemma FirstSignal(mode: IsrMode, cfg: Config, l: u32) returns (r: Run, i: nat, t: Tid)
    requires Sporadically(cfg) && l >= 1 && (l > Period(cfg) || cfg.mitPolicy % 16 == 1)
    ensures SignalsAt(r, i, t) && Accepts(r.states[i], r.events[i], t) && |r.events| == i + 1
    ensures r.states[i].time == Last(r).time == l && Running(Last(r), t, Gate, cfg)
    ensures Last(r).th[t].pending == 1 && Last(r).th[t].lastInput == l
  {
    var r0 := IdleUntil(mode, cfg, l - 1);
    RunReaches(r0);
    var r1;
    r1, t := StartUp(r0, cfg);
    RunReaches(r1);
    Count32(cfg.queueMax);
    var r2 := GateCloses(r1, t, cfg);
    RunReaches(r2);
    r := SignalArrives(r2, t, cfg, Last(r2).th[t].lastInput);
    i := |r2.events|;
  }

  /** From the gate to the sleep at the end of the cycle, within a tick. */
  lemma OneCycle(r: Run, t: Tid, cfg: Config, l: u32) returns (q: Run)
    requires IsRun(r) && Sporadically(cfg) && Running(Last(r), t, Gate, cfg) && Last(r).time == l
    requires Last(r).th[t].pending == 1 && Last(r).th[t].lastInput == l && l + Period(cfg) < 0x1_0000_0000
    ensures Quietly(r, q) && Waits(Last(q), t, cfg, Slept, Decrement, 1, l) && Last(q).time == l
    ensures Last(q).th[t].ticksToWait == l + Period(cfg) && !Last(q).th[t].carryWait
  {
    RunReaches(r);
    var r1 := ToExecutor(r, t, cfg);
    var r2 := Straightforward(r1, t, cfg);
    var r3 := Straightforward(r2, t, cfg);
    q := EndsCycle(r3, t, cfg);
    QuietlyOn(r, r1, r2);
    QuietlyOn(r, r2, r3);
    QuietlyOn(r, r3, q);
  }

  /** The signal is served, and at time c the thread is at its gate again. */
  lemma Serves(r: Run, t: Tid, cfg: Config, l: u32, c: u32) returns (q: Run)
    requires IsRun(r) && Sporadically(cfg) && Running(Last(r), t, Gate, cfg) && Last(r).time == l
    requires Last(r).th[t].pending == 1 && Last(r).th[t].lastInput == l && l + Period(cfg) < c
    ensures Quietly(r, q) && Running(Last(q), t, Gate, cfg) && Last(q).time == c
    ensures Last(q).th[t].pending == 0 && Last(q).th[t].lastInput == l
  {
    var p := Period(cfg);
    var r4 := OneCycle(r, t, cfg, l);
    RunReaches(r4);
    var r5 := SleepsOn(r4, t, cfg, p);
    RunReaches(r5);
    var r6 := TickWakes(r5, t);
    var r7 := LaterAtHand(r6, t, Decrement, cfg, c - l - p - 1);
    q := Straightforward(r7, t, cfg);
    QuietlyOn(r, r4, r5);
    QuietlyOn(r, r5, r6);
    QuietlyOn(r, r6, r7);
    QuietlyOn(r, r7, q);
  }

  // ---------------------------------------------------------------- ageing into the wrap

  /** The field is aged once too often, but not beyond the clock. */
  predicate Stale(last: u32, c: u32, p: nat) {
    last < c <= last + p
  }

  /** Scan by scan, without room before the wrap. */
  lemma {:induction false} AgesOn(r: Run, t: Tid, cfg: Config, f: u32, c: u32) returns (q: Run, last: u32)
    requires IsRun(r) && Sporadically(cfg) && Last(r).time == c && f + Period(cfg) < c
    requires Waits(Last(r), t, cfg, Blocked, Gate, 0, f) && !Room(f, c, Period(cfg))
    ensures Quietly(r, q) && Waits(Last(q), t, cfg, Blocked, Gate, 0, last) && Last(q).time == c
    ensures Stale(last, c, Period(cfg))
    decreases c - f
  {
    var p := Period(cfg);
    RunReaches(r);
    q := ScanAges(r, t, cfg, f);
    last := f + p;
    if f + 2 * p < 0x1_0000_0000 {
      var q';
      q', last := AgesOn(q, t, cfg, f + p, c);
      QuietlyOn(r, q, q');
      q := q';
    }
  }

  /** From its gate, with the field l, into the wrong. */
  lemma AgesAway(r: Run, t: Tid, cfg: Config, l: u32, c: u32) returns (q: Run, last: u32)
    requires IsRun(r) && Sporadically(cfg) && Running(Last(r), t, Gate, cfg) && Last(r).time == c
    requires Last(r).th[t].pending == 0 && Last(r).th[t].lastInput == l
    requires l + Period(cfg) < c && !Room(l, c, Period(cfg))
    ensures Quietly(r, q) && Waits(Last(q), t, cfg, Blocked, Gate, 0, last) && Last(q).time == c
    ensures Stale(last, c, Period(cfg))
  {
    var p := Period(cfg);
    RunReaches(r);
    q := GateCloses(r, t, cfg);
    last := l + p;
    if l + 2 * p < 0x1_0000_0000 {
      var q';
      q', last := AgesOn(q, t, cfg, l + p, c);
      QuietlyOn(r, q, q');
      q := q';
    }
  }

  // ---------------------------------------------------------------- due, and refused

  /** Between signals the observer's last record stands. */
  lemma {:induction false} RecordStands(r: Run, t: Tid, i: nat, k: nat)
    requires IsRun(r) && i <= k < |r.states| && t != MAIN && t < r.states[i].nextTid && t in r.states[k].th
    requires forall l :: i <= l < k ==> !r.events[l].Signal?
    ensures ArrivalsAt(r, t, k).last == ArrivalsAt(r, t, i).last
    decreases k
  {
    if i < k {
      IdsGrow(r, i, k - 1);
      Alive(r, k - 1, k, t);
      RecordStands(r, t, i, k - 1);
      RunWf(r, k - 1);
      assert GoesAt(r, k - 1);
      WatchNotes(ArrivalsAt(r, t, k - 1), r.states[k - 1], r.events[k - 1], t);
    }
  }

  lemma JustRecorded(r: Run, i: nat, t: Tid)
    requires SignalsAt(r, i, t) && Decide(r.states[i].th[t], r.states[i].clock).record
    ensures ArrivalsAt(r, t, i + 1).last == r.states[i].time && t < r.states[i + 1].nextTid
  {
    RunWf(r, i);
    assert GoesAt(r, i);
    assert ThreadOk(r.states[i], t);
    IdsGrow(r, i, i + 1);
    WatchNotes(ArrivalsAt(r, t, i), r.states[i], r.events[i], t);
  }

  lemma RecordedBefore(r: Run, t: Tid, i: nat, k: nat)
    requires SignalsAt(r, i, t) && Decide(r.states[i].th[t], r.states[i].clock).record
    requires i < k < |r.states| && t in r.states[k].th && forall l :: i < l < k ==> !r.events[l].Signal?
    ensures ArrivalsAt(r, t, k).last == r.states[i].time
  {
    JustRecorded(r, i, t);
    RecordStands(r, t, i + 1, k);
  }

  /** Before the first signal the lap's beginning stands for the last record. */
  lemma NeverRecorded(r: Run, q: Run, t: Tid, k: nat)
    requires IsRun(r) && IsRun(q) && r.states <= q.states && Births(r, q, t) && t != MAIN
    requires |r.events| < k < |q.states| && t in q.states[k].th
    requires forall l :: |r.events| <= l < k ==> !q.events[l].Signal?
    ensures Word(ArrivalsAt(q, t, k).last) == 0
    ensures Lap(ArrivalsAt(q, t, k).last) == Lap(q.states[|r.events| + 1].time)
  {
    var b := |r.events|;
    RunGoes(q, b);
    assert q.states[b] == Last(r);
    assert t in q.states[b].th ==> ThreadOk(q.states[b], t);
    assert ThreadOk(q.states[b + 1], t);
    NothingAccepted(q, t, b + 1);
    RecordStands(q, t, b + 1, k);
  }

  /** Two signals to a sporadic thread, the first accepted at time l, the second at time c in
      the tick in which the field has just been aged once too often. */
  lemma TwoSignals(mode: IsrMode, cfg: Config, l: u32, c: u32) returns (r: Run, i: nat, k: nat, t: Tid)
    requires Sporadically(cfg) && l >= 1 && (l > Period(cfg) || cfg.mitPolicy % 16 == 1)
    requires l + Period(cfg) < c && !Room(l, c, Period(cfg))
    ensures i < k && |r.events| == k + 1 && SignalsAt(r, i, t) && Accepts(r.states[i], r.events[i], t)
    ensures SignalsAt(r, k, t) && forall j :: i < j < k ==> !r.events[j].Signal?
    ensures r.states[i].time == l && r.states[k].time == Last(r).time == c
    ensures Waits(r.states[k], t, cfg, Blocked, Gate, 0, r.states[k].th[t].lastInput)
    ensures Stale(r.states[k].th[t].lastInput, c, Period(cfg))
    ensures Running(Last(r), t, Gate, cfg)
    ensures SameArrivals(Signalled(r.states[k].th[t], r.states[k].clock), Last(r).th[t])
  {
    var r1, r3, last;
    r1, i, t := FirstSignal(mode, cfg, l);
    var r2 := Serves(r1, t, cfg, l, c);
    r3, last := AgesAway(r2, t, cfg, l, c);
    r := SignalArrives(r3, t, cfg, last);
    k := |r3.events|;
    QuietlyOn(r1, r2, r3);
  }

  /** The first signal of all, at time c, to a thread that has waited for it from time c on. */
  lemma OneSignal(mode: IsrMode, cfg: Config, c: u32) returns (r: Run, k: nat, t: Tid)
    requires Sporadically(cfg) && Period(cfg) < c && !Room(0, c, Period(cfg))
    ensures SignalsAt(r, k, t) && r.states[k].time == c && r.states[k].th[t].minPeriod == Period(cfg)
    ensures Stale(r.states[k].th[t].lastInput, c, Period(cfg)) && ArrivalsAt(r, t, k).last == 0
  {
    var r0 := IdleUntil(mode, cfg, c - 1);
    RunReaches(r0);
    var r1, r2, last;
    r1, t := StartUp(r0, cfg);
    r2, last := AgesAway(r1, t, cfg, 0, c);
    r := SignalArrives(r2, t, cfg, last);
    k := |r2.events|;
    QuietlyOn(r0, r1, r2);
    IdsGrow(r, |r0.events| + 1, k);
    NeverRecorded(r0, r, t, k);
    WordSmall(ArrivalsAt(r, t, k).last);
  }

  /** The test on a stale field fails; then only SAVE accepts, and REPLACE records. */
  lemma StaleFails(x: Thread, c: u32, cfg: Config)
    requires Configured(x, cfg) && Sporadically(cfg) && Stale(x.lastInput, c, Period(cfg)) && x.pending == 0
    ensures !MitTest(x, c) && x.minPeriod == Period(cfg)
    ensures cfg.mitPolicy % 16 != 1 ==> !Decide(x, c).accept
    ensures cfg.mitPolicy % 16 == 4 ==> Decide(x, c).record
  {
    Count32(cfg.queueMax);
  }

  /** Why decisions need room before the wrap: for every period, every time l of the last
      recorded arrival and every later time c without room, more than a period after it but
      before the wrap, there is a run in which a signal accepted at l is followed by one at
      c that is due and fails the test, and that is refused unless the policy is SAVE. The
      thread was blocked again before the wrap, and the overflowing sum aged its field by a
      period it had not lived. */
  lemma DueSignalRefused(mode: IsrMode, cfg: Config, l: u32, c: u32) returns (r: Run, i: nat, k: nat, t: Tid)
    requires Sporadically(cfg) && l >= 1 && (l > Period(cfg) || cfg.mitPolicy % 16 == 1)
    requires l + Period(cfg) < c && !Room(l, c, Period(cfg))
    ensures i < k && SignalsAt(r, i, t) && Accepts(r.states[i], r.events[i], t) && r.states[i].time == l
    ensures SignalsAt(r, k, t) && r.states[k].time == c && r.states[k].th[t].minPeriod == Period(cfg)
    ensures ArrivalsAt(r, t, k).last == l && Due(r.states[k].th[t], c, ArrivalsAt(r, t, k))
    ensures !MitTest(r.states[k].th[t], r.states[k].clock)
    ensures cfg.mitPolicy % 16 != 1 ==> !Accepts(r.states[k], r.events[k], t)
  {
    r, i, k, t := TwoSignals(mode, cfg, l, c);
    ClockAt(r, k);
    StaleFails(r.states[k].th[t], c, cfg);
    RecordedBefore(r, t, i, k);
  }

  lemma ClockAt(r: Run, i: nat)
    requires IsRun(r) && i < |r.states| && r.states[i].time < 0x1_0000_0000
    ensures r.states[i].clock == r.states[i].time
  {
    RunWf(r, i);
  }

  // ---------------------------------------------------------------- the exact condition

  /** A signal at a time that shows c, in the lap of the last recorded arrival, which shows l. */
  ghost predicate Decides(r: Run, i: nat, t: Tid, l: u32, c: u32, p: nat) {
    && SignalsAt(r, i, t) && r.states[i].th[t].minPeriod == p && r.states[i].clock == c
    && Word(ArrivalsAt(r, t, i).last) == l && Lap(ArrivalsAt(r, t, i).last) == Lap(r.states[i].time)
  }

  /** In every run, with any policy, the test then decides like the reference. */
  ghost predicate AlwaysRight(l: u32, c: u32, p: nat) {
    forall r, i: nat, t {:trigger Decides(r, i, t, l, c, p)} :: Decides(r, i, t, l, c, p) ==>
      (MitTest(r.states[i].th[t], r.states[i].clock)
       <==> Due(r.states[i].th[t], r.states[i].time, ArrivalsAt(r, t, i)))
  }

  /** A caller who knows the last recorded arrival can tell whether a due signal is safe:
      decisions are right in all runs if and only if the periods counted from that arrival
      have room before the wrap. */
  lemma DueExact(l: u32, c: u32, p: nat)
    requires p < PERIODS && l + p < c
    ensures AlwaysRight(l, c, p) <==> Room(l, c, p)
  {
    if Room(l, c, p) {
      forall r, i: nat, t | Decides(r, i, t, l, c, p)
        ensures MitTest(r.states[i].th[t], r.states[i].clock)
          <==> Due(r.states[i].th[t], r.states[i].time, ArrivalsAt(r, t, i))
      {
        DecisionIsRight(r, i, t);
      }
    } else {
      WrongSomewhere(l, c, p);
    }
  }

  lemma WrongSomewhere(l: u32, c: u32, p: nat)
    requires 0 < p < PERIODS && l + p < c && !Room(l, c, p)
    ensures !AlwaysRight(l, c, p)
  {
    var cfg := Config(Sporadic, OVERRUN_PRIO, 0, p * TICK_US, 0, 0, if l > p then 2 else 1, 1, MAIN_THREAD);
    var r, i, k, t;
    if l > 0 {
      r, i, k, t := DueSignalRefused(WholeInterrupt, cfg, l, c);
    } else {
      r, k, t := OneSignal(WholeInterrupt, cfg, c);
    }
    RunWf(r, k);
    WordSmall(c);
    assert Decides(r, k, t, l, c, p);
  }

  /** With the REPLACE policy the refused arrival is recorded, and aged at once past the
      wrap: a third signal in the same tick passes the test. */
  lemma EarlySignalAccepted(mode: IsrMode, cfg: Config, l: u32) returns (r: Run, k: nat, m: nat, t: Tid)
    requires Sporadically(cfg) && cfg.mitPolicy % 16 == 4
    requires l > Period(cfg) && l + Period(cfg) < LAST_WORD && l + 2 * Period(cfg) >= 0x1_0000_0000
    ensures k < m && SignalsAt(r, k, t) && Decide(r.states[k].th[t], r.states[k].clock).record
    ensures SignalsAt(r, m, t) && Accepts(r.states[m], r.events[m], t)
    ensures r.states[m].th[t].minPeriod == Period(cfg) && r.states[m].time == r.states[k].time
    ensures !Due(r.states[m].th[t], r.states[m].time, ArrivalsAt(r, t, m))
  {
    var r1, i;
    var c := l + Period(cfg) + 1;
    r1, i, k, t := TwoSignals(mode, cfg, l, c);
    ClockAt(r1, k);
    ClockAt(r1, k + 1);
    StaleFails(r1.states[k].th[t], c, cfg);
    r, m := ThirdSignal(r1, t, cfg, c);
    RecordedBefore(r, t, k, m);
  }

  /** The gate closes on a field just recorded, and the next signal comes in the same tick. */
  lemma ThirdSignal(r: Run, t: Tid, cfg: Config, c: u32) returns (q: Run, m: nat)
    requires IsRun(r) && Running(Last(r), t, Gate, cfg) && Sporadically(cfg) && Last(r).time == c
    requires Last(r).th[t].pending == 0 && Last(r).th[t].lastInput == c
    requires c > 2 * Period(cfg) && c + Period(cfg) >= 0x1_0000_0000
    ensures IsRun(q) && r.states <= q.states && r.events <= q.events && |r.events| <= m < |q.events|
    ensures forall j :: |r.events| <= j < m ==> !q.events[j].Signal?
    ensures SignalsAt(q, m, t) && Accepts(q.states[m], q.events[m], t)
    ensures q.states[m].time == c && q.states[m].th[t].minPeriod == Period(cfg)
  {
    RunReaches(r);
    var r1 := GateCloses(r, t, cfg);
    ClockAt(r1, |r1.events|);
    Count32(cfg.queueMax);
    q := SignalArrives(r1, t, cfg, Last(r1).th[t].lastInput);
    m := |r1.events|;
  }
}
