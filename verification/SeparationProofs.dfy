/** The activation loop of periodic_pattern over whole runs: how far apart activations
    start, and what the modular clock differences of the loop stand for. */
module SeparationProofs {
  import opened Words
  import opened KernelModel
  import opened KernelRuns
  import opened CarryProofs
  import opened SleepProofs

  // ---------------------------------------------------------------- what an observer writes down

  /** The true times of the last activation, of the clock reading after its executor, and
      the true deadline of the sleep that follows. */
  datatype Log = Log(start: Option<nat>, read: nat, deadline: nat)

  /** t itself executes one statement of periodic_pattern. */
  predicate Statement(s: State, e: Event, t: Tid, pc: Pc) {
    e.PatternStep? && s.current == t && t in s.th && s.th[t].pc == pc
  }

  function Note(log: Log, s: State, e: Event, t: Tid): Log {
    if Statement(s, e, t, Stamp) then log.(start := Some(s.time))
    else if Statement(s, e, t, Executor) then log.(read := s.time)
    else if Statement(s, e, t, Handlers)
    then log.(deadline := s.time + Sub32(Add32(s.th[t].counter, s.th[t].minPeriod), s.th[t].ticksAux))
    else log
  }

  function LogAt(r: Run, t: Tid, i: nat): Log
    requires i < |r.states| == |r.events| + 1
  {
    if i == 0 then Log(None, 0, 0)
    else Note(LogAt(r, t, i - 1), r.states[i - 1], r.events[i - 1], t)
  }

  // ---------------------------------------------------------------- the arithmetic of one cycle

  /** `thread_counter_us - ticks_aux` is the true remaining time if and only if the cycle
      fits its period; a cycle that overruns sleeps the difference short of a whole lap. */
  lemma RemainingTime(start: nat, period: u32, read: nat)
    requires start <= read
    ensures var ticks := Sub32(Add32(Word(start), period), Word(read));
      && ticks == Word(start + period - read)
      && (ticks == start + period - read <==> read - start <= period)
      && (period < read - start < 0x1_0000_0000 ==> ticks == 0x1_0000_0000 - (read - start - period))
  {
    WordAdd(start, period);
    WordSub(start + period, read);
    assert Word(period) == period;
  }

  /** Either way the sleep does not end before the period is over. */
  lemma SleepCoversPeriod(start: nat, period: u32, read: nat, now: nat)
    requires start <= read <= now
    ensures now + Sub32(Add32(Word(start), period), Word(read)) >= start + period
  {
    RemainingTime(start, period, read);
  }

  /** The deadline test of the loop compares the true response time, as long as that is
      below a lap of the counter. */
  lemma ResponseTime(start: nat, read: nat, bound: u32)
    requires start <= read
    ensures Sub32(Word(read), Word(start)) == Word(read - start)
    ensures read - start < 0x1_0000_0000 ==>
      (Sub32(Word(read), Word(start)) >= bound <==> read - start >= bound)
  {
    WordSub(read, start);
  }

  // ---------------------------------------------------------------- the invariant

  /** The creation calls divide microseconds by the tick length. */
  const PERIODS := 0x200_0000

  /** The period since the last activation is over. */
  predicate Elapsed(x: Thread, now: int, log: Log) {
    log.start.Some? && log.start.value + x.minPeriod < now
  }

  ghost predicate Cycle(x: Thread, now: int, log: Log) {
    && x.minPeriod < PERIODS
    && if log.start.None? then x.pc in {Start, Offset, Gate, Stamp}
    else
      var a := log.start.value;
      match x.pc
      case Reset => x.counter == Word(a) && a <= now
      case Executor => x.counter == Word(a) && a <= now
      case Charging => x.counter == Word(a) && x.ticksAux == Word(log.read) && a <= log.read <= now
      case Handlers => x.counter == Word(a) && x.ticksAux == Word(log.read) && a <= log.read <= now
      case Decrement => Elapsed(x, now, log) || (a + x.minPeriod <= log.deadline && Nap(x, now, log.deadline))
      case Gate => Elapsed(x, now, log)
      case Stamp => Elapsed(x, now, log)
      case _ => false
  }

  /** While the period is not over at the end of the loop, the sleep is clear of the flag. */
  ghost predicate Steady(s: State, t: Tid, log: Log) {
    && t in s.th && Cycle(s.th[t], s.time, log)
    && (s.th[t].pc == Decrement && log.start.Some? && !Elapsed(s.th[t], s.time, log) ==> Clear(s, log.deadline))
  }

  /** A raised flag is too young to cut a sleep of a period short. */
  ghost predicate Young(s: State) {
    s.carry ==> s.clock < 0x1_0000_0000 - PERIODS
  }

  /** The fields that belong to the loop alone. */
  ghost predicate SameLoop(x: Thread, y: Thread) {
    && x.pc == y.pc && x.counter == y.counter && x.ticksAux == y.ticksAux
    && x.minPeriod == y.minPeriod && x.pattern == y.pattern && x.maxDeadline == y.maxDeadline
  }

  lemma TouchLoop(x: Thread, e: Event, r: Role)
    requires !(e.PatternStep? && r.current)
    ensures SameLoop(x, Touch(x, e, r))
  {
  }

  lemma SettleLoop(x: Thread, r: Role)
    ensures SameLoop(x, Settle(x, r))
  {
  }

  lemma MoveLoop(x: Thread, e: Event, r: Role)
    ensures !(e.PatternStep? && r.current) ==> SameLoop(x, Move(x, e, r))
    ensures e.PatternStep? && r.current ==> SameLoop(PatternPre(x, r.clock, r.lastCost), Move(x, e, r))
  {
    var y := Touch(x, e, r);
    if !(e.PatternStep? && r.current) { TouchLoop(x, e, r); }
    if r.resched { SettleLoop(y, r); }
  }

  /** Steps other than t's own statements leave the cycle alone. */
  lemma OthersKeepCycle(s: State, e: Event, t: Tid, log: Log)
    requires WF(s) && Enabled(s, e) && Reports(s, Step(s, e)) && Steady(s, t, log)
    requires t in Step(s, e).th && !(e.PatternStep? && s.current == t)
    ensures Steady(Step(s, e), t, log)
  {
    LoopStep(s, e, t);
    ClockStep(s, e);
    if s.th[t].pc == Decrement && log.start.Some? && !Elapsed(s.th[t], s.time, log) {
      NapStep(s, e, t, log.deadline);
    }
  }

  lemma LoopStep(s: State, e: Event, t: Tid)
    requires WF(s) && Enabled(s, e) && t in s.th && t in Step(s, e).th
    ensures !(e.PatternStep? && s.current == t) ==> SameLoop(s.th[t], Step(s, e).th[t])
    ensures e.PatternStep? && s.current == t ==>
      SameLoop(PatternPre(s.th[t], s.clock, s.lastCost), Step(s, e).th[t])
  {
    if Structural(e) {
      StepThreads(s, e, t);
      assert ThreadOk(s, t);
    } else {
      ThreadStep(s, e, t);
      MoveLoop(s.th[t], e, RoleOf(s, e, t));
    }
  }

  /** One statement of the loop, as the record sees it. */
  lemma StatementKeepsCycle(x: Thread, y: Thread, now: nat, lastCost: u32, log: Log)
    requires x.status == Active && x.pattern != Aperiodic && Cycle(x, now, log) && x.pc != Handlers
    requires SameLoop(PatternPre(x, Word(now), lastCost), y)
    ensures Cycle(y, now, match x.pc
      case Stamp => log.(start := Some(now))
      case Executor => log.(read := now)
      case _ => log)
    ensures x.pc == Stamp && log.start.Some? ==> log.start.value + x.minPeriod < now
  {
  }

  /** The sleep at the end of a cycle: it covers the rest of the period, or the period is
      over already. */
  lemma ResleepRecord(x: Thread, y: Thread, now: nat, log: Log, ticks: u32)
    requires x.pattern != Aperiodic && x.pc == Handlers && Cycle(x, now, log) && log.start.Some?
    requires ticks == Sub32(Add32(x.counter, x.minPeriod), x.ticksAux)
    requires y.pc == Decrement && y.minPeriod == x.minPeriod
    requires log.read - log.start.value <= x.minPeriod ==> Nap(y, now, now + ticks)
    ensures Cycle(y, now, log.(deadline := now + ticks))
    ensures log.read - log.start.value > x.minPeriod ==> Elapsed(y, now, log)
  {
    SleepCoversPeriod(log.start.value, x.minPeriod, log.read, now);
  }

  lemma ResleepStep(s: State, e: Event, t: Tid, ticks: u32)
    requires WF(s) && Enabled(s, e) && Young(s) && ticks < PERIODS
    requires e.PatternStep? && s.current == t && SleepsFor(s.th[t], e, ticks)
    ensures var n := Step(s, e);
      t in n.th && n.time == s.time && Nap(n.th[t], n.time, s.time + ticks) && Clear(n, s.time + ticks)
  {
    SleepStarts(s, e, ticks);
    ClockStep(s, e);
    BeganClear(Step(s, e).th[t], s, Step(s, e), ticks);
  }

  lemma ResleepKeepsCycle(s: State, e: Event, t: Tid, log: Log)
    requires WF(s) && Enabled(s, e) && Young(s) && Steady(s, t, log)
    requires Statement(s, e, t, Handlers) && s.th[t].pattern != Aperiodic
    ensures Steady(Step(s, e), t, Note(log, s, e, t))
  {
    var ticks := Sub32(Add32(s.th[t].counter, s.th[t].minPeriod), s.th[t].ticksAux);
    StepThreads(s, e, t);
    ClockStep(s, e);
    if log.read - log.start.value <= s.th[t].minPeriod {
      ResleepFits(s, e, t, log, ticks);
    }
    EndOfLoop(s, e, t);
    SteadyAgain(s, Step(s, e), t, log, ticks);
    assert Note(log, s, e, t) == log.(deadline := s.time + ticks);
  }

  /** A cycle that fits its period sleeps for less than a period. */
  lemma ResleepFits(s: State, e: Event, t: Tid, log: Log, ticks: u32)
    requires WF(s) && Enabled(s, e) && Young(s) && Steady(s, t, log)
    requires Statement(s, e, t, Handlers) && s.th[t].pattern != Aperiodic
    requires ticks == Sub32(Add32(s.th[t].counter, s.th[t].minPeriod), s.th[t].ticksAux)
    requires log.read - log.start.value <= s.th[t].minPeriod
    ensures var n := Step(s, e);
      t in n.th && Nap(n.th[t], s.time, s.time + ticks) && Clear(n, s.time + ticks)
  {
    RemainingTime(log.start.value, s.th[t].minPeriod, log.read);
    ResleepStep(s, e, t, ticks);
  }

  lemma SteadyAgain(s: State, n: State, t: Tid, log: Log, ticks: u32)
    requires Steady(s, t, log) && s.th[t].pc == Handlers && s.th[t].pattern != Aperiodic
    requires ticks == Sub32(Add32(s.th[t].counter, s.th[t].minPeriod), s.th[t].ticksAux)
    requires t in n.th && n.th[t].pc == Decrement && n.th[t].minPeriod == s.th[t].minPeriod && n.time == s.time
    requires log.read - log.start.value <= s.th[t].minPeriod ==>
      Nap(n.th[t], s.time, s.time + ticks) && Clear(n, s.time + ticks)
    ensures Steady(n, t, log.(deadline := s.time + ticks))
  {
    ResleepRecord(s.th[t], n.th[t], s.time, log, ticks);
  }

  lemma EndOfLoop(s: State, e: Event, t: Tid)
    requires WF(s) && Enabled(s, e) && t in Step(s, e).th
    requires Statement(s, e, t, Handlers) && s.th[t].pattern != Aperiodic
    ensures Step(s, e).th[t].pc == Decrement && Step(s, e).th[t].minPeriod == s.th[t].minPeriod
  {
    LoopStep(s, e, t);
    AfterHandlers(s.th[t], s.clock, s.lastCost);
  }

  lemma AfterHandlers(x: Thread, clock: u32, lastCost: u32)
    requires x.pc == Handlers
    ensures PatternPre(x, clock, lastCost).pc == Decrement && PatternPre(x, clock, lastCost).minPeriod == x.minPeriod
  {
  }

  /** t's own statements, in the order of the loop. */
  lemma OwnStatement(s: State, e: Event, t: Tid, log: Log)
    requires WF(s) && Enabled(s, e) && Young(s) && Steady(s, t, log)
    requires e.PatternStep? && s.current == t && s.th[t].pattern != Aperiodic
    ensures Steady(Step(s, e), t, Note(log, s, e, t))
    ensures s.th[t].pc == Stamp && log.start.Some? ==> log.start.value + s.th[t].minPeriod < s.time
  {
    StepThreads(s, e, t);
    if s.th[t].pc == Handlers {
      ResleepKeepsCycle(s, e, t, log);
    } else {
      LoopStep(s, e, t);
      ClockStep(s, e);
      StatementKeepsCycle(s.th[t], Step(s, e).th[t], s.time, s.lastCost, log);
    }
  }

  // ---------------------------------------------------------------- the order of the loop

  /** What an observer counts of t: cycles begun, executor calls, cycles completed. */
  datatype Laps = Laps(begun: nat, executed: nat, completed: nat)

  function Lapped(n: Laps, s: State, e: Event, t: Tid): Laps {
    if Statement(s, e, t, Stamp) then n.(begun := n.begun + 1)
    else if Statement(s, e, t, Executor) then n.(executed := n.executed + 1)
    else if Statement(s, e, t, Decrement) then n.(completed := n.completed + 1)
    else n
  }

  function LapsAt(r: Run, t: Tid, i: nat): Laps
    requires i < |r.states| == |r.events| + 1
  {
    if i == 0 then Laps(0, 0, 0) else Lapped(LapsAt(r, t, i - 1), r.states[i - 1], r.events[i - 1], t)
  }

  /** Each cycle calls the executor once, and each executor call belongs to one cycle. */
  predicate InOrder(x: Thread, n: Laps) {
    && n.begun == n.completed + (if x.pc in {Reset, Executor, Charging, Handlers, Decrement} then 1 else 0)
    && n.executed == n.completed + (if x.pc in {Charging, Handlers, Decrement} then 1 else 0)
  }

  lemma LapsStatement(x: Thread, y: Thread, clock: u32, lastCost: u32, n: Laps)
    requires InOrder(x, n) && SameLoop(PatternPre(x, clock, lastCost), y)
    ensures InOrder(y, match x.pc
      case Stamp => n.(begun := n.begun + 1)
      case Executor => n.(executed := n.executed + 1)
      case Decrement => n.(completed := n.completed + 1)
      case _ => n)
  {
  }

  lemma LapsStep(s: State, e: Event, t: Tid, n: Laps)
    requires WF(s) && Enabled(s, e) && t in s.th && t in Step(s, e).th && InOrder(s.th[t], n)
    ensures InOrder(Step(s, e).th[t], Lapped(n, s, e, t))
  {
    LoopStep(s, e, t);
    if e.PatternStep? && s.current == t {
      LapsStatement(s.th[t], Step(s, e).th[t], s.clock, s.lastCost, n);
    }
  }

  lemma LapsNext(r: Run, t: Tid, i: nat)
    requires IsRun(r) && i < |r.events| && t in r.states[i].th && t in r.states[i + 1].th
    requires InOrder(r.states[i].th[t], LapsAt(r, t, i))
    ensures InOrder(r.states[i + 1].th[t], LapsAt(r, t, i + 1))
  {
    RunGoes(r, i);
    LapsStep(r.states[i], r.events[i], t, LapsAt(r, t, i));
  }

  lemma {:induction false} NoLapsBefore(r: Run, t: Tid, i: nat)
    requires IsRun(r) && i < |r.states| && r.states[i].nextTid <= t && t !in r.states[i].th
    ensures LapsAt(r, t, i) == Laps(0, 0, 0)
  {
    if i > 0 {
      RunGoes(r, i - 1);
      UnbornBefore(r.states[i - 1], r.events[i - 1], t);
      NoLapsBefore(r, t, i - 1);
    }
  }

  lemma LapsBorn(r: Run, t: Tid, i: nat)
    requires IsRun(r) && 0 < i < |r.states| && t != MAIN && t in r.states[i].th && t !in r.states[i - 1].th
    ensures InOrder(r.states[i].th[t], LapsAt(r, t, i))
  {
    var cfg := BornAt(r, t, i);
    NoLapsBefore(r, t, i - 1);
  }

  /** In every run of any thread the executor is called once in each cycle: after its gate
      was passed, before the cycle is completed, and at no other time. */
  lemma {:induction false} OneCallPerCycle(r: Run, t: Tid, i: nat)
    requires IsRun(r) && i < |r.states| && t != MAIN && t in r.states[i].th
    ensures InOrder(r.states[i].th[t], LapsAt(r, t, i))
  {
    if i > 0 {
      if t in r.states[i - 1].th {
        OneCallPerCycle(r, t, i - 1);
        LapsNext(r, t, i - 1);
      } else {
        LapsBorn(r, t, i);
      }
    }
  }

  // ---------------------------------------------------------------- the deadline test

  /** From the start of a cycle to its end the two locals of the loop are what the observer
      noted. */
  ghost predicate Stamped(x: Thread, now: int, log: Log) {
    && (x.pc in {Reset, Executor, Charging, Handlers} ==>
      log.start.Some? && log.start.value <= now && x.counter == Word(log.start.value))
    && (x.pc in {Charging, Handlers} ==>
      log.start.value <= log.read <= now && x.ticksAux == Word(log.read))
  }

  lemma StampedStatement(x: Thread, y: Thread, now: nat, lastCost: u32, log: Log)
    requires Stamped(x, now, log) && SameLoop(PatternPre(x, Word(now), lastCost), y)
    ensures Stamped(y, now, match x.pc
      case Stamp => log.(start := Some(now))
      case Executor => log.(read := now)
      case Handlers => log.(deadline := now + Sub32(Add32(x.counter, x.minPeriod), x.ticksAux))
      case _ => log)
  {
  }

  lemma StampedStep(s: State, e: Event, t: Tid, log: Log)
    requires WF(s) && Enabled(s, e) && t in s.th && t in Step(s, e).th && Stamped(s.th[t], s.time, log)
    ensures Stamped(Step(s, e).th[t], Step(s, e).time, Note(log, s, e, t))
  {
    LoopStep(s, e, t);
    ClockStep(s, e);
    if e.PatternStep? && s.current == t {
      StampedStatement(s.th[t], Step(s, e).th[t], s.time, s.lastCost, log);
    }
  }

  lemma StampedNext(r: Run, t: Tid, i: nat)
    requires IsRun(r) && i < |r.events| && t in r.states[i].th && t in r.states[i + 1].th
    requires Stamped(r.states[i].th[t], r.states[i].time, LogAt(r, t, i))
    ensures Stamped(r.states[i + 1].th[t], r.states[i + 1].time, LogAt(r, t, i + 1))
  {
    RunGoes(r, i);
    StampedStep(r.states[i], r.events[i], t, LogAt(r, t, i));
  }

  lemma {:induction false} StampedRun(r: Run, t: Tid, i: nat)
    requires IsRun(r) && i < |r.states| && t != MAIN && t in r.states[i].th
    ensures Stamped(r.states[i].th[t], r.states[i].time, LogAt(r, t, i))
  {
    if i > 0 {
      if t in r.states[i - 1].th {
        StampedRun(r, t, i - 1);
        StampedNext(r, t, i - 1);
      } else {
        var cfg := BornAt(r, t, i);
      }
    }
  }

  /** The test before the call of the error handler with DEADLINE_MISS. */
  predicate MissesDeadline(x: Thread) {
    Sub32(x.ticksAux, x.counter) >= x.maxDeadline
  }

  /** In every run, for threads of every pattern: the deadline test compares the true time
      from passing the gate to the return of the executor modulo 2^32, so it raises no false
      alarm, and misses none as long as that time is below a lap of the counter. */
  lemma DeadlineTest(r: Run, t: Tid, i: nat)
    requires IsRun(r) && i < |r.states| && t != MAIN && t in r.states[i].th && r.states[i].th[t].pc == Handlers
    ensures LogAt(r, t, i).start.Some? && LogAt(r, t, i).start.value <= LogAt(r, t, i).read
    ensures var response := LogAt(r, t, i).read - LogAt(r, t, i).start.value; var x := r.states[i].th[t];
      && (MissesDeadline(x) <==> Word(response) >= x.maxDeadline)
      && (MissesDeadline(x) ==> response >= x.maxDeadline)
      && (response < 0x1_0000_0000 ==> (MissesDeadline(x) <==> response >= x.maxDeadline))
  {
    StampedRun(r, t, i);
    var log, x := LogAt(r, t, i), r.states[i].th[t];
    ResponseTime(log.start.value, log.read, x.maxDeadline);
    WordSmall(log.read - log.start.value);
  }

  // ---------------------------------------------------------------- aperiodic threads

  /** At the end of its cycle an aperiodic thread goes straight on: it keeps the processor,
      and no record but its own, no counter and no semaphore changes. */
  lemma AperiodicGoesOn(s: State, t: Tid)
    requires WF(s) && Enabled(s, PatternStep) && Statement(s, PatternStep, t, Handlers)
    requires s.th[t].pattern == Aperiodic
    ensures var n := Step(s, PatternStep);
      && t in n.th && n.th[t] == s.th[t].(pc := Decrement, counter := Add32(s.th[t].counter, s.th[t].minPeriod))
      && n == s.(th := s.th[t := n.th[t]])
      && n.current == t && n.th[t].status == Active
  {
    ThreadStep(s, PatternStep, t);
    var n := Step(s, PatternStep);
    forall u | u in s.th && u != t ensures u in n.th && n.th[u] == s.th[u] {
      ThreadStep(s, PatternStep, u);
    }
    assert n.th == s.th[t := n.th[t]];
  }

  /** Where an aperiodic thread can stop: in its offset, at its gate, or where the code of the
      application runs. */
  predicate KeepsGoing(x: Thread) {
    x.pattern == Aperiodic && x.pc in {Start, Stamp, Reset, Charging, Decrement} ==> x.status == Active
  }

  lemma TouchGoing(x: Thread, e: Event, r: Role)
    requires KeepsGoing(x) && (r.current ==> x.status == Active)
    requires r.current && (e.Sleep? || (e.SemP? && r.blocks)) ==> x.pc in {Executor, Handlers}
    ensures KeepsGoing(Touch(x, e, r))
  {
  }

  lemma SettleGoing(x: Thread, r: Role)
    requires KeepsGoing(x)
    ensures KeepsGoing(Settle(x, r))
  {
  }

  lemma GoingStep(s: State, e: Event, t: Tid)
    requires WF(s) && Enabled(s, e) && t in s.th && t in Step(s, e).th && KeepsGoing(s.th[t])
    ensures KeepsGoing(Step(s, e).th[t])
  {
    if Structural(e) {
      assert ThreadOk(s, t);
      StepThreads(s, e, t);
    } else {
      var r := RoleOf(s, e, t);
      ThreadStep(s, e, t);
      TouchGoing(s.th[t], e, r);
      SettleGoing(Touch(s.th[t], e, r), r);
    }
  }

  /** In every run an aperiodic thread is Active between passing its gate and its executor,
      and from the clock reading after the executor to the decrement, its handlers apart:
      the end of a cycle never puts it to sleep. */
  lemma {:induction false} AperiodicNeverRests(r: Run, t: Tid, i: nat)
    requires IsRun(r) && i < |r.states| && t != MAIN && t in r.states[i].th
    ensures KeepsGoing(r.states[i].th[t])
  {
    if i > 0 {
      if t in r.states[i - 1].th {
        AperiodicNeverRests(r, t, i - 1);
        RunGoes(r, i - 1);
        GoingStep(r.states[i - 1], r.events[i - 1], t);
      } else {
        var cfg := BornAt(r, t, i);
      }
    }
  }

  /** Only its initial offset and a sleep it calls itself put an aperiodic thread to sleep. */
  lemma AperiodicSleepsByCall(s: State, e: Event, t: Tid)
    requires WF(s) && Enabled(s, e) && t in s.th && t in Step(s, e).th && s.th[t].pattern == Aperiodic
    requires s.th[t].status != Slept && Step(s, e).th[t].status == Slept
    ensures s.current == t && (e.Sleep? || Statement(s, e, t, Offset))
  {
    if Structural(e) {
      assert ThreadOk(s, t);
      StepThreads(s, e, t);
    } else {
      ThreadStep(s, e, t);
      FallsAsleep(s.th[t], e, RoleOf(s, e, t));
    }
  }

  lemma FallsAsleep(x: Thread, e: Event, r: Role)
    requires x.pattern == Aperiodic && x.status != Slept && Move(x, e, r).status == Slept
    ensures r.current && (e.Sleep? || (e.PatternStep? && x.pc == Offset))
  {
    SettleSleeps(Touch(x, e, r), r);
    TouchSleeps(x, e, r);
  }

  lemma SettleSleeps(x: Thread, r: Role)
    ensures Settle(x, r).status == Slept ==> x.status == Slept
  {
  }

  lemma TouchSleeps(x: Thread, e: Event, r: Role)
    requires x.pattern == Aperiodic && x.status != Slept && Touch(x, e, r).status == Slept
    ensures r.current && (e.Sleep? || (e.PatternStep? && x.pc == Offset))
  {
  }

  // ---------------------------------------------------------------- whole runs

  /** t passes its gate and starts a cycle at step i. */
  ghost predicate Activates(r: Run, i: nat, t: Tid)
    requires |r.states| == |r.events| + 1
  {
    i < |r.events| && Statement(r.states[i], r.events[i], t, Stamp)
  }

  /** Few enough threads for the flag to be young whenever it is up; with the one-step
      interrupt any number is. */
  predicate FewThreads(s: State) {
    Margin(s) <= 0x1_0000_0000 - PERIODS
  }

  lemma CycleNext(r: Run, i: nat, t: Tid)
    requires IsRun(r) && i < |r.events| && FewThreads(r.states[i + 1])
    requires t in r.states[i + 1].th && Steady(r.states[i], t, LogAt(r, t, i))
    requires r.states[i].th[t].pattern != Aperiodic
    ensures Steady(r.states[i + 1], t, LogAt(r, t, i + 1))
    ensures SamePlan(r.states[i].th[t], r.states[i + 1].th[t])
    ensures Activates(r, i, t) && LogAt(r, t, i).start.Some? ==>
      LogAt(r, t, i).start.value + r.states[i].th[t].minPeriod < r.states[i].time
  {
    RunGoes(r, i);
    IdsGrow(r, i, i + 1);
    CarryReportsWrap(r, i);
    RunReports(r, i);
    LoopStep(r.states[i], r.events[i], t);
    if r.events[i].PatternStep? && r.states[i].current == t {
      OwnStatement(r.states[i], r.events[i], t, LogAt(r, t, i));
    } else {
      OthersKeepCycle(r.states[i], r.events[i], t, LogAt(r, t, i));
    }
  }

  ghost predicate SamePlan(x: Thread, y: Thread) {
    x.pattern == y.pattern && x.minPeriod == y.minPeriod && x.maxDeadline == y.maxDeadline
  }

  lemma UnbornBefore(s: State, e: Event, t: Tid)
    requires WF(s) && Enabled(s, e) && t >= Step(s, e).nextTid
    ensures t !in s.th && s.nextTid <= t
  {
    ClockStep(s, e);
    assert t in s.th ==> ThreadOk(s, t);
  }

  /** Before its creation a thread leaves no trace. */
  lemma {:induction false} NoLogBefore(r: Run, t: Tid, i: nat)
    requires IsRun(r) && i < |r.states| && r.states[i].nextTid <= t && t !in r.states[i].th
    ensures LogAt(r, t, i) == Log(None, 0, 0)
  {
    if i > 0 {
      RunGoes(r, i - 1);
      UnbornBefore(r.states[i - 1], r.events[i - 1], t);
      NoLogBefore(r, t, i - 1);
    }
  }

  lemma Newborn(s: State, e: Event, t: Tid)
    requires WF(s) && Enabled(s, e) && t !in s.th && t in Step(s, e).th && t != MAIN
    ensures e.Create? && t == s.nextTid && Step(s, e).th[t] == NewThread(e.config)
  {
    StepThreads(s, e, t);
  }

  lemma PlanKept(r: Run, i: nat, t: Tid)
    requires IsRun(r) && i < |r.events| && t in r.states[i].th && t in r.states[i + 1].th
    ensures SamePlan(r.states[i].th[t], r.states[i + 1].th[t])
  {
    RunGoes(r, i);
    PlanStep(r.states[i], r.events[i], t);
  }

  lemma PlanStep(s: State, e: Event, t: Tid)
    requires WF(s) && Enabled(s, e) && t in s.th && t in Step(s, e).th
    ensures SamePlan(s.th[t], Step(s, e).th[t])
  {
    LoopStep(s, e, t);
    PatternPlan(s.th[t], s.clock, s.lastCost);
  }

  lemma PatternPlan(x: Thread, clock: u32, lastCost: u32)
    ensures SamePlan(x, PatternPre(x, clock, lastCost))
  {
  }

  /** The state in which a thread first appears. */
  lemma BornAt(r: Run, t: Tid, i: nat) returns (cfg: Config)
    requires IsRun(r) && 0 < i < |r.states| && t != MAIN && t in r.states[i].th && t !in r.states[i - 1].th
    ensures r.events[i - 1] == Create(cfg) && t == r.states[i - 1].nextTid && r.states[i].th[t] == NewThread(cfg)
  {
    RunGoes(r, i - 1);
    Newborn(r.states[i - 1], r.events[i - 1], t);
    cfg := r.events[i - 1].config;
  }

  lemma CycleBorn(r: Run, t: Tid, i: nat)
    requires IsRun(r) && 0 < i < |r.states| && t != MAIN && t in r.states[i].th && t !in r.states[i - 1].th
    ensures Steady(r.states[i], t, LogAt(r, t, i))
  {
    var cfg := BornAt(r, t, i);
    NoLogBefore(r, t, i - 1);
  }

  lemma {:induction false} CycleRun(r: Run, t: Tid, i: nat)
    requires IsRun(r) && i < |r.states| && FewThreads(r.states[i])
    requires t != MAIN && t in r.states[i].th && r.states[i].th[t].pattern != Aperiodic
    ensures Steady(r.states[i], t, LogAt(r, t, i))
  {
    if i > 0 {
      IdsGrow(r, i - 1, i);
      if t in r.states[i - 1].th {
        PlanKept(r, i - 1, t);
        CycleRun(r, t, i - 1);
        CycleNext(r, i - 1, t);
      } else {
        CycleBorn(r, t, i);
      }
    }
  }

  /** The log remembers an activation no earlier than any that happened. */
  lemma {:induction false} LogRemembers(r: Run, t: Tid, i: nat, j: nat)
    requires IsRun(r) && i < j < |r.states| && Activates(r, i, t)
    ensures LogAt(r, t, j).start.Some? && LogAt(r, t, j).start.value >= r.states[i].time
    decreases j
  {
    if i + 1 < j {
      LogRemembers(r, t, i, j - 1);
      IdsGrow(r, i, j - 1);
    }
  }

  /** Minimum separation: whatever signals, semaphore operations, yields and other
      threads do in between, however often the counter wraps, and whether or not the
      interrupt defers its last write, two activations of a periodic or sporadic thread
      start more than min_period_ticks true ticks apart. */
  lemma MinimumSeparation(r: Run, t: Tid, i: nat, j: nat)
    requires IsRun(r) && i < j < |r.events| && FewThreads(r.states[j])
    requires Activates(r, i, t) && Activates(r, j, t) && t != MAIN
    requires r.states[j].th[t].pattern != Aperiodic
    ensures r.states[j].time >= r.states[i].time + r.states[j].th[t].minPeriod + 1
  {
    LogRemembers(r, t, i, j);
    CycleRun(r, t, j);
  }

  lemma PeriodSleep(r: Run, t: Tid, h: nat, start: nat, read: nat) returns (ticks: u32)
    requires IsRun(r) && h < |r.events| && FewThreads(r.states[h]) && t != MAIN
    requires Statement(r.states[h], r.events[h], t, Handlers) && r.states[h].th[t].pattern != Aperiodic
    requires LogAt(r, t, h).start == Some(start) && LogAt(r, t, h).read == read
    requires read - start <= r.states[h].th[t].minPeriod
    ensures SleepsFor(r.states[h].th[t], r.events[h], ticks) && !CutShort(r.states[h], ticks)
    ensures read <= r.states[h].time && ticks == start + r.states[h].th[t].minPeriod - read
  {
    var x := r.states[h].th[t];
    ticks := Sub32(Add32(x.counter, x.minPeriod), x.ticksAux);
    CycleRun(r, t, h);
    RemainingTime(start, x.minPeriod, read);
    ShortSleepsSafe(r, h, ticks);
  }

  /** A cycle that fits its period is followed by a sleep whose true end is the start of
      the cycle plus the period, late only by the ticks that passed between reading the
      clock and calling tick_sleep: the thread is asleep until then and ready one tick
      later. */
  lemma PeriodKept(r: Run, t: Tid, h: nat, k: nat, start: nat, read: nat)
    requires IsRun(r) && h < k < |r.states| && FewThreads(r.states[k]) && t != MAIN && t in r.states[k].th
    requires Statement(r.states[h], r.events[h], t, Handlers) && r.states[h].th[t].pattern != Aperiodic
    requires LogAt(r, t, h).start == Some(start) && LogAt(r, t, h).read == read
    requires read - start <= r.states[h].th[t].minPeriod
    requires var d := start + r.states[h].th[t].minPeriod + (r.states[h].time - read);
      Word(d) != LAST_WORD && r.states[k - 1].time == d && r.states[k].time == d + 1
    ensures forall j :: h < j < k ==> t in r.states[j].th && r.states[j].th[t].status == Slept
    ensures r.states[k].th[t].status == Active
  {
    IdsGrow(r, h, k);
    var ticks := PeriodSleep(r, t, h, start, read);
    forall j | h < j < k ensures t in r.states[j].th && r.states[j].th[t].status == Slept {
      SleepFrame(r, h, k, j, t, ticks);
      IdsGrow(r, j, k - 1);
      IdsGrow(r, j, k);
      SleepRefinesClock(r, h, j, t, ticks);
    }
    SleepRefinesClock(r, h, k, t, ticks);
  }

  /** A cycle that overruns its period by x < 2^32 - period ticks is followed by a sleep of
      2^32 - x ticks, and unless that is cut short the thread misses its activations for
      nearly a lap of the counter. */
  lemma OverrunSleeps(r: Run, t: Tid, h: nat, k: nat, start: nat, read: nat)
    requires IsRun(r) && h < k < |r.states| && FewThreads(r.states[k]) && t != MAIN && t in r.states[k].th
    requires Statement(r.states[h], r.events[h], t, Handlers) && r.states[h].th[t].pattern != Aperiodic
    requires LogAt(r, t, h).start == Some(start) && LogAt(r, t, h).read == read
    requires r.states[h].th[t].minPeriod < read - start < 0x1_0000_0000
    ensures var ticks := 0x1_0000_0000 - (read - start - r.states[h].th[t].minPeriod);
      !CutShort(r.states[h], ticks) ==> SleepsUntil(r, k, t, r.states[h].time + ticks)
  {
    var x := r.states[h].th[t];
    var ticks := Sub32(Add32(x.counter, x.minPeriod), x.ticksAux);
    IdsGrow(r, h, k);
    CycleRun(r, t, h);
    RemainingTime(start, x.minPeriod, read);
    SleepRefinesClock(r, h, k, t, ticks);
  }
}
