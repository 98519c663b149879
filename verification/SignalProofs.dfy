/** Signals to sporadic and aperiodic threads: none is lost, none is served twice, and the
    minimum interarrival time is kept. */
module SignalProofs {
  import opened Words
  import opened KernelModel
  import opened KernelRuns
  import opened SeparationProofs
  import opened Policies
  import SleepProofs

  // ---------------------------------------------------------------- conservation

  /** Signals accepted for a thread and cycles it completed. */
  datatype Tally = Tally(accepted: nat, completed: nat)

  predicate Accepts(s: State, e: Event, t: Tid) {
    e == Signal(t) && t in s.th && Decide(s.th[t], s.clock).accept
  }

  function Count(n: Tally, s: State, e: Event, t: Tid): Tally {
    if Accepts(s, e, t) then n.(accepted := n.accepted + 1)
    else if Statement(s, e, t, Decrement) then n.(completed := n.completed + 1)
    else n
  }

  function TallyAt(r: Run, t: Tid, i: nat): Tally
    requires i < |r.states| == |r.events| + 1
  {
    if i == 0 then Tally(0, 0) else Count(TallyAt(r, t, i - 1), r.states[i - 1], r.events[i - 1], t)
  }

  /** Between passing its gate and the decrement at the end of the loop. */
  predicate InCycle(x: Thread) {
    x.pc in {Stamp, Reset, Executor, Charging, Handlers, Decrement}
  }

  predicate NoOverSave(x: Thread) {
    x.pattern != Periodic && x.mitPolicy / 16 != 1 && x.queueMax < 0x7FFF_FFFF
  }

  /** Without OVER_SAVE at most queue_length_max + 1 signals are outstanding. */
  ghost predicate QueueBounded(x: Thread, n: Tally) {
    NoOverSave(x) ==> n.accepted <= n.completed || n.accepted - n.completed <= x.queueMax + 1
  }

  ghost predicate Balanced(x: Thread, n: Tally) {
    && QueueBounded(x, n)
    && (x.status == Blocked ==> x.pc == Gate && x.pattern != Periodic && x.pending <= 0)
    && (x.pattern != Periodic ==>
      && x.pending == AsInt32(n.accepted - n.completed)
      && n.completed + (if InCycle(x) then 1 else 0) <= n.accepted)
  }

  /** The fields the tally is about. */
  ghost predicate SameQueue(x: Thread, y: Thread) {
    && x.pending == y.pending && x.pc == y.pc && x.pattern == y.pattern
    && x.queueMax == y.queueMax && x.mitPolicy == y.mitPolicy && x.minPeriod == y.minPeriod
    && (y.status == Blocked ==> x.status == Blocked)
  }

  lemma SettleQueue(x: Thread, r: Role)
    ensures SameQueue(x, Settle(x, r)) && (Settle(x, r).status == Blocked <==> x.status == Blocked)
  {
  }

  lemma TouchQueue(x: Thread, e: Event, r: Role)
    requires !(e.Signal? && r.target) && !(e.PatternStep? && r.current)
    ensures SameQueue(x, Touch(x, e, r))
  {
  }

  /** What a step does to the queue fields of one thread. */
  lemma QueueMove(x: Thread, e: Event, r: Role)
    ensures var y := Move(x, e, r);
      if e.Signal? && r.target then SameQueue(Signalled(x, r.clock), y)
      else if e.PatternStep? && r.current then SameQueue(PatternPre(x, r.clock, r.lastCost), y)
      else SameQueue(x, y)
  {
    if !(e.Signal? && r.target) && !(e.PatternStep? && r.current) {
      TouchQueue(x, e, r);
    }
    if r.resched {
      SettleQueue(Touch(x, e, r), r);
    }
  }

  lemma SignalBalances(x: Thread, now: u32, y: Thread, n: Tally)
    requires Balanced(x, n) && SameQueue(Signalled(x, now), y)
    ensures Balanced(y, if Decide(x, now).accept then n.(accepted := n.accepted + 1) else n)
  {
    Count32(n.accepted - n.completed);
    assert NoOverSave(x) && Decide(x, now).accept ==> x.queueMax >= x.pending;
  }

  lemma StatementBalances(x: Thread, clock: u32, lastCost: u32, y: Thread, n: Tally)
    requires x.status == Active && Balanced(x, n) && SameQueue(PatternPre(x, clock, lastCost), y)
    ensures Balanced(y, if x.pc == Decrement then n.(completed := n.completed + 1) else n)
  {
    Count32(n.accepted - n.completed);
  }

  lemma SameBalances(x: Thread, y: Thread, n: Tally)
    requires Balanced(x, n) && SameQueue(x, y)
    ensures Balanced(y, n)
  {
  }

  lemma QueueStep(s: State, e: Event, t: Tid)
    requires WF(s) && Enabled(s, e) && t in s.th && t in Step(s, e).th
    ensures var x, y := s.th[t], Step(s, e).th[t];
      if e == Signal(t) then SameQueue(Signalled(x, s.clock), y)
      else if e.PatternStep? && s.current == t then SameQueue(PatternPre(x, s.clock, s.lastCost), y)
      else SameQueue(x, y)
  {
    if Structural(e) {
      assert ThreadOk(s, t);
      StepThreads(s, e, t);
    } else {
      ThreadStep(s, e, t);
      QueueMove(s.th[t], e, RoleOf(s, e, t));
    }
  }

  lemma BalanceStep(s: State, e: Event, t: Tid, n: Tally)
    requires WF(s) && Enabled(s, e) && t in s.th && t in Step(s, e).th && Balanced(s.th[t], n)
    ensures Balanced(Step(s, e).th[t], Count(n, s, e, t))
  {
    QueueStep(s, e, t);
    if e == Signal(t) {
      SignalBalances(s.th[t], s.clock, Step(s, e).th[t], n);
    } else if e.PatternStep? && s.current == t {
      StatementBalances(s.th[t], s.clock, s.lastCost, Step(s, e).th[t], n);
    } else {
      SameBalances(s.th[t], Step(s, e).th[t], n);
    }
  }

  lemma {:induction false} NoTallyBefore(r: Run, t: Tid, i: nat)
    requires IsRun(r) && i < |r.states| && r.states[i].nextTid <= t && t !in r.states[i].th
    ensures TallyAt(r, t, i) == Tally(0, 0)
  {
    if i > 0 {
      RunGoes(r, i - 1);
      UnbornBefore(r.states[i - 1], r.events[i - 1], t);
      NoTallyBefore(r, t, i - 1);
    }
  }

  lemma BalanceNext(r: Run, t: Tid, i: nat)
    requires IsRun(r) && i < |r.events| && t in r.states[i].th && t in r.states[i + 1].th
    requires Balanced(r.states[i].th[t], TallyAt(r, t, i))
    ensures Balanced(r.states[i + 1].th[t], TallyAt(r, t, i + 1))
  {
    assert GoesAt(r, i);
    BalanceStep(r.states[i], r.events[i], t, TallyAt(r, t, i));
  }

  lemma NewbornBalanced(cfg: Config)
    ensures Balanced(NewThread(cfg), Tally(0, 0))
  {
    Count32(0);
  }

  lemma BalanceBorn(r: Run, t: Tid, i: nat)
    requires IsRun(r) && 0 < i < |r.states| && t != MAIN && t in r.states[i].th && t !in r.states[i - 1].th
    ensures Balanced(r.states[i].th[t], TallyAt(r, t, i))
  {
    var cfg := BornAt(r, t, i);
    NoTallyAtBirth(r, t, i);
    NewbornBalanced(cfg);
  }

  lemma NoTallyAtBirth(r: Run, t: Tid, i: nat)
    requires IsRun(r) && 0 < i < |r.states| && r.events[i - 1].Create?
    requires t == r.states[i - 1].nextTid && t !in r.states[i - 1].th
    ensures TallyAt(r, t, i) == Tally(0, 0)
  {
    NoTallyBefore(r, t, i - 1);
    assert TallyAt(r, t, i) == Count(TallyAt(r, t, i - 1), r.states[i - 1], r.events[i - 1], t);
  }

  lemma {:induction false} BalanceRun(r: Run, t: Tid, i: nat)
    requires IsRun(r) && i < |r.states| && t != MAIN && t in r.states[i].th
    ensures Balanced(r.states[i].th[t], TallyAt(r, t, i))
  {
    if i > 0 {
      if t in r.states[i - 1].th {
        BalanceRun(r, t, i - 1);
        BalanceNext(r, t, i - 1);
      } else {
        BalanceBorn(r, t, i);
      }
    }
  }

  /** The accepted signals are the completed cycles plus queue_pending, as long as fewer
      than 2^31 signals are outstanding, and modulo 2^32 beyond that; the outstanding
      number is never negative, and at every executor call it is at least 1. */
  ghost predicate Conserved(x: Thread, n: Tally) {
    var outstanding := n.accepted - n.completed;
    && 0 <= outstanding && x.pending == AsInt32(outstanding)
    && (outstanding < 0x8000_0000 ==> n.accepted == n.completed + x.pending && x.pending >= 0)
    && (x.pc == Executor ==> outstanding >= 1)
    && (x.pc == Executor && outstanding < 0x8000_0000 ==> x.pending >= 1)
  }

  lemma BalancedConserves(x: Thread, n: Tally)
    requires Balanced(x, n) && x.pattern != Periodic
    ensures Conserved(x, n)
    ensures x.status == Blocked && n.accepted - n.completed < 0x8000_0000 ==> n.accepted == n.completed
  {
    Count32(n.accepted - n.completed);
  }

  /** Signal conservation in every reachable state of a sporadic or aperiodic thread. */
  lemma SignalConservation(r: Run, t: Tid, i: nat)
    requires IsRun(r) && i < |r.states| && t != MAIN && t in r.states[i].th
    requires r.states[i].th[t].pattern != Periodic
    ensures Conserved(r.states[i].th[t], TallyAt(r, t, i))
  {
    BalanceRun(r, t, i);
    BalancedConserves(r.states[i].th[t], TallyAt(r, t, i));
  }

  /** No lost wakeup: a thread blocked at its gate has nothing to serve, although rejected
      signals wake it too. */
  lemma NoLostWakeup(r: Run, t: Tid, i: nat)
    requires IsRun(r) && i < |r.states| && t != MAIN && t in r.states[i].th
    requires r.states[i].th[t].status == Blocked
    ensures r.states[i].th[t].pending <= 0 && r.states[i].th[t].pattern != Periodic
    ensures var n := TallyAt(r, t, i); n.accepted - n.completed < 0x8000_0000 ==> n.accepted == n.completed
  {
    BalanceRun(r, t, i);
    BalancedConserves(r.states[i].th[t], TallyAt(r, t, i));
  }

  /** The queue bound, in every reachable state. */
  lemma QueueBound(r: Run, t: Tid, i: nat)
    requires IsRun(r) && i < |r.states| && t != MAIN && t in r.states[i].th && NoOverSave(r.states[i].th[t])
    ensures var x := r.states[i].th[t]; var n := TallyAt(r, t, i);
      n.accepted == n.completed || n.accepted - n.completed <= x.queueMax + 1
  {
    BalanceRun(r, t, i);
  }

  // ---------------------------------------------------------------- the policies

  lemma SignalMove(x: Thread, e: Event, r: Role)
    requires e.Signal? && r.target && (r.resched <==> x.status == Blocked)
    ensures var y, z := Move(x, e, r), Signalled(x, r.clock);
      y.pending == z.pending && y.lastInput == z.lastInput && y.status == z.status
  {
  }

  /** In every state a signal does to its target what the table of the policies says. */
  lemma SignalByTable(s: State, t: Tid)
    requires WF(s) && Enabled(s, Signal(t))
    ensures t in Step(s, Signal(t)).th
    ensures Table(s.th[t], Step(s, Signal(t)).th[t], s.clock, Decide(s.th[t], s.clock).result)
  {
    ThreadStep(s, Signal(t), t);
    SignalMove(s.th[t], Signal(t), RoleOf(s, Signal(t), t));
    SignalledByTable(s.th[t], s.clock);
  }

  /** A signal is counted exactly when it finds room in time, or comes early under SAVE, or
      finds the queue full under OVER_SAVE; and nothing but a signal is. */
  lemma CountedByPolicy(r: Run, t: Tid, i: nat)
    requires IsRun(r) && i < |r.events|
    ensures r.events[i] == Signal(t) ==> t in r.states[i].th
    ensures var counted := r.events[i] == Signal(t) && Counts(r.states[i].th[t], r.states[i].clock);
      TallyAt(r, t, i + 1).accepted == TallyAt(r, t, i).accepted + if counted then 1 else 0
  {
    RunGoes(r, i);
    if t in r.states[i].th {
      AcceptsIfCounts(r.states[i].th[t], r.states[i].clock);
    }
  }

  /** The signals sent to t so far. */
  function Sent(r: Run, t: Tid, i: nat): nat
    requires i <= |r.events|
  {
    if i == 0 then 0 else Sent(r, t, i - 1) + if r.events[i - 1] == Signal(t) then 1 else 0
  }

  /** SAVE wherever a signal could be turned away. */
  predicate SavesAll(x: Thread) {
    x.mitPolicy / 16 == 1 && (x.pattern != Sporadic || x.mitPolicy % 16 == 1)
  }

  lemma {:induction false} NoneSentBefore(r: Run, t: Tid, i: nat)
    requires IsRun(r) && i < |r.states| && r.states[i].nextTid <= t && t !in r.states[i].th
    ensures Sent(r, t, i) == 0
  {
    if i > 0 {
      RunGoes(r, i - 1);
      UnbornBefore(r.states[i - 1], r.events[i - 1], t);
      NoneSentBefore(r, t, i - 1);
    }
  }

  lemma NoneSentAtBirth(r: Run, t: Tid, i: nat)
    requires IsRun(r) && 0 < i < |r.states| && t != MAIN && t in r.states[i].th && t !in r.states[i - 1].th
    ensures Sent(r, t, i) == TallyAt(r, t, i).accepted
  {
    var cfg := BornAt(r, t, i);
    NoTallyAtBirth(r, t, i);
    NoneSentBefore(r, t, i - 1);
  }

  lemma {:induction false} SentAreCounted(r: Run, t: Tid, i: nat)
    requires IsRun(r) && i < |r.states| && t != MAIN && t in r.states[i].th && SavesAll(r.states[i].th[t])
    ensures Sent(r, t, i) == TallyAt(r, t, i).accepted
  {
    if i > 0 {
      if t in r.states[i - 1].th {
        PolicyKept(r, t, i - 1);
        SentAreCounted(r, t, i - 1);
        CountedByPolicy(r, t, i - 1);
      } else {
        NoneSentAtBirth(r, t, i);
      }
    }
  }

  /** With SAVE and OVER_SAVE, or for an aperiodic thread with OVER_SAVE alone, no signal is
      ever lost: in every run those sent are the completed cycles plus queue_pending (modulo
      2^32 from 2^31 outstanding ones on). */
  lemma NoSignalLost(r: Run, t: Tid, i: nat)
    requires IsRun(r) && i < |r.states| && t != MAIN && t in r.states[i].th
    requires r.states[i].th[t].pattern != Periodic && SavesAll(r.states[i].th[t])
    ensures Conserved(r.states[i].th[t], Tally(Sent(r, t, i), TallyAt(r, t, i).completed))
  {
    SentAreCounted(r, t, i);
    SignalConservation(r, t, i);
  }

  // ---------------------------------------------------------------- minimum interarrival time

  /** The true time of the last recorded arrival; the time the field stands for, one period
      later with every ageing; the last accepted arrival; and whether the last ageing since
      the record came before two periods had truly passed. */
  datatype Arrivals = Arrivals(last: nat, field: nat, accepted: Option<nat>, premature: bool)

  /** The test of thread_signal. */
  predicate MitTest(x: Thread, now: u32) {
    Sub32(now, x.lastInput) > x.minPeriod
  }

  /** The reference it stands for: more than a period since the last recorded arrival. */
  predicate Due(x: Thread, now: int, a: Arrivals) {
    now - a.last > x.minPeriod
  }

  predicate Ages(y: Thread, clock: u32) {
    y.status == Blocked && Add32(y.lastInput, Add32(y.minPeriod, y.minPeriod)) < clock
  }

  /** queue_last_input + 2 * min_period_ticks does not fit 32 bits. */
  predicate AgeOverflows(y: Thread) {
    y.lastInput + 2 * y.minPeriod >= 0x1_0000_0000
  }

  function OnSignal(a: Arrivals, x: Thread, now: nat, clock: u32): Arrivals {
    var d := Decide(x, clock);
    Arrivals(if d.record then now else a.last, if d.record then now else a.field,
             if d.accept then Some(now) else a.accepted, a.premature && !d.record)
  }

  function OnScan(a: Arrivals, y: Thread, now: nat): Arrivals {
    if Ages(y, Word(now))
    then a.(field := a.field + y.minPeriod, premature := a.field + 2 * y.minPeriod >= now)
    else a
  }

  ghost function Watch(a: Arrivals, s: State, e: Event, t: Tid): Arrivals
    requires WF(s) && Enabled(s, e) && t in s.th
  {
    PreLinked(s, e);
    var b := if e == Signal(t) then OnSignal(a, s.th[t], s.time, s.clock) else a;
    if Resched(s, e) then OnScan(b, Pre(s, e).th[t], Pre(s, e).time) else b
  }

  /** A sporadic thread starts with queue_last_input 0, the beginning of the current lap. */
  ghost function ArrivalsAt(r: Run, t: Tid, i: nat): Arrivals
    requires IsRun(r) && i < |r.states|
  {
    if i == 0 then Arrivals(0, 0, None, false)
    else
      RunWf(r, i - 1);
      assert GoesAt(r, i - 1);
      var s, n := r.states[i - 1], r.states[i];
      if t in s.th then Watch(ArrivalsAt(r, t, i - 1), s, r.events[i - 1], t)
      else Arrivals(LapStart(n.time), LapStart(n.time), None, false)
  }

  function LapStart(now: nat): (start: nat)
    ensures start <= now
  {
    Lap(now) * 0x1_0000_0000
  }

  // ---------------------------------------------------------------- what the field stands for

  ghost predicate Tracks(x: Thread, now: int, a: Arrivals) {
    && a.last <= a.field && a.last <= now && x.lastInput == Word(a.field)
    && (a.accepted.Some? ==> a.accepted.value <= a.last)
    && (!a.premature ==> a.field <= now && (a.field > a.last ==> now - a.field > x.minPeriod))
  }

  ghost predicate Tracked(x: Thread, now: int, a: Arrivals) {
    x.pattern == Sporadic ==> Tracks(x, now, a)
  }

  lemma SignalTracks(x: Thread, now: nat, a: Arrivals)
    requires x.pattern == Sporadic && Tracks(x, now, a)
    ensures Tracks(Signalled(x, Word(now)), now, OnSignal(a, x, now, Word(now)))
  {
  }

  lemma ScanTracks(y: Thread, now: nat, a: Arrivals)
    requires Tracks(y, now, a)
    ensures Wake(y, Word(now), false).lastInput == Wake(y, Word(now), true).lastInput
    ensures Tracks(y.(lastInput := Wake(y, Word(now), true).lastInput), now, OnScan(a, y, now))
  {
    WordAdd(a.field, y.minPeriod);
    assert Word(y.minPeriod) == y.minPeriod;
    assert Wake(y, Word(now), true).lastInput ==
      if Ages(y, Word(now)) then Add32(y.lastInput, y.minPeriod) else y.lastInput;
  }

  /** The counter never shows more than the true distance. */
  lemma WordDistance(a: int, b: int)
    requires a <= b
    ensures Word(b) - Word(a) <= b - a
  {
  }

  /** Which ageings are premature: a scan that ages a field not ahead of the clock does so
      after two true periods, unless the sum overflowed and the counter has not wrapped
      since the time the field stands for. */
  lemma AgeingExact(y: Thread, field: nat, now: nat)
    requires Ages(y, Word(now)) && y.lastInput == Word(field) && field <= now && y.minPeriod < PERIODS
    ensures field + 2 * y.minPeriod < now <==> !(AgeOverflows(y) && Lap(field) == Lap(now))
  {
    WordDistance(field, now);
  }

  // ---------------------------------------------------------------- the field over steps and runs

  ghost predicate SameMit(x: Thread, y: Thread) {
    x.lastInput == y.lastInput && x.pattern == y.pattern && x.minPeriod == y.minPeriod && x.mitPolicy == y.mitPolicy
  }

  lemma TouchMit(x: Thread, e: Event, r: Role)
    ensures if e.Signal? && r.target then SameMit(Signalled(x, r.clock), Touch(x, e, r)) else SameMit(x, Touch(x, e, r))
  {
  }

  lemma SettleMit(x: Thread, r: Role, carry: bool)
    ensures SameMit(x.(lastInput := Wake(x, r.clock, carry).lastInput), Settle(x, r))
    ensures Settle(x, r).status == Blocked <==> x.status == Blocked
    ensures Settle(x, r).lastInput != x.lastInput ==> Ages(x, r.clock)
  {
  }

  lemma MitMove(x: Thread, e: Event, r: Role, before: nat, now: nat, a: Arrivals, b: Arrivals)
    requires Tracked(x, before, a) && before <= now && r.clock == Word(now)
    requires e.Signal? && r.target ==> before == now
    requires b == if e.Signal? && r.target then OnSignal(a, x, now, r.clock) else a
    ensures Tracked(Touch(x, e, r), now, b)
    ensures Tracked(Move(x, e, r), now, if r.resched then OnScan(b, Touch(x, e, r), now) else b)
  {
    TouchMit(x, e, r);
    if x.pattern == Sporadic && e.Signal? && r.target {
      SignalTracks(x, now, a);
    }
    var y := Touch(x, e, r);
    if r.resched {
      SettleMit(y, r, true);
      if y.pattern == Sporadic {
        ScanTracks(y, now, b);
      }
    }
  }

  lemma WatchStep(s: State, e: Event, t: Tid, a: Arrivals)
    requires WF(s) && Enabled(s, e) && t in s.th && t in Step(s, e).th && Tracked(s.th[t], s.time, a)
    ensures Tracked(Step(s, e).th[t], Step(s, e).time, Watch(a, s, e, t))
  {
    ClockStep(s, e);
    if Structural(e) {
      assert ThreadOk(s, t);
      StepThreads(s, e, t);
    } else {
      var r := RoleOf(s, e, t);
      ThreadStep(s, e, t);
      PreThread(s, e, t);
      TouchRole(s.th[t], e, PreRole(s, e, t), r.next);
      MitMove(s.th[t], e, r, s.time, Step(s, e).time, a,
              if e == Signal(t) then OnSignal(a, s.th[t], s.time, s.clock) else a);
    }
  }

  lemma NewbornTracked(cfg: Config, now: nat)
    ensures Tracked(NewThread(cfg), now, Arrivals(LapStart(now), LapStart(now), None, false))
  {
  }

  lemma {:induction false} WatchRun(r: Run, t: Tid, i: nat)
    requires IsRun(r) && i < |r.states| && t != MAIN && t in r.states[i].th
    ensures Tracked(r.states[i].th[t], r.states[i].time, ArrivalsAt(r, t, i))
  {
    if i > 0 {
      RunGoes(r, i - 1);
      if t in r.states[i - 1].th {
        WatchRun(r, t, i - 1);
        WatchStep(r.states[i - 1], r.events[i - 1], t, ArrivalsAt(r, t, i - 1));
      } else {
        Newborn(r.states[i - 1], r.events[i - 1], t);
        NewbornTracked(r.events[i - 1].config, r.states[i].time);
      }
    }
  }

  ghost predicate SignalsAt(r: Run, i: nat, t: Tid) {
    && IsRun(r) && i < |r.events| && t != MAIN && r.events[i] == Signal(t)
    && t in r.states[i].th && r.states[i].th[t].pattern == Sporadic
  }

  lemma SignalTracked(r: Run, i: nat, t: Tid)
    requires SignalsAt(r, i, t)
    ensures Tracks(r.states[i].th[t], r.states[i].time, ArrivalsAt(r, t, i))
    ensures r.states[i].clock == Word(r.states[i].time)
    ensures MitTest(r.states[i].th[t], r.states[i].clock)
      <==> Word(r.states[i].time - ArrivalsAt(r, t, i).field) > r.states[i].th[t].minPeriod
  {
    RunWf(r, i);
    WatchRun(r, t, i);
    WordSub(r.states[i].time, ArrivalsAt(r, t, i).field);
  }

  /** Unless the last ageing since the record was premature, the test of thread_signal
      decides like the reference with the true last recorded arrival, if and only if less
      than a lap of the counter has passed since the time the field stands for, or more than
      a period beyond whole laps. */
  lemma AgeingChangesNoDecision(r: Run, i: nat, t: Tid)
    requires SignalsAt(r, i, t) && !ArrivalsAt(r, t, i).premature
    ensures var x, now, a := r.states[i].th[t], r.states[i].time, ArrivalsAt(r, t, i);
      (MitTest(x, r.states[i].clock) <==> Due(x, now, a))
      <==> (now - a.field < 0x1_0000_0000 || Word(now - a.field) > x.minPeriod)
  {
    SignalTracked(r, i, t);
    WordSmall(r.states[i].time - ArrivalsAt(r, t, i).field);
  }

  // ---------------------------------------------------------------- ageing and acceptance

  predicate PastStamp(x: Thread) {
    x.pc in {Reset, Executor, Charging, Handlers, Decrement}
  }

  /** What keeps ageing away from a recent acceptance: a thread with nothing outstanding, and
      so every blocked one, has served its last accepted signal for at least a period. */
  ghost predicate Served(x: Thread, now: int, n: Tally, a: Arrivals, log: Log) {
    a.accepted.Some? ==>
      var v := a.accepted.value;
      && v <= a.last <= now
      && (n.accepted == n.completed ==> v + x.minPeriod < now)
      && (n.accepted == n.completed + 1 && PastStamp(x) ==> log.start.Some? && v <= log.start.value)
      && (v + x.minPeriod < now || x.lastInput == Word(a.last))
  }

  lemma IdleWhenBlocked(y: Thread, n: Tally)
    requires Balanced(y, n) && y.pattern == Sporadic && NoOverSave(y) && y.status == Blocked
    ensures n.accepted == n.completed
  {
    Count32(n.accepted - n.completed);
  }

  lemma ServedOther(x: Thread, y: Thread, before: nat, now: nat, n: Tally, a: Arrivals, log: Log)
    requires Served(x, before, n, a, log) && before <= now && SameQueue(x, y)
    requires y.status == Blocked ==> n.accepted == n.completed
    requires y.lastInput != x.lastInput ==> y.status == Blocked
    ensures Served(y, now, n, a, log)
  {
  }

  lemma ServedSignal(x: Thread, y: Thread, now: nat, n: Tally, a: Arrivals, log: Log, m: Tally)
    requires Served(x, now, n, a, log) && Balanced(x, n) && x.pattern == Sporadic && a.last <= now
    requires SameQueue(Signalled(x, Word(now)), y) && y.lastInput == Signalled(x, Word(now)).lastInput
    requires m == if Decide(x, Word(now)).accept then n.(accepted := n.accepted + 1) else n
    ensures Served(y, now, m, OnSignal(a, x, now, Word(now)), log)
  {
  }

  lemma ServedOwn(x: Thread, y: Thread, now: nat, lastCost: u32, n: Tally, a: Arrivals, log: Log)
    requires Served(x, now, n, a, log) && Balanced(x, n) && Cycle(x, now, log)
    requires x.status == Active && x.pattern == Sporadic
    requires SameQueue(PatternPre(x, Word(now), lastCost), y)
    requires y.status == Blocked ==> x.pc == Gate && n.accepted == n.completed
    requires y.lastInput != x.lastInput ==> y.status == Blocked
    ensures Served(y, now, if x.pc == Decrement then n.(completed := n.completed + 1) else n, a,
                   if x.pc == Stamp then log.(start := Some(now)) else log)
  {
  }

  /** queue_last_input as the scan of the step finds it. */
  function FieldBefore(s: State, e: Event, t: Tid): u32
    requires t in s.th
  {
    if e == Signal(t) then Signalled(s.th[t], s.clock).lastInput else s.th[t].lastInput
  }

  /** The scan writes the field of a blocked thread only, by its test. */
  lemma AgedOnlyBlocked(s: State, e: Event, t: Tid)
    requires WF(s) && Enabled(s, e) && t in s.th && t in Step(s, e).th
    ensures Step(s, e).th[t].lastInput != FieldBefore(s, e, t) ==> Step(s, e).th[t].status == Blocked
    ensures var p := s.th[t].minPeriod; Step(s, e).th[t].lastInput != FieldBefore(s, e, t) ==>
      Add32(FieldBefore(s, e, t), Add32(p, p)) < Step(s, e).clock
  {
    if Structural(e) {
      assert ThreadOk(s, t);
      StepThreads(s, e, t);
    } else {
      var r := RoleOf(s, e, t);
      ThreadStep(s, e, t);
      ClockStep(s, e);
      PreThread(s, e, t);
      TouchRole(s.th[t], e, PreRole(s, e, t), r.next);
      TouchMit(s.th[t], e, r);
      SettleMit(Touch(s.th[t], e, r), r, true);
    }
  }

  /** What the scan leaves of the observer's notes. */
  lemma WatchNotes(a: Arrivals, s: State, e: Event, t: Tid)
    requires WF(s) && Enabled(s, e) && t in s.th
    ensures var b := if e == Signal(t) then OnSignal(a, s.th[t], s.time, s.clock) else a;
      Watch(a, s, e, t).last == b.last && Watch(a, s, e, t).accepted == b.accepted
  {
  }

  lemma ServedNotes(x: Thread, now: int, n: Tally, a: Arrivals, log: Log, b: Arrivals, log': Log)
    requires Served(x, now, n, a, log) && a.last == b.last && a.accepted == b.accepted && log.start == log'.start
    ensures Served(x, now, n, b, log')
  {
  }

  ghost predicate SteadyAndServed(s: State, t: Tid, n: Tally, a: Arrivals, log: Log) {
    && Steady(s, t, log) && Balanced(s.th[t], n) && Served(s.th[t], s.time, n, a, log)
    && s.th[t].pattern == Sporadic && NoOverSave(s.th[t]) && a.last <= s.time
  }

  /** A thread blocked after the step has nothing outstanding then. */
  lemma StepIdle(s: State, e: Event, t: Tid, n: Tally)
    requires WF(s) && Enabled(s, e) && t in s.th && t in Step(s, e).th && Balanced(s.th[t], n)
    requires s.th[t].pattern == Sporadic && NoOverSave(s.th[t])
    ensures Step(s, e).th[t].status == Blocked ==> Count(n, s, e, t).accepted == Count(n, s, e, t).completed
  {
    PolicyStep(s, e, t);
    BalanceStep(s, e, t, n);
    if Step(s, e).th[t].status == Blocked {
      IdleWhenBlocked(Step(s, e).th[t], Count(n, s, e, t));
    }
  }

  lemma ServedSignalStep(s: State, t: Tid, n: Tally, a: Arrivals, log: Log)
    requires WF(s) && Enabled(s, Signal(t)) && t in Step(s, Signal(t)).th && SteadyAndServed(s, t, n, a, log)
    ensures var e := Signal(t);
      Served(Step(s, e).th[t], Step(s, e).time, Count(n, s, e, t), Watch(a, s, e, t), Note(log, s, e, t))
  {
    var e, x := Signal(t), s.th[t];
    QueueStep(s, e, t);
    SignalWakes(s, t);
    AgedOnlyBlocked(s, e, t);
    WatchNotes(a, s, e, t);
    ClockStep(s, e);
    ServedSignal(x, Step(s, e).th[t], s.time, n, a, log, Count(n, s, e, t));
    ServedNotes(Step(s, e).th[t], s.time, Count(n, s, e, t), OnSignal(a, x, s.time, s.clock), log,
                Watch(a, s, e, t), log);
  }

  /** Every signal, accepted or not, leaves its target unblocked. */
  lemma SignalWakes(s: State, t: Tid)
    requires WF(s) && Enabled(s, Signal(t)) && t in Step(s, Signal(t)).th
    ensures Step(s, Signal(t)).th[t].status != Blocked
  {
    QueueStep(s, Signal(t), t);
  }

  lemma ServedOwnStep(s: State, t: Tid, n: Tally, a: Arrivals, log: Log)
    requires WF(s) && Enabled(s, PatternStep) && t in Step(s, PatternStep).th && SteadyAndServed(s, t, n, a, log)
    requires s.current == t
    ensures var e := PatternStep;
      Served(Step(s, e).th[t], Step(s, e).time, Count(n, s, e, t), Watch(a, s, e, t), Note(log, s, e, t))
  {
    var e, x := PatternStep, s.th[t];
    QueueStep(s, e, t);
    StepIdle(s, e, t, n);
    AgedOnlyBlocked(s, e, t);
    WatchNotes(a, s, e, t);
    ClockStep(s, e);
    ServedOwn(x, Step(s, e).th[t], s.time, s.lastCost, n, a, log);
    ServedNotes(Step(s, e).th[t], s.time, Count(n, s, e, t), a,
                if x.pc == Stamp then log.(start := Some(s.time)) else log, Watch(a, s, e, t), Note(log, s, e, t));
  }

  lemma ServedOtherStep(s: State, e: Event, t: Tid, n: Tally, a: Arrivals, log: Log)
    requires WF(s) && Enabled(s, e) && t in Step(s, e).th && SteadyAndServed(s, t, n, a, log)
    requires e != Signal(t) && !(e.PatternStep? && s.current == t)
    ensures Served(Step(s, e).th[t], Step(s, e).time, Count(n, s, e, t), Watch(a, s, e, t), Note(log, s, e, t))
  {
    QueueStep(s, e, t);
    StepIdle(s, e, t, n);
    AgedOnlyBlocked(s, e, t);
    WatchNotes(a, s, e, t);
    ClockStep(s, e);
    ServedOther(s.th[t], Step(s, e).th[t], s.time, Step(s, e).time, n, a, log);
    ServedNotes(Step(s, e).th[t], Step(s, e).time, n, a, log, Watch(a, s, e, t), Note(log, s, e, t));
  }

  lemma ServedStep(s: State, e: Event, t: Tid, n: Tally, a: Arrivals, log: Log)
    requires WF(s) && Enabled(s, e) && t in Step(s, e).th && SteadyAndServed(s, t, n, a, log)
    ensures Served(Step(s, e).th[t], Step(s, e).time, Count(n, s, e, t), Watch(a, s, e, t), Note(log, s, e, t))
  {
    if e == Signal(t) {
      ServedSignalStep(s, t, n, a, log);
    } else if e == PatternStep && s.current == t {
      ServedOwnStep(s, t, n, a, log);
    } else {
      ServedOtherStep(s, e, t, n, a, log);
    }
  }

  ghost predicate SamePolicy(x: Thread, y: Thread) {
    && x.pattern == y.pattern && x.minPeriod == y.minPeriod
    && x.mitPolicy == y.mitPolicy && x.queueMax == y.queueMax
  }

  lemma PolicyKept(r: Run, t: Tid, i: nat)
    requires IsRun(r) && i < |r.events| && t in r.states[i].th && t in r.states[i + 1].th
    ensures SamePolicy(r.states[i].th[t], r.states[i + 1].th[t])
  {
    RunGoes(r, i);
    PolicyStep(r.states[i], r.events[i], t);
  }

  lemma PolicyStep(s: State, e: Event, t: Tid)
    requires WF(s) && Enabled(s, e) && t in s.th && t in Step(s, e).th
    ensures SamePolicy(s.th[t], Step(s, e).th[t])
  {
    QueueStep(s, e, t);
    PatternPolicy(s.th[t], s.clock, s.lastCost);
  }

  lemma PatternPolicy(x: Thread, clock: u32, lastCost: u32)
    ensures SamePolicy(x, PatternPre(x, clock, lastCost))
  {
  }

  ghost predicate ServedAt(r: Run, t: Tid, i: nat)
    requires IsRun(r) && i < |r.states| && t in r.states[i].th
  {
    Served(r.states[i].th[t], r.states[i].time, TallyAt(r, t, i), ArrivalsAt(r, t, i), LogAt(r, t, i))
  }

  lemma ServedNext(r: Run, t: Tid, i: nat)
    requires IsRun(r) && i < |r.events| && FewThreads(r.states[i]) && t != MAIN
    requires t in r.states[i].th && t in r.states[i + 1].th && ServedAt(r, t, i)
    requires r.states[i].th[t].pattern == Sporadic && NoOverSave(r.states[i].th[t])
    ensures ServedAt(r, t, i + 1)
  {
    RunWf(r, i);
    assert GoesAt(r, i);
    CycleRun(r, t, i);
    BalanceRun(r, t, i);
    WatchRun(r, t, i);
    ServedStep(r.states[i], r.events[i], t, TallyAt(r, t, i), ArrivalsAt(r, t, i), LogAt(r, t, i));
  }

  lemma NothingAccepted(r: Run, t: Tid, i: nat)
    requires IsRun(r) && 0 < i < |r.states| && t != MAIN && t in r.states[i].th && t !in r.states[i - 1].th
    ensures var start := LapStart(r.states[i].time); ArrivalsAt(r, t, i) == Arrivals(start, start, None, false)
    ensures r.states[i].th[t].pattern == Sporadic ==> r.states[i].th[t].lastInput == 0
    ensures r.states[i].th[t].minPeriod < PERIODS
  {
    RunGoes(r, i - 1);
    Newborn(r.states[i - 1], r.events[i - 1], t);
  }

  lemma {:induction false} ServedRun(r: Run, t: Tid, i: nat)
    requires IsRun(r) && i < |r.states| && FewThreads(r.states[i]) && t != MAIN && t in r.states[i].th
    requires r.states[i].th[t].pattern == Sporadic && NoOverSave(r.states[i].th[t])
    ensures ServedAt(r, t, i)
  {
    if i > 0 {
      IdsGrow(r, i - 1, i);
      if t in r.states[i - 1].th {
        PolicyKept(r, t, i - 1);
        ServedRun(r, t, i - 1);
        ServedNext(r, t, i - 1);
      } else {
        NothingAccepted(r, t, i);
      }
    }
  }

  // ---------------------------------------------------------------- the spacing of accepted arrivals

  /** Neither SAVE nor OVER_SAVE. */
  predicate NoSave(x: Thread) {
    x.mitPolicy % 16 != 1 && x.mitPolicy / 16 != 1
  }

  lemma WatchRemembers(a: Arrivals, s: State, e: Event, t: Tid, since: nat)
    requires WF(s) && Enabled(s, e) && t in s.th && since <= s.time
    requires (a.accepted.Some? && a.accepted.value >= since) || Accepts(s, e, t)
    ensures Watch(a, s, e, t).accepted.Some? && Watch(a, s, e, t).accepted.value >= since
  {
  }

  ghost predicate Remembers(r: Run, t: Tid, i: nat, since: nat)
    requires IsRun(r) && i < |r.states|
  {
    ArrivalsAt(r, t, i).accepted.Some? && ArrivalsAt(r, t, i).accepted.value >= since
  }

  lemma RemembersNext(r: Run, t: Tid, i: nat, since: nat)
    requires IsRun(r) && i < |r.events| && t in r.states[i].th && since <= r.states[i].time
    requires Remembers(r, t, i, since) || Accepts(r.states[i], r.events[i], t)
    ensures Remembers(r, t, i + 1, since)
  {
    assert GoesAt(r, i);
    WatchRemembers(ArrivalsAt(r, t, i), r.states[i], r.events[i], t, since);
  }

  lemma {:induction false} AcceptedRemembered(r: Run, t: Tid, i: nat, j: nat, since: nat)
    requires IsRun(r) && i <= j < |r.states| && since <= r.states[i].time && Remembers(r, t, i, since)
    requires t != MAIN && t < r.states[i].nextTid && t in r.states[j].th
    ensures Remembers(r, t, j, since)
    decreases j
  {
    if i < j {
      IdsGrow(r, i, j - 1);
      Alive(r, j - 1, j, t);
      AcceptedRemembered(r, t, i, j - 1, since);
      RemembersNext(r, t, j - 1, since);
    }
  }

  /** The test passes only a period after the last accepted arrival, however the field was
      aged and whether or not the sum overflowed. */
  lemma TestSpaces(x: Thread, now: nat, n: Tally, a: Arrivals, log: Log)
    requires Served(x, now, n, a, log) && a.accepted.Some? && MitTest(x, Word(now))
    ensures now > a.accepted.value + x.minPeriod
  {
    WordSub(now, a.last);
    WordSmall(now - a.last);
  }

  /** With no SAVE nibble, any two accepted signals of a sporadic thread are more than
      min_period_ticks true ticks apart, in every run. */
  lemma ArrivalSpacing(r: Run, t: Tid, i: nat, j: nat)
    requires i < j && SignalsAt(r, i, t) && Accepts(r.states[i], r.events[i], t)
    requires SignalsAt(r, j, t) && Accepts(r.states[j], r.events[j], t)
    requires NoSave(r.states[j].th[t]) && r.states[j].th[t].queueMax < 0x7FFF_FFFF && FewThreads(r.states[j])
    ensures r.states[j].time > r.states[i].time + r.states[j].th[t].minPeriod
  {
    RunWf(r, i);
    assert ThreadOk(r.states[i], t);
    RemembersNext(r, t, i, r.states[i].time);
    IdsGrow(r, i, i + 1);
    AcceptedRemembered(r, t, i + 1, j, r.states[i].time);
    ServedRun(r, t, j);
    RunWf(r, j);
    TestSpaces(r.states[j].th[t], r.states[j].time, TallyAt(r, t, j), ArrivalsAt(r, t, j), LogAt(r, t, j));
  }

  // ---------------------------------------------------------------- decisions without REPLACE

  /** Neither REPLACE nor OVER_REPLACE: what is recorded is accepted. */
  predicate NoReplace(x: Thread) {
    x.mitPolicy % 16 != 4 && x.mitPolicy / 16 != 4
  }

  /** Then the last record is the last acceptance, or the thread still waits for its first. */
  ghost predicate AcceptsRecorded(x: Thread, now: int, a: Arrivals) {
    && (a.accepted.Some? ==> a.last == a.accepted.value)
    && (a.accepted.None? ==> a.last <= now && Word(a.last) == 0 && (a.last + x.minPeriod < now || x.lastInput == 0))
  }

  lemma RecordedNext(x: Thread, y: Thread, before: nat, now: nat, a: Arrivals)
    requires AcceptsRecorded(x, before, a) && before <= now && y.minPeriod == x.minPeriod < PERIODS
    requires y.lastInput != x.lastInput ==> Add32(x.lastInput, Add32(x.minPeriod, x.minPeriod)) < Word(now)
    ensures AcceptsRecorded(y, now, a)
  {
    if a.accepted.None? {
      WordDistance(a.last, now);
    }
  }

  lemma RecordedSignal(x: Thread, now: nat, a: Arrivals)
    requires NoReplace(x) && AcceptsRecorded(x, now, a)
    ensures AcceptsRecorded(Signalled(x, Word(now)), now, OnSignal(a, x, now, Word(now)))
  {
  }

  lemma RecordedStep(s: State, e: Event, t: Tid, a: Arrivals)
    requires WF(s) && Enabled(s, e) && t in s.th && t in Step(s, e).th && NoReplace(s.th[t])
    requires AcceptsRecorded(s.th[t], s.time, a) && s.th[t].minPeriod < PERIODS
    ensures AcceptsRecorded(Step(s, e).th[t], Step(s, e).time, Watch(a, s, e, t))
  {
    var x := s.th[t];
    var x', a' := x, a;
    if e == Signal(t) {
      RecordedSignal(x, s.time, a);
      x', a' := Signalled(x, s.clock), OnSignal(a, x, s.time, s.clock);
    }
    PolicyStep(s, e, t);
    AgedOnlyBlocked(s, e, t);
    WatchNotes(a, s, e, t);
    ClockStep(s, e);
    RecordedNext(x', Step(s, e).th[t], s.time, Step(s, e).time, a');
  }

  lemma RecordedStepNext(r: Run, t: Tid, i: nat)
    requires IsRun(r) && i < |r.events| && FewThreads(r.states[i]) && t != MAIN
    requires t in r.states[i].th && t in r.states[i + 1].th
    requires r.states[i].th[t].pattern == Sporadic && NoReplace(r.states[i].th[t])
    requires AcceptsRecorded(r.states[i].th[t], r.states[i].time, ArrivalsAt(r, t, i))
    ensures AcceptsRecorded(r.states[i + 1].th[t], r.states[i + 1].time, ArrivalsAt(r, t, i + 1))
  {
    RunWf(r, i);
    assert GoesAt(r, i);
    CycleRun(r, t, i);
    RecordedStep(r.states[i], r.events[i], t, ArrivalsAt(r, t, i));
  }

  lemma {:induction false} RecordedRun(r: Run, t: Tid, i: nat)
    requires IsRun(r) && i < |r.states| && FewThreads(r.states[i]) && t != MAIN && t in r.states[i].th
    requires r.states[i].th[t].pattern == Sporadic && NoReplace(r.states[i].th[t])
    ensures AcceptsRecorded(r.states[i].th[t], r.states[i].time, ArrivalsAt(r, t, i))
  {
    if i > 0 {
      IdsGrow(r, i - 1, i);
      if t in r.states[i - 1].th {
        PolicyKept(r, t, i - 1);
        RecordedRun(r, t, i - 1);
        RecordedStepNext(r, t, i - 1);
      } else {
        NothingAccepted(r, t, i);
      }
    }
  }

  lemma TestIsDue(x: Thread, now: nat, n: Tally, a: Arrivals, log: Log)
    requires Served(x, now, n, a, log) && AcceptsRecorded(x, now, a) && a.last <= now && MitTest(x, Word(now))
    ensures Due(x, now, a)
  {
    WordSub(now, a.last);
    WordSmall(now - a.last);
  }

  /** Without REPLACE the only error is a refusal: the test never passes a signal that is not
      due, in any run, however close to a wrap. */
  lemma WithoutReplace(r: Run, i: nat, t: Tid)
    requires SignalsAt(r, i, t) && FewThreads(r.states[i])
    requires NoOverSave(r.states[i].th[t]) && NoReplace(r.states[i].th[t])
    ensures MitTest(r.states[i].th[t], r.states[i].clock)
      ==> Due(r.states[i].th[t], r.states[i].time, ArrivalsAt(r, t, i))
  {
    var x, a := r.states[i].th[t], ArrivalsAt(r, t, i);
    SignalTracked(r, i, t);
    ServedRun(r, t, i);
    RecordedRun(r, t, i);
    if MitTest(x, r.states[i].clock) {
      TestIsDue(x, r.states[i].time, TallyAt(r, t, i), a, LogAt(r, t, i));
    }
  }

  // ---------------------------------------------------------------- how far from the wrap

  /** From the word l, period by period and as long as two periods end before the word c,
      two further periods always fit the counter: two periods from each such point do not
      reach the wrap. */
  predicate Room(l: int, c: int, p: nat)
    decreases c - l
  {
    p == 0 || (l + 2 * p < 0x1_0000_0000 && (l + 2 * p < c ==> Room(l + p, c, p)))
  }

  /** The field has room wherever the last record has, and was then never aged too early. */
  ghost predicate RoomAt(p: nat, now: int, a: Arrivals, c: int) {
    Room(Word(a.last), c, p) ==> !a.premature && Room(Word(a.field), c, p)
  }

  ghost predicate Roomy(p: nat, now: int, a: Arrivals) {
    Lap(a.last) == Lap(now) ==>
      forall c {:trigger RoomAt(p, now, a, c)} :: Word(now) <= c ==> RoomAt(p, now, a, c)
  }

  lemma RoomLater(p: nat, before: nat, now: nat, a: Arrivals)
    requires Roomy(p, before, a) && a.last <= before <= now
    ensures Roomy(p, now, a)
  {
    if Lap(a.last) == Lap(now) {
      forall c | Word(now) <= c ensures RoomAt(p, now, a, c) {
        assert RoomAt(p, before, a, c);
      }
    }
  }

  /** With room, an ageing comes after two true periods, and leaves room. */
  lemma AgesWithRoom(y: Thread, now: nat, field: nat, c: int)
    requires Ages(y, Word(now)) && y.lastInput == Word(field) && field <= now && Lap(field) == Lap(now)
    requires Room(Word(field), c, y.minPeriod) && Word(now) <= c && y.minPeriod < PERIODS
    ensures field + 2 * y.minPeriod < now && Room(Word(field + y.minPeriod), c, y.minPeriod)
  {
    AgeingExact(y, field, now);
    WordAdd(field, y.minPeriod);
    assert Word(y.minPeriod) == y.minPeriod;
  }

  lemma RoomScanned(y: Thread, now: nat, a: Arrivals)
    requires Tracks(y, now, a) && Roomy(y.minPeriod, now, a) && y.minPeriod < PERIODS
    ensures Roomy(y.minPeriod, now, OnScan(a, y, now))
  {
    var p, b := y.minPeriod, OnScan(a, y, now);
    if Lap(a.last) == Lap(now) && Ages(y, Word(now)) {
      forall c | Word(now) <= c ensures RoomAt(p, now, b, c) {
        assert RoomAt(p, now, a, c);
        if Room(Word(a.last), c, p) {
          AgesWithRoom(y, now, a.field, c);
        }
      }
    }
  }

  lemma RoomSignal(x: Thread, now: nat, a: Arrivals)
    requires Roomy(x.minPeriod, now, a)
    ensures Roomy(x.minPeriod, now, OnSignal(a, x, now, Word(now)))
  {
    var b := OnSignal(a, x, now, Word(now));
    if Lap(b.last) == Lap(now) {
      forall c | Word(now) <= c ensures RoomAt(x.minPeriod, now, b, c) {
        assert Lap(a.last) == Lap(now) ==> RoomAt(x.minPeriod, now, a, c);
      }
    }
  }

  lemma RoomStep(s: State, e: Event, t: Tid, a: Arrivals)
    requires WF(s) && Enabled(s, e) && t in s.th && t in Step(s, e).th
    requires s.th[t].pattern == Sporadic && s.th[t].minPeriod < PERIODS
    requires Tracks(s.th[t], s.time, a) && Roomy(s.th[t].minPeriod, s.time, a)
    ensures Roomy(s.th[t].minPeriod, Step(s, e).time, Watch(a, s, e, t))
  {
    ClockStep(s, e);
    var x, now := s.th[t], Step(s, e).time;
    var b := if e == Signal(t) then OnSignal(a, x, s.time, s.clock) else a;
    if e == Signal(t) { RoomSignal(x, s.time, a); }
    RoomLater(x.minPeriod, s.time, now, b);
    if !Structural(e) && Resched(s, e) {
      FoundByScan(s, e, t, a);
      RoomScanned(Pre(s, e).th[t], now, b);
    }
  }

  /** What the scan of the step finds. */
  lemma FoundByScan(s: State, e: Event, t: Tid, a: Arrivals)
    requires WF(s) && Enabled(s, e) && !Structural(e) && t in s.th
    requires s.th[t].pattern == Sporadic && Tracks(s.th[t], s.time, a)
    ensures var b := if e == Signal(t) then OnSignal(a, s.th[t], s.time, s.clock) else a;
      && t in Pre(s, e).th && Pre(s, e).th[t].minPeriod == s.th[t].minPeriod
      && Pre(s, e).time == Step(s, e).time && Tracks(Pre(s, e).th[t], Step(s, e).time, b)
  {
    ClockStep(s, e);
    PreFrame(s, e);
    PreThread(s, e, t);
    var r := PreRole(s, e, t);
    TouchMit(s.th[t], e, r);
    MitMove(s.th[t], e, r, s.time, Step(s, e).time, a,
            if e == Signal(t) then OnSignal(a, s.th[t], s.time, s.clock) else a);
  }

  lemma RoomNext(r: Run, t: Tid, i: nat)
    requires IsRun(r) && i < |r.events| && t != MAIN && t in r.states[i].th && t in r.states[i + 1].th
    requires r.states[i].th[t].pattern == Sporadic && r.states[i].th[t].minPeriod < PERIODS
    requires Roomy(r.states[i].th[t].minPeriod, r.states[i].time, ArrivalsAt(r, t, i))
    ensures Roomy(r.states[i + 1].th[t].minPeriod, r.states[i + 1].time, ArrivalsAt(r, t, i + 1))
  {
    PolicyKept(r, t, i);
    WatchRun(r, t, i);
    RunWf(r, i);
    assert GoesAt(r, i);
    RoomStep(r.states[i], r.events[i], t, ArrivalsAt(r, t, i));
  }

  lemma {:induction false} RoomRun(r: Run, t: Tid, i: nat)
    requires IsRun(r) && i < |r.states| && t != MAIN && t in r.states[i].th && r.states[i].th[t].pattern == Sporadic
    ensures r.states[i].th[t].minPeriod < PERIODS
    ensures Roomy(r.states[i].th[t].minPeriod, r.states[i].time, ArrivalsAt(r, t, i))
  {
    if i > 0 {
      if t in r.states[i - 1].th {
        PolicyKept(r, t, i - 1);
        RoomRun(r, t, i - 1);
        RoomNext(r, t, i - 1);
      } else {
        NothingAccepted(r, t, i);
      }
    }
  }

  /** Away from the wrap every decision is right: in every run, with any policy and however
      often the field was aged, if the counter has not wrapped since the last recorded
      arrival, and the periods counted from it have room before the wrap, the test of
      thread_signal decides like the reference. */
  lemma DecisionIsRight(r: Run, i: nat, t: Tid)
    requires SignalsAt(r, i, t) && Lap(ArrivalsAt(r, t, i).last) == Lap(r.states[i].time)
    requires Room(Word(ArrivalsAt(r, t, i).last), r.states[i].clock, r.states[i].th[t].minPeriod)
    ensures MitTest(r.states[i].th[t], r.states[i].clock)
      <==> Due(r.states[i].th[t], r.states[i].time, ArrivalsAt(r, t, i))
  {
    var x, now, a := r.states[i].th[t], r.states[i].time, ArrivalsAt(r, t, i);
    SignalTracked(r, i, t);
    RoomRun(r, t, i);
    assert RoomAt(x.minPeriod, now, a, Word(now));
    AgeingChangesNoDecision(r, i, t);
    WordDistance(a.last, now);
  }

  /** It is enough that two periods from now end before the wrap. */
  lemma {:induction false} RoomBelow(l: int, c: int, p: nat)
    requires l <= c && c + 2 * p < 0x1_0000_0000
    ensures Room(l, c, p)
    decreases c - l
  {
    if p > 0 && l + 2 * p < c {
      RoomBelow(l + p, c, p);
    }
  }
}
