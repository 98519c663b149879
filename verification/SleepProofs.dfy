/** tick_sleep, the carry flags and the scan against a clock without bound. */
module SleepProofs {
  import opened Words
  import opened KernelModel
  import opened KernelRuns
  import opened CarryProofs

  const LAST_WORD: u32 := 0xFFFF_FFFF

  // ---------------------------------------------------------------- one record, one scan

  /** Does the counter wrap before the deadline? */
  predicate Wraps(clock: u32, ticks: u32) {
    clock + ticks >= 0x1_0000_0000
  }

  /** The record stands for a sleep until the true time d, seen at the true time now. */
  ghost predicate Dozing(x: Thread, now: int, d: int) {
    && x.status == Slept
    && now <= d < now + 0x1_0000_0000
    && x.ticksToWait == Word(d)
    && (x.carryWait <==> Word(d) < Word(now))
  }

  /** tick_sleep's own scan: the deadline is recorded, unless it lies beyond the next
      wrap while the kernel's carry flag is still up; then the sleep is over at once. */
  lemma FallAsleep(x: Thread, now: nat, ticks: u32, carry: bool)
    ensures var y := Wake(Asleep(x, Word(now), ticks), Word(now), carry);
      if carry && Wraps(Word(now), ticks) then y.status == Active
      else Dozing(y, now, now + ticks)
  {
    WordAdd(ticks, now);
    assert Word(ticks) == ticks;
    WordInjective(now, now + ticks);
  }

  /** A scan at the same or the next tick keeps the sleep, and ends it one tick after
      the deadline, provided the carry flag reports the wrap and nothing but the wrap. */
  lemma ScanDozing(x: Thread, before: nat, now: nat, d: int, carry: bool)
    requires Dozing(x, before, d) && before <= now <= before + 1
    requires before < now && Word(now) == 0 ==> carry
    requires (before == now || Word(now) != 0) && now <= d && Word(d) < Word(now) ==> !carry
    ensures var y := Wake(x, Word(now), carry);
      if now <= d then Dozing(y, now, d)
      else if Word(d) == LAST_WORD then y.status == Slept && y.ticksToWait == LAST_WORD
      else y.status == Active
  {
  }

  lemma StuckForever(x: Thread, clock: u32, carry: bool)
    requires x.status == Slept && x.ticksToWait == LAST_WORD
    ensures Wake(x, clock, carry).status == Slept && Wake(x, clock, carry).ticksToWait == LAST_WORD
  {
  }

  // ---------------------------------------------------------------- one step

  ghost predicate SameNap(x: Thread, y: Thread) {
    x.status == y.status && x.ticksToWait == y.ticksToWait && x.carryWait == y.carryWait
  }

  lemma TouchNap(x: Thread, e: Event, r: Role)
    requires x.status == Slept && !r.current
    requires e.SemV? ==> !r.target
    ensures SameNap(x, Touch(x, e, r))
  {
  }

  lemma SettleNap(x: Thread, r: Role)
    ensures SameNap(Settle(x, r), Wake(x, r.clock, r.carry))
  {
  }

  lemma WakeNap(x: Thread, y: Thread, clock: u32, carry: bool)
    requires SameNap(x, y) && x.status == Slept
    ensures SameNap(Wake(x, clock, carry), Wake(y, clock, carry))
  {
  }

  /** Nothing but the scan's clock test touches a sleeping thread, whatever the call. */
  lemma OnlyScanWakes(s: State, e: Event, t: Tid)
    requires WF(s) && Enabled(s, e) && t in s.th && t in Step(s, e).th && s.th[t].status == Slept
    ensures e.Tick? || Step(s, e).carry == s.carry
    ensures var n := Step(s, e);
      if !Structural(e) && Resched(s, e) then SameNap(n.th[t], Wake(s.th[t], n.clock, n.carry))
      else SameNap(n.th[t], s.th[t])
    ensures e.Tick? ==> Resched(s, e)
  {
    assert ThreadOk(s, t);
    if Structural(e) {
      StepThreads(s, e, t);
    } else {
      var r := RoleOf(s, e, t);
      ThreadStep(s, e, t);
      TouchNap(s.th[t], e, r);
      SettleNap(Touch(s.th[t], e, r), r);
      WakeNap(s.th[t], Touch(s.th[t], e, r), r.clock, r.carry);
    }
  }

  /** Does the call put the calling thread to sleep, and for how many ticks? */
  predicate SleepsFor(x: Thread, e: Event, ticks: u32) {
    match e
    case Sleep(n) => n == ticks
    case PatternStep =>
      || (x.pc == Offset && ticks == x.offset)
      || (x.pc == Handlers && x.pattern != Aperiodic
          && ticks == Sub32(Add32(x.counter, x.minPeriod), x.ticksAux))
    case _ => false
  }

  predicate PutsToSleep(s: State, e: Event, ticks: u32) {
    s.current in s.th && SleepsFor(s.th[s.current], e, ticks)
  }

  lemma TouchSleeper(x: Thread, e: Event, r: Role, ticks: u32)
    requires r.current && SleepsFor(x, e, ticks)
    ensures SameNap(Touch(x, e, r), Asleep(x, r.clock, ticks))
  {
  }

  lemma SleepMove(x: Thread, e: Event, r: Role, ticks: u32, now: nat)
    requires r.current && r.resched && r.clock == Word(now) && SleepsFor(x, e, ticks)
    ensures Began(Move(x, e, r), now, r.clock, r.carry, ticks)
  {
    TouchSleeper(x, e, r, ticks);
    SettleNap(Touch(x, e, r), r);
    WakeNap(Asleep(x, r.clock, ticks), Touch(x, e, r), r.clock, r.carry);
    FallAsleep(x, now, ticks, r.carry);
  }

  lemma SleepYields(s: State, e: Event, ticks: u32)
    requires WF(s) && Enabled(s, e) && PutsToSleep(s, e, ticks)
    ensures Resched(s, e) && !e.Tick? && s.current != MAIN
  {
  }

  /** What tick_sleep's own scan leaves of the sleep: nothing, when the deadline lies
      beyond the next wrap while the carry flag is still up. */
  ghost predicate Began(y: Thread, now: int, clock: u32, carry: bool, ticks: u32) {
    if carry && Wraps(clock, ticks) then y.status == Active else Dozing(y, now, now + ticks)
  }

  lemma SleepStarts(s: State, e: Event, ticks: u32)
    requires WF(s) && Enabled(s, e) && PutsToSleep(s, e, ticks)
    ensures s.current in Step(s, e).th && Step(s, e).time == s.time && Step(s, e).carry == s.carry
    ensures Began(Step(s, e).th[s.current], s.time, s.clock, s.carry, ticks)
  {
    SleepYields(s, e, ticks);
    ClockStep(s, e);
    SleepMoved(s, e, ticks);
  }

  lemma SleepMoved(s: State, e: Event, ticks: u32)
    requires WF(s) && Enabled(s, e) && PutsToSleep(s, e, ticks) && Resched(s, e) && !e.Tick?
    ensures s.current in Step(s, e).th && Began(Step(s, e).th[s.current], s.time, s.clock, s.carry, ticks)
  {
    var r := RoleOf(s, e, s.current);
    ThreadStep(s, e, s.current);
    SleepMove(s.th[s.current], e, r, ticks, s.time);
  }

  /** The kernel's carry flag serves a sleep until d in this step. */
  ghost predicate CarryServes(s: State, n: State, d: int) {
    && (s.time < n.time && n.clock == 0 ==> n.carry)
    && ((s.time == n.time || n.clock != 0) && n.time <= d && Word(d) < n.clock ==> !n.carry)
  }

  lemma DozeStep(s: State, e: Event, t: Tid, d: int)
    requires WF(s) && Enabled(s, e) && t in s.th && t in Step(s, e).th
    requires Dozing(s.th[t], s.time, d) && CarryServes(s, Step(s, e), d)
    ensures var n := Step(s, e); var y := n.th[t];
      if n.time <= d then Dozing(y, n.time, d)
      else if Word(d) == LAST_WORD then y.status == Slept && y.ticksToWait == LAST_WORD
      else y.status == Active
  {
    OnlyScanWakes(s, e, t);
    ClockStep(s, e);
    var n := Step(s, e);
    if !Structural(e) && Resched(s, e) {
      ScanDozing(s.th[t], s.time, n.time, d, n.carry);
    }
  }

  // ---------------------------------------------------------------- whole runs

  // ---------------------------------------------------------------- the handler as one step

  /** With the whole handler as one step the carry flag is up exactly while the counter
      shows 0 after a wrap. */
  ghost predicate Timely(s: State) {
    s.prev == s.clock && s.inIsr == {} && (s.carry <==> s.clock == 0 && s.time > 0)
  }

  lemma TimelyStep(s: State, e: Event)
    requires WF(s) && Enabled(s, e) && s.mode.WholeInterrupt? && Timely(s)
    ensures Timely(Step(s, e))
  {
    ClockStep(s, e);
    if !Structural(e) {
      PreLinked(s, e);
      var p := Pre(s, e);
      assert p.inIsr == {} && p.prev == s.prev;
    }
  }

  lemma {:induction false} TimelyRun(r: Run, i: nat)
    requires IsRun(r) && i < |r.states| && r.states[0].mode.WholeInterrupt?
    ensures Timely(r.states[i]) && r.states[i].mode.WholeInterrupt?
  {
    if i > 0 {
      TimelyRun(r, i - 1);
      RunGoes(r, i - 1);
      TimelyStep(r.states[i - 1], r.events[i - 1]);
      ClockStep(r.states[i - 1], r.events[i - 1]);
    }
  }

  // ---------------------------------------------------------------- the handler in either mode

  /** An unraised carry flag means the last recorded tick is not ahead of the counter. */
  ghost predicate Lagging(s: State) {
    !s.carry ==> s.prev <= s.clock
  }

  lemma LaggingStep(s: State, e: Event)
    requires WF(s) && Enabled(s, e) && Lagging(s)
    ensures Lagging(Step(s, e))
    ensures e.Tick? ==> (Step(s, e).carry <==> s.prev > Step(s, e).clock)
  {
    if !Structural(e) {
      PreLinked(s, e);
      var p := Pre(s, e);
      assert p.prev == s.prev;
    }
  }

  lemma {:induction false} LaggingRun(r: Run, i: nat)
    requires IsRun(r) && i < |r.states|
    ensures Lagging(r.states[i])
  {
    if i > 0 {
      LaggingRun(r, i - 1);
      RunGoes(r, i - 1);
      LaggingStep(r.states[i - 1], r.events[i - 1]);
    }
  }

  /** The flag goes up in the scan of a wrap, and at no other time. */
  ghost predicate Reports(s: State, n: State) {
    && (s.time < n.time && n.clock == 0 ==> n.carry)
    && (n.carry && !s.carry ==> s.time < n.time && n.clock == 0)
  }

  lemma CarryStep(s: State, e: Event)
    requires WF(s) && Enabled(s, e) && Lagging(s)
    requires e.Tick? && Step(s, e).clock == 0 ==> Step(s, e).carry
    ensures Reports(s, Step(s, e))
  {
    ClockStep(s, e);
    StepWf(s, e);
    LaggingStep(s, e);
  }

  lemma RunReports(r: Run, i: nat)
    requires IsRun(r) && i < |r.events| && Margin(r.states[i + 1]) < 0x1_0000_0000
    ensures Reports(r.states[i], r.states[i + 1])
  {
    RunGoes(r, i);
    LaggingRun(r, i);
    CarryReportsWrap(r, i + 1);
    CarryStep(r.states[i], r.events[i]);
  }

  /** What holds of a sleep until d at any later time. */
  ghost predicate Nap(x: Thread, now: int, d: int) {
    if now <= d then Dozing(x, now, d)
    else Word(d) == LAST_WORD ==> x.status == Slept && x.ticksToWait == LAST_WORD
  }

  /** A raised flag does not concern a sleep until d: the deadline lies in the present lap. */
  ghost predicate Clear(s: State, d: int) {
    s.carry && s.time <= d ==> s.clock <= Word(d)
  }

  lemma ClearServes(s: State, n: State, x: Thread, d: int)
    requires Dozing(x, s.time, d) && Clear(s, d) && Reports(s, n)
    requires s.time <= n.time <= s.time + 1 && s.clock == Word(s.time) && n.clock == Word(n.time)
    ensures CarryServes(s, n, d) && Clear(n, d)
  {
  }

  lemma NapStep(s: State, e: Event, t: Tid, d: int)
    requires WF(s) && Enabled(s, e) && t in s.th && t in Step(s, e).th
    requires Nap(s.th[t], s.time, d) && Clear(s, d) && Reports(s, Step(s, e))
    ensures Nap(Step(s, e).th[t], Step(s, e).time, d) && Clear(Step(s, e), d)
    ensures s.time <= d < Step(s, e).time && Word(d) != LAST_WORD ==> Step(s, e).th[t].status == Active
  {
    ClockStep(s, e);
    if s.time <= d {
      ClearServes(s, Step(s, e), s.th[t], d);
      DozeStep(s, e, t, d);
    } else if Word(d) == LAST_WORD {
      OnlyScanWakes(s, e, t);
      StuckForever(s.th[t], Step(s, e).clock, Step(s, e).carry);
    }
  }

  /** A sleep that is not cut short begins clear of the flag. */
  lemma BeganClear(y: Thread, s: State, n: State, ticks: u32)
    requires Began(y, s.time, s.clock, s.carry, ticks) && !(s.carry && Wraps(s.clock, ticks))
    requires s.clock == Word(s.time) && n.time == s.time && n.carry == s.carry && n.clock == s.clock
    ensures Nap(y, n.time, s.time + ticks) && Clear(n, s.time + ticks)
  {
    WordAdd(ticks, s.time);
    assert Word(ticks) == ticks;
  }

  // ---------------------------------------------------------------- sleeps over whole runs

  /** A sleep of t begins at step i of the run and t is still there at state j. */
  ghost predicate SleepOf(r: Run, i: nat, j: nat, t: Tid, ticks: u32) {
    && IsRun(r) && i < j < |r.states|
    && PutsToSleep(r.states[i], r.events[i], ticks)
    && t == r.states[i].current && t in r.states[j].th
  }

  lemma SleepBegins(r: Run, i: nat, t: Tid, ticks: u32)
    requires SleepOf(r, i, i + 1, t, ticks)
    ensures r.states[i + 1].time == r.states[i].time && r.states[i + 1].carry == r.states[i].carry
    ensures Began(r.states[i + 1].th[t], r.states[i].time, r.states[i].clock, r.states[i].carry, ticks)
    ensures r.states[i].clock == Word(r.states[i].time)
  {
    assert GoesAt(r, i);
    var s, e := r.states[i], r.events[i];
    assert WF(s) && Enabled(s, e) && r.states[i + 1] == Step(s, e);
    SleepStarts(s, e, ticks);
  }

  lemma SleepFrame(r: Run, i: nat, j: nat, k: nat, t: Tid, ticks: u32)
    requires SleepOf(r, i, j, t, ticks) && i < k <= j
    ensures t != MAIN && t in r.states[k].th && r.states[i].time == r.states[i + 1].time <= r.states[k].time
    ensures t < r.states[k].nextTid
  {
    RunGoes(r, i);
    assert ThreadOk(r.states[i], t);
    SleepYields(r.states[i], r.events[i], ticks);
    ClockStep(r.states[i], r.events[i]);
    IdsGrow(r, i + 1, k);
    Alive(r, k, j, t);
  }

  ghost predicate NapAt(r: Run, j: nat, t: Tid, d: int)
    requires j < |r.states|
  {
    t in r.states[j].th && Nap(r.states[j].th[t], r.states[j].time, d) && Clear(r.states[j], d)
  }

  lemma NapNext(r: Run, j: nat, t: Tid, d: int)
    requires IsRun(r) && j < |r.events| && Margin(r.states[j + 1]) < 0x1_0000_0000
    requires t in r.states[j + 1].th && NapAt(r, j, t, d)
    ensures NapAt(r, j + 1, t, d)
    ensures r.states[j].time <= d < r.states[j + 1].time && Word(d) != LAST_WORD
        ==> r.states[j + 1].th[t].status == Active
  {
    RunGoes(r, j);
    RunReports(r, j);
    NapStep(r.states[j], r.events[j], t, d);
  }

  /** The sleep that begins at step i would be over at once: the flag is still up, and the
      counter wraps before the deadline. */
  ghost predicate CutShort(s: State, ticks: u32) {
    s.carry && Wraps(s.clock, ticks)
  }

  lemma NapFirst(r: Run, i: nat, t: Tid, ticks: u32)
    requires SleepOf(r, i, i + 1, t, ticks) && !CutShort(r.states[i], ticks)
    ensures NapAt(r, i + 1, t, r.states[i].time + ticks)
  {
    SleepBegins(r, i, t, ticks);
    RunWf(r, i + 1);
    BeganClear(r.states[i + 1].th[t], r.states[i], r.states[i + 1], ticks);
  }

  lemma {:induction false} NapRun(r: Run, i: nat, j: nat, t: Tid, ticks: u32)
    requires SleepOf(r, i, j, t, ticks) && !CutShort(r.states[i], ticks) && Margin(r.states[j]) < 0x1_0000_0000
    ensures NapAt(r, j, t, r.states[i].time + ticks)
    decreases j
  {
    SleepFrame(r, i, j, i + 1, t, ticks);
    if j == i + 1 {
      NapFirst(r, i, t, ticks);
    } else {
      SleepFrame(r, i, j, j - 1, t, ticks);
      IdsGrow(r, j - 1, j);
      NapRun(r, i, j - 1, t, ticks);
      NapNext(r, j - 1, t, r.states[i].time + ticks);
    }
  }

  /** Asleep until d, Active in the scan one tick later, and for ever asleep when d falls on
      the last value of the counter. */
  ghost predicate SleepsUntil(r: Run, j: nat, t: Tid, d: nat)
    requires 0 < j < |r.states| && t in r.states[j].th
  {
    var x := r.states[j].th[t];
    && (r.states[j].time <= d ==> x.status == Slept)
    && (r.states[j - 1].time == d && r.states[j].time == d + 1 ==> (x.status == Active <==> Word(d) != LAST_WORD))
    && (Word(d) == LAST_WORD ==> x.status == Slept)
  }

  /** tick_sleep refines a clock without bound, whether the interrupt is one step or its last
      write is deferred (and fewer than 2^32 threads were ever created): a sleep of any
      number of ticks keeps the thread asleep at every later state up to its deadline,
      whatever the calls and wraps in between, and the scan one tick later makes it Active,
      unless the deadline falls on the last value of the counter. The one exception, exactly,
      is a sleep across the next wrap begun while the flag of the last one is still up: it
      is over at once. */
  lemma SleepRefinesClock(r: Run, i: nat, j: nat, t: Tid, ticks: u32)
    requires SleepOf(r, i, j, t, ticks) && Margin(r.states[j]) < 0x1_0000_0000
    ensures !CutShort(r.states[i], ticks) ==> SleepsUntil(r, j, t, r.states[i].time + ticks)
    ensures CutShort(r.states[i], ticks) ==> t in r.states[i + 1].th && r.states[i + 1].th[t].status == Active
  {
    var d := r.states[i].time + ticks;
    SleepFrame(r, i, j, i + 1, t, ticks);
    if CutShort(r.states[i], ticks) {
      SleepBegins(r, i, t, ticks);
    } else {
      NapRun(r, i, j, t, ticks);
      if i + 1 < j {
        SleepFrame(r, i, j, j - 1, t, ticks);
        IdsGrow(r, j - 1, j);
        NapRun(r, i, j - 1, t, ticks);
        NapNext(r, j - 1, t, d);
      }
    }
  }

  /** The flag stays up for fewer ticks than the margin, so only sleeps of nearly a whole
      lap can be cut short; with the one-step interrupt none is. */
  lemma ShortSleepsSafe(r: Run, i: nat, ticks: u32)
    requires IsRun(r) && i < |r.states| && Margin(r.states[i]) < 0x1_0000_0000
    requires ticks + Margin(r.states[i]) <= 0x1_0000_0000
    ensures !CutShort(r.states[i], ticks)
  {
    CarryReportsWrap(r, i);
  }

  /** A caller can tell beforehand: a sleep of at most 2^32 ticks less the number of threads
      ever created is on time. */
  lemma SleepOnTime(r: Run, i: nat, j: nat, t: Tid, ticks: u32)
    requires SleepOf(r, i, j, t, ticks) && Margin(r.states[j]) < 0x1_0000_0000
    requires ticks + Margin(r.states[i]) <= 0x1_0000_0000
    ensures SleepsUntil(r, j, t, r.states[i].time + ticks)
  {
    IdsGrow(r, i, j);
    ShortSleepsSafe(r, i, ticks);
    SleepRefinesClock(r, i, j, t, ticks);
  }
}
