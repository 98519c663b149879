/** What a creation call fixes for the life of a thread: its parameters, in ticks, and its
    first sleep. */
module CreationProofs {
  import opened Words
  import opened KernelModel
  import opened KernelRuns
  import opened CarryProofs
  import opened SleepProofs
  import opened SeparationProofs

  // ---------------------------------------------------------------- the parameters

  /** The arguments of the call that created t. */
  function CreatedWith(r: Run, t: Tid, i: nat): Option<Config>
    requires i < |r.states| == |r.events| + 1
  {
    if i == 0 then None
    else if r.events[i - 1].Create? && r.states[i - 1].nextTid == t then Some(r.events[i - 1].config)
    else CreatedWith(r, t, i - 1)
  }

  /** The record holds what was asked for: times in ticks of 128 us, no period for aperiodic
      threads, and policy and queue limit for those that take signals. */
  predicate HoldsPlan(x: Thread, cfg: Config) {
    && x.pattern == cfg.pattern
    && x.minPeriod == (if cfg.pattern == Aperiodic then 0 else cfg.periodUs / 128)
    && x.maxDeadline == cfg.deadlineUs / 128
    && x.maxCost == cfg.costUs / 128
    && x.offset == cfg.offsetUs / 128
    && (cfg.pattern != Periodic ==> x.mitPolicy == cfg.mitPolicy && x.queueMax == AsInt32(cfg.queueMax))
  }

  /** And nothing has happened yet. */
  predicate IsFresh(x: Thread, cfg: Config) {
    && x.priority == cfg.priority && x.status == Active && x.pc == Start
    && (cfg.pattern != Periodic ==> x.pending == 0 && x.lastInput == 0)
    && !x.atsActive && x.atsPending == 0 && x.waitsOn == None
  }

  lemma FreshRecord(cfg: Config)
    ensures HoldsPlan(NewThread(cfg), cfg) && IsFresh(NewThread(cfg), cfg)
  {
  }

  /** A creation adds one thread, with a new identity, ahead of the others and with what the
      call asked for (and main with the first one). It changes no record that was there, and
      the caller goes on. */
  lemma CreatesAsAsked(s: State, cfg: Config)
    requires WF(s)
    ensures var n := Step(s, Create(cfg)); var t := s.nextTid;
      && t !in s.th && t in n.th && HoldsPlan(n.th[t], cfg) && IsFresh(n.th[t], cfg)
      && n.th.Keys == s.th.Keys + {t, MAIN} && n.nextTid == t + 1 && n.current == s.current
      && n.ring == [t] + (if s.ring == [] then [MAIN] else s.ring)
      && forall u :: u in s.th ==> n.th[u] == s.th[u]
  {
    assert s.nextTid in s.th ==> ThreadOk(s, s.nextTid);
    FreshRecord(cfg);
    assert Step(s, Create(cfg)) == Restructure(s, Create(cfg));
  }

  ghost predicate SameParameters(x: Thread, y: Thread) {
    && x.pattern == y.pattern && x.minPeriod == y.minPeriod && x.maxDeadline == y.maxDeadline
    && x.maxCost == y.maxCost && x.offset == y.offset && x.mitPolicy == y.mitPolicy && x.queueMax == y.queueMax
  }

  lemma TouchParameters(x: Thread, e: Event, r: Role)
    ensures SameParameters(x, Touch(x, e, r))
  {
  }

  lemma SettleParameters(x: Thread, r: Role)
    ensures SameParameters(x, Settle(x, r))
  {
  }

  lemma ParametersStep(s: State, e: Event, t: Tid)
    requires WF(s) && Enabled(s, e) && t in s.th && t in Step(s, e).th
    ensures SameParameters(s.th[t], Step(s, e).th[t])
  {
    if Structural(e) {
      assert ThreadOk(s, t);
      StepThreads(s, e, t);
    } else {
      var r := RoleOf(s, e, t);
      ThreadStep(s, e, t);
      TouchParameters(s.th[t], e, r);
      SettleParameters(Touch(s.th[t], e, r), r);
    }
  }

  ghost predicate PlanAt(r: Run, t: Tid, i: nat)
    requires i < |r.states| == |r.events| + 1 && t in r.states[i].th
  {
    CreatedWith(r, t, i).Some? && HoldsPlan(r.states[i].th[t], CreatedWith(r, t, i).value)
  }

  lemma PlanNext(r: Run, t: Tid, i: nat)
    requires IsRun(r) && i < |r.events| && t in r.states[i].th && t in r.states[i + 1].th && PlanAt(r, t, i)
    ensures PlanAt(r, t, i + 1) && CreatedWith(r, t, i + 1) == CreatedWith(r, t, i)
  {
    RunGoes(r, i);
    assert ThreadOk(r.states[i], t);
    ParametersStep(r.states[i], r.events[i], t);
  }

  lemma PlanBorn(r: Run, t: Tid, i: nat)
    requires IsRun(r) && 0 < i < |r.states| && t != MAIN && t in r.states[i].th && t !in r.states[i - 1].th
    ensures PlanAt(r, t, i) && IsFresh(r.states[i].th[t], CreatedWith(r, t, i).value)
  {
    var cfg := BornAt(r, t, i);
    RunWf(r, i - 1);
    CreatesAsAsked(r.states[i - 1], cfg);
    RunGoes(r, i - 1);
  }

  /** In every run and for its whole life a thread has the parameters of the call that
      created it. */
  lemma {:induction false} ParametersKept(r: Run, t: Tid, i: nat)
    requires IsRun(r) && i < |r.states| && t != MAIN && t in r.states[i].th
    ensures PlanAt(r, t, i)
  {
    if i > 0 {
      if t in r.states[i - 1].th {
        ParametersKept(r, t, i - 1);
        PlanNext(r, t, i - 1);
      } else {
        PlanBorn(r, t, i);
      }
    }
  }

  // ---------------------------------------------------------------- the first sleep

  /** The step puts t to sleep. */
  ghost predicate SleepsNow(s: State, e: Event, t: Tid) {
    s.current == t && exists ticks: u32 :: PutsToSleep(s, e, ticks)
  }

  ghost function SleptBefore(r: Run, t: Tid, i: nat): bool
    requires i < |r.states| == |r.events| + 1
  {
    i > 0 && (SleepsNow(r.states[i - 1], r.events[i - 1], t) || SleptBefore(r, t, i - 1))
  }

  /** Before its offset a thread executes two statements, and neither is a call. */
  predicate Early(x: Thread) {
    x.pc in {Start, Offset}
  }

  lemma EarlyStatement(x: Thread, y: Thread, clock: u32, lastCost: u32)
    requires SameLoop(PatternPre(x, clock, lastCost), y)
    ensures Early(y) <==> x.pc == Start
  {
  }

  lemma EarlyStep(s: State, e: Event, t: Tid)
    requires WF(s) && Enabled(s, e) && t in s.th && t in Step(s, e).th
    ensures Early(Step(s, e).th[t]) <==> Early(s.th[t]) && !SleepsNow(s, e, t)
  {
    LoopStep(s, e, t);
    if e.PatternStep? && s.current == t {
      EarlyStatement(s.th[t], Step(s, e).th[t], s.clock, s.lastCost);
      if s.th[t].pc == Offset {
        assert PutsToSleep(s, e, s.th[t].offset);
      }
    }
  }

  lemma {:induction false} AwakeBefore(r: Run, t: Tid, i: nat)
    requires IsRun(r) && i < |r.states| && r.states[i].nextTid <= t && t !in r.states[i].th && t != MAIN
    ensures !SleptBefore(r, t, i)
  {
    if i > 0 {
      RunGoes(r, i - 1);
      UnbornBefore(r.states[i - 1], r.events[i - 1], t);
      AwakeBefore(r, t, i - 1);
    }
  }

  lemma {:induction false} EarlyUntilAsleep(r: Run, t: Tid, i: nat)
    requires IsRun(r) && i < |r.states| && t != MAIN && t in r.states[i].th
    ensures Early(r.states[i].th[t]) <==> !SleptBefore(r, t, i)
  {
    if i > 0 {
      RunGoes(r, i - 1);
      if t in r.states[i - 1].th {
        EarlyUntilAsleep(r, t, i - 1);
        EarlyStep(r.states[i - 1], r.events[i - 1], t);
      } else {
        var cfg := BornAt(r, t, i);
        AwakeBefore(r, t, i - 1);
      }
    }
  }

  lemma EarlyIdle(s: State, e: Event, t: Tid, n: Laps)
    requires t in s.th && Early(s.th[t])
    ensures Lapped(n, s, e, t) == n
  {
  }

  lemma NoLapYet(r: Run, t: Tid, i: nat)
    requires IsRun(r) && i < |r.events| && t in r.states[i].th && t in r.states[i + 1].th
    requires Early(r.states[i + 1].th[t])
    ensures Early(r.states[i].th[t]) && LapsAt(r, t, i + 1) == LapsAt(r, t, i)
  {
    RunGoes(r, i);
    EarlyStep(r.states[i], r.events[i], t);
    EarlyIdle(r.states[i], r.events[i], t, LapsAt(r, t, i));
  }

  lemma NoLapsBorn(r: Run, t: Tid, i: nat)
    requires IsRun(r) && 0 < i < |r.states| && t != MAIN && t in r.states[i].th && t !in r.states[i - 1].th
    ensures LapsAt(r, t, i) == Laps(0, 0, 0)
  {
    var cfg := BornAt(r, t, i);
    NoLapsBefore(r, t, i - 1);
  }

  lemma {:induction false} NoLapsWhileEarly(r: Run, t: Tid, i: nat)
    requires IsRun(r) && i < |r.states| && t != MAIN && t in r.states[i].th && Early(r.states[i].th[t])
    ensures LapsAt(r, t, i) == Laps(0, 0, 0)
  {
    if i > 0 {
      if t in r.states[i - 1].th {
        NoLapYet(r, t, i - 1);
        NoLapsWhileEarly(r, t, i - 1);
      } else {
        NoLapsBorn(r, t, i);
      }
    }
  }

  /** In every run the first sleep of a thread lasts the offset of its creation call, in
      ticks, and before it neither a cycle nor a call of the thread has begun. */
  lemma FirstSleepIsOffset(r: Run, i: nat, j: nat, t: Tid, ticks: u32)
    requires SleepOf(r, i, j, t, ticks) && !SleptBefore(r, t, i) && FewThreads(r.states[j])
    ensures CreatedWith(r, t, j).Some? && ticks == CreatedWith(r, t, j).value.offsetUs / 128
    ensures SleepsUntil(r, j, t, r.states[i].time + CreatedWith(r, t, j).value.offsetUs / 128)
    ensures LapsAt(r, t, i) == Laps(0, 0, 0)
  {
    FirstSleeper(r, i, j, t, ticks);
    ParametersKept(r, t, j);
    IdsGrow(r, i, j);
    ShortSleepsSafe(r, i, ticks);
    SleepRefinesClock(r, i, j, t, ticks);
  }

  lemma FirstIsOffset(s: State, e: Event, t: Tid, ticks: u32)
    requires WF(s) && Enabled(s, e) && PutsToSleep(s, e, ticks) && t == s.current && Early(s.th[t])
    ensures s.th[t].pc == Offset && ticks == s.th[t].offset
  {
  }

  lemma FirstSleeper(r: Run, i: nat, j: nat, t: Tid, ticks: u32)
    requires SleepOf(r, i, j, t, ticks) && !SleptBefore(r, t, i)
    ensures t != MAIN && t in r.states[i].th && r.states[i].th[t].pc == Offset && LapsAt(r, t, i) == Laps(0, 0, 0)
    ensures t in r.states[j].th && ticks == r.states[j].th[t].offset
  {
    SleepFrame(r, i, j, i + 1, t, ticks);
    RunGoes(r, i);
    EarlyUntilAsleep(r, t, i);
    NoLapsWhileEarly(r, t, i);
    OffsetKept(r, t, i, j);
    FirstIsOffset(r.states[i], r.events[i], t, ticks);
  }

  lemma {:induction false} OffsetKept(r: Run, t: Tid, i: nat, j: nat)
    requires IsRun(r) && i <= j < |r.states| && t != MAIN && t in r.states[i].th && t in r.states[j].th
    ensures r.states[j].th[t].offset == r.states[i].th[t].offset
    decreases j
  {
    if i < j {
      RunGoes(r, j - 1);
      RunWf(r, i);
      assert ThreadOk(r.states[i], t);
      IdsGrow(r, i, j - 1);
      Alive(r, j - 1, j, t);
      OffsetKept(r, t, i, j - 1);
      ParametersStep(r.states[j - 1], r.events[j - 1], t);
    }
  }
}
