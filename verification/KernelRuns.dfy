/** Runs of the kernel and the invariant every run keeps. */
module KernelRuns {
  import opened Words
  import opened KernelModel

  // ---------------------------------------------------------------- the chosen thread

  lemma {:induction false} ChooseOk(th: map<Tid, Thread>, current: Tid, order: seq<Tid>)
    requires MAIN in th && Covers(th, order) && th[MAIN].priority == NORM_PRIO
    ensures var c := Choose(th, current, order);
      && th[c].priority >= NORM_PRIO
      && (c == MAIN || (c in order && c != current && th[c].status == Active))
  {
    if order != [] {
      ChooseOk(th, current, order[..|order| - 1]);
    }
  }

  lemma VisitsAll(ring: seq<Tid>, current: Tid)
    requires current in ring
    ensures multiset(VisitOrder(ring, current)) == multiset(ring)
    ensures forall t :: t in VisitOrder(ring, current) <==> t in ring
    ensures VisitOrder(ring, current)[|ring| - 1] == current
  {
    var i := IndexOf(ring, current);
    assert ring == ring[..i + 1] + ring[i + 1..];
    assert forall t :: t in VisitOrder(ring, current) <==> t in multiset(VisitOrder(ring, current));
    assert forall t :: t in ring <==> t in multiset(ring);
  }

  // ---------------------------------------------------------------- one yield

  /** What the application relies on after thread_yield: the processor goes to a thread
      that the scan left ready, or to main; a thread that stopped itself is left. */
  lemma YieldFacts(s: State)
    requires Linked(s) && MainOk(s.th[MAIN])
    ensures Linked(Yield(s))
    ensures var c := Next(s);
      && Yield(s).current == c
      && Wake(s.th[c], s.clock, s.carry).priority >= NORM_PRIO
      && (c == MAIN || (c != s.current && Wake(s.th[c], s.clock, s.carry).status == Active))
  {
    ExactlyIn(s.ring, s.th.Keys);
    ChooseOk(Scanned(s), s.current, VisitOrder(s.ring, s.current));
    assert Yield(s).th.Keys == s.th.Keys;
  }

  // ---------------------------------------------------------------- one step, thread by thread

  ghost function RoleOf(s: State, e: Event, t: Tid): Role
    requires WF(s) && Enabled(s, e) && !Structural(e)
  {
    PreLinked(s, e);
    PreRole(s, e, t).(next := Resched(s, e) && t == Next(Pre(s, e)))
  }

  lemma PreThread(s: State, e: Event, t: Tid)
    requires WF(s) && Enabled(s, e) && !Structural(e) && t in s.th
    ensures t in Pre(s, e).th && Pre(s, e).th[t] == Touch(s.th[t], e, PreRole(s, e, t))
    ensures Pre(s, e).current == s.current && Pre(s, e).mode == s.mode
    ensures Pre(s, e).clock == PreRole(s, e, t).clock && Pre(s, e).carry == PreRole(s, e, t).carry
    ensures Resched(s, e) ==> Pre(s, e).lastCost == s.lastCost
  {
  }

  lemma YieldThread(s: State, t: Tid, r: Role)
    requires Linked(s) && t in s.th
    requires r.current == (t == s.current) && r.next == (t == Next(s))
    requires r.clock == s.clock && r.carry == s.carry && r.lastCost == s.lastCost
    ensures t in Yield(s).th && Yield(s).th[t] == Settle(s.th[t], r)
  {
  }

  lemma TouchRole(x: Thread, e: Event, r: Role, next: bool)
    ensures Touch(x, e, r.(next := next)) == Touch(x, e, r)
  {
  }

  /** Every call other than create and remove moves each thread by Move alone. */
  lemma ThreadStep(s: State, e: Event, t: Tid)
    requires WF(s) && Enabled(s, e) && !Structural(e) && t in s.th
    ensures t in Step(s, e).th && Step(s, e).th[t] == Move(s.th[t], e, RoleOf(s, e, t))
    ensures RoleOf(s, e, t).next <==> Resched(s, e) && Step(s, e).current == t
    ensures !Resched(s, e) ==> Step(s, e).current == s.current
  {
    PreLinked(s, e);
    PreThread(s, e, t);
    var r := RoleOf(s, e, t);
    TouchRole(s.th[t], e, PreRole(s, e, t), r.next);
    if Resched(s, e) {
      YieldThread(Pre(s, e), t, r);
    }
  }

  /** The threads a step leaves: the same ones, but for create and remove, which leave
      the records of the others alone. */
  lemma StepThreads(s: State, e: Event, t: Tid)
    requires WF(s) && Enabled(s, e)
    ensures !Structural(e) ==> (t in Step(s, e).th <==> t in s.th)
    ensures Structural(e) && t in s.th && t in Step(s, e).th && t < s.nextTid
        ==> Step(s, e).th[t] == s.th[t]
    ensures e.Create? && s.ring != [] ==> (t in Step(s, e).th <==> t in s.th || t == s.nextTid)
    ensures e.Remove? ==> t in Step(s, e).th ==> t in s.th
    ensures e.Create? ==> s.nextTid in Step(s, e).th && Step(s, e).th[s.nextTid] == NewThread(e.config)
    ensures e.Create? && s.ring == [] ==> Step(s, e).th == map[MAIN := MAIN_THREAD, s.nextTid := NewThread(e.config)]
  {
  }

  // ---------------------------------------------------------------- steps keep the invariant

  lemma MainMoves(x: Thread, e: Event, r: Role)
    requires MainOk(x) && x.waitsOn.None?
    requires r.current ==> !e.Sleep? && !(e.SemP? && r.blocks) && !e.PatternStep?
    ensures MainOk(Move(x, e, r))
  {
  }

  lemma TouchKeepsWaiting(x: Thread, e: Event, r: Role)
    requires x.waitsOn.Some? <==> x.status == SemBlocked
    requires r.current ==> x.status == Active
    requires e.SemV? && r.target ==> x.waitsOn.Some?
    ensures Touch(x, e, r).waitsOn.Some? <==> Touch(x, e, r).status == SemBlocked
    ensures Touch(x, e, r).waitsOn in {x.waitsOn, None} || (e.SemP? && Touch(x, e, r).waitsOn == Some(e.sem))
  {
  }

  lemma SettleKeepsWaiting(x: Thread, r: Role)
    ensures Settle(x, r).waitsOn == x.waitsOn
    ensures Settle(x, r).status == SemBlocked <==> x.status == SemBlocked
  {
  }

  lemma ThreadOkStep(s: State, e: Event, t: Tid)
    requires WF(s) && Enabled(s, e) && !Structural(e) && t in s.th
    ensures ThreadOk(Step(s, e), t)
  {
    ThreadStep(s, e, t);
    assert ThreadOk(s, t);
    assert e.SemV? && IsTarget(s, e, t) ==> s.th[t].waitsOn.Some?;
    TouchKeepsWaiting(s.th[t], e, RoleOf(s, e, t));
    SettleKeepsWaiting(Touch(s.th[t], e, RoleOf(s, e, t)), RoleOf(s, e, t));
    assert Step(s, e).nextTid == s.nextTid && s.sems.Keys <= Step(s, e).sems.Keys;
  }

  lemma MainStep(s: State, e: Event)
    requires WF(s) && Enabled(s, e) && !Structural(e) && s.ring != []
    ensures MAIN in Step(s, e).th && MainOk(Step(s, e).th[MAIN])
    ensures Linked(Pre(s, e)) && MainOk(Pre(s, e).th[MAIN])
  {
    PreLinked(s, e);
    assert ThreadOk(s, MAIN);
    ThreadStep(s, e, MAIN);
    MainMoves(s.th[MAIN], e, RoleOf(s, e, MAIN));
    MainMoves(s.th[MAIN], e, PreRole(s, e, MAIN).(resched := false));
  }

  lemma Unmoved(x: Thread, e: Event, r: Role)
    requires !r.resched && x.status == Active
    requires e.SemP? ==> !r.blocks
    requires e.PatternStep? ==> !PatternYields(x)
    requires !e.Sleep?
    ensures Move(x, e, r).status == Active && Move(x, e, r).priority == x.priority
  {
  }

  lemma Dispatched(x: Thread, r: Role)
    requires MainOk(x) || (!r.current && Wake(x, r.clock, r.carry).status == Active)
    requires x.priority >= NORM_PRIO
    ensures Settle(x, r).status == Active && Settle(x, r).priority >= NORM_PRIO
  {
  }

  lemma DispatchStep(s: State, e: Event)
    requires WF(s) && Enabled(s, e) && !Structural(e) && s.ring != [] && Resched(s, e)
    ensures var n := Step(s, e);
      n.current in n.th && n.th[n.current].status == Active && n.th[n.current].priority >= NORM_PRIO
  {
    MainStep(s, e);
    var p := Pre(s, e);
    YieldFacts(p);
    var c := Next(p);
    var r := RoleOf(s, e, c);
    ThreadStep(s, e, c);
    PreThread(s, e, c);
    TouchRole(s.th[c], e, PreRole(s, e, c), r.next);
    Dispatched(p.th[c], r);
  }

  lemma StayStep(s: State, e: Event)
    requires WF(s) && Enabled(s, e) && !Structural(e) && s.ring != [] && !Resched(s, e)
    ensures var n := Step(s, e);
      n.current in n.th && n.th[n.current].status == Active && n.th[n.current].priority >= NORM_PRIO
  {
    ThreadStep(s, e, s.current);
    Unmoved(s.th[s.current], e, RoleOf(s, e, s.current));
  }

  lemma YieldFrame(s: State)
    requires Linked(s)
    ensures var n := Yield(s);
      && n.ring == s.ring && n.th.Keys == s.th.Keys && n.inIsr <= s.inIsr && n.nextTid == s.nextTid
      && n.time == s.time && n.clock == s.clock && n.mode == s.mode && n.lastCost == s.clock && n.sems == s.sems
  {
  }

  lemma PreFrame(s: State, e: Event)
    requires WF(s) && Enabled(s, e) && !Structural(e)
    ensures var p := Pre(s, e);
      && p.ring == s.ring && p.th.Keys == s.th.Keys && p.inIsr <= s.inIsr + {s.current} && p.nextTid == s.nextTid
      && p.time == s.time + (if e.Tick? then 1 else 0) && p.clock == Word(p.time) && p.mode == s.mode
      && (!e.Tick? ==> p.lastCost == p.clock) && s.sems.Keys <= p.sems.Keys
  {
  }

  lemma StepFrame(s: State, e: Event)
    requires WF(s) && Enabled(s, e) && !Structural(e)
    ensures var n := Step(s, e);
      && n.ring == s.ring && n.th.Keys == s.th.Keys && n.inIsr <= s.inIsr + {s.current} && n.nextTid == s.nextTid
      && n.time == s.time + (if e.Tick? then 1 else 0) && n.clock == Word(n.time) && n.mode == s.mode
      && n.lastCost == n.clock && n.sems == SemsAfter(s, e) && s.sems.Keys <= n.sems.Keys
  {
    PreLinked(s, e);
    PreFrame(s, e);
    if Resched(s, e) {
      YieldFrame(Pre(s, e));
    }
  }

  lemma ClockStep(s: State, e: Event)
    requires WF(s) && Enabled(s, e)
    ensures var n := Step(s, e);
      && n.time == s.time + (if e.Tick? then 1 else 0) && n.clock == Word(n.time)
      && n.mode == s.mode && s.nextTid <= n.nextTid
      && (!e.Tick? ==> n.clock == s.clock && n.carry == s.carry && n.lastCost == s.lastCost)
  {
    if !Structural(e) {
      StepFrame(s, e);
    }
  }

  lemma CreateStep(s: State, cfg: Config)
    requires WF(s)
    ensures WF(Step(s, Create(cfg)))
  {
    var n := Step(s, Create(cfg));
    PreLinked(s, Create(cfg));
    assert MAIN in s.th ==> ThreadOk(s, MAIN);
    assert s.current in s.th ==> ThreadOk(s, s.current);
    forall t | t in n.th ensures ThreadOk(n, t) {
      assert t in s.th ==> ThreadOk(s, t);
    }
  }

  lemma RemoveStep(s: State, t: Tid)
    requires WF(s) && Enabled(s, Remove(t))
    ensures WF(Step(s, Remove(t)))
  {
    var n := Step(s, Remove(t));
    PreLinked(s, Remove(t));
    forall u | u in n.th ensures ThreadOk(n, u) {
      assert ThreadOk(s, u);
    }
  }

  lemma CallStep(s: State, e: Event)
    requires WF(s) && Enabled(s, e) && !Structural(e)
    ensures WF(Step(s, e))
  {
    var n := Step(s, e);
    StepFrame(s, e);
    if s.ring != [] {
      MainStep(s, e);
      if Resched(s, e) {
        DispatchStep(s, e);
      } else {
        StayStep(s, e);
      }
      forall t | t in n.th ensures ThreadOk(n, t) {
        ThreadOkStep(s, e, t);
      }
    }
  }

  /** Creates and removes in any order keep the list well formed, and every step of
      every call keeps all of WF: an Active thread or main holds the processor, no
      thread runs at a priority below main's, main keeps its priority, and a thread
      refers to a semaphore exactly while it is SEM_BLOCKED. */
  lemma StepWf(s: State, e: Event)
    requires WF(s) && Enabled(s, e)
    ensures WF(Step(s, e))
  {
    if e.Create? {
      CreateStep(s, e.config);
    } else if e.Remove? {
      RemoveStep(s, e.target);
    } else {
      CallStep(s, e);
    }
  }

  // ---------------------------------------------------------------- runs

  /** A run: states[i] takes the step events[i] to states[i + 1]. */
  datatype Run = Run(states: seq<State>, events: seq<Event>)

  ghost predicate Goes(s: State, e: Event, s': State) {
    WF(s) && Enabled(s, e) && s' == Step(s, e)
  }

  ghost predicate GoesAt(r: Run, i: int)
    requires |r.states| == |r.events| + 1
  {
    0 <= i < |r.events| ==> Goes(r.states[i], r.events[i], r.states[i + 1])
  }

  ghost predicate IsRun(r: Run) {
    && |r.states| == |r.events| + 1
    && r.states[0] == Boot(r.states[0].mode)
    && forall i {:trigger GoesAt(r, i)} :: GoesAt(r, i)
  }

  /** Every state a run reaches is well formed, so `WF` in Goes excludes no step that
      the calls enable. */
  lemma {:induction false} RunWf(r: Run, i: nat)
    requires IsRun(r) && i < |r.states|
    ensures WF(r.states[i])
  {
    if i > 0 {
      assert GoesAt(r, i - 1);
      StepWf(r.states[i - 1], r.events[i - 1]);
    }
  }

  ghost predicate Reaches(r: Run, s: State) {
    IsRun(r) && r.states[|r.events|] == s
  }

  /** The run that goes on with one more step. */
  function Extended(r: Run, e: Event, s: State): Run {
    Run(r.states + [s], r.events + [e])
  }

  lemma RunExtends(r: Run, s: State, e: Event, n: State)
    requires Reaches(r, s) && Goes(s, e, n)
    ensures Reaches(Extended(r, e, n), n)
  {
    var q := Extended(r, e, n);
    forall i | 0 <= i < |q.events| ensures Goes(q.states[i], q.events[i], q.states[i + 1]) {
      if i < |r.events| {
        assert GoesAt(r, i);
      }
    }
  }

  lemma RunGoes(r: Run, i: nat)
    requires IsRun(r) && i < |r.events|
    ensures WF(r.states[i]) && Enabled(r.states[i], r.events[i])
    ensures r.states[i + 1] == Step(r.states[i], r.events[i]) && WF(r.states[i + 1])
  {
    RunWf(r, i + 1);
    assert GoesAt(r, i);
  }

  lemma StillThere(s: State, e: Event, t: Tid)
    requires WF(s) && Enabled(s, e) && t != MAIN && t < s.nextTid && t in Step(s, e).th
    ensures t in s.th
  {
    StepThreads(s, e, t);
  }

  lemma {:induction false} IdsGrow(r: Run, i: nat, j: nat)
    requires IsRun(r) && i <= j < |r.states|
    ensures r.states[i].nextTid <= r.states[j].nextTid && r.states[i].time <= r.states[j].time
    ensures r.states[i].mode == r.states[j].mode
  {
    if i < j {
      IdsGrow(r, i, j - 1);
      RunGoes(r, j - 1);
      ClockStep(r.states[j - 1], r.events[j - 1]);
    }
  }

  /** Identities are never used again: a thread that is there later was there all along. */
  lemma {:induction false} Alive(r: Run, i: nat, j: nat, t: Tid)
    requires IsRun(r) && i <= j < |r.states|
    requires t != MAIN && t < r.states[i].nextTid && t in r.states[j].th
    ensures t in r.states[i].th
    decreases j
  {
    if i < j {
      RunGoes(r, j - 1);
      IdsGrow(r, i, j - 1);
      StillThere(r.states[j - 1], r.events[j - 1], t);
      Alive(r, i, j - 1, t);
    }
  }
}
