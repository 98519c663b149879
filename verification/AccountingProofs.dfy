/** Cost accounting: every tick is charged once, to the thread it interrupted, and a
    thread keeps its creation priority only within its budget. */
module AccountingProofs {
  import opened Words
  import opened KernelModel
  import opened KernelRuns
  import opened SeparationProofs
  import opened CreationProofs
  import SleepProofs

  // ---------------------------------------------------------------- the ledger

  /** The ticks the step adds to current_cost_ticks of the thread that was current. */
  ghost function Bill(s: State, e: Event): nat
    requires WF(s) && Enabled(s, e)
  {
    PreLinked(s, e);
    if Resched(s, e) then Sub32(Pre(s, e).clock, Pre(s, e).lastCost)
    else if Accounts(s, e) then Sub32(s.clock, s.lastCost)
    else 0
  }

  /** All bills of a run, thread by thread. */
  ghost function Ledger(r: Run, i: nat): multiset<Tid>
    requires IsRun(r) && i < |r.states|
  {
    if i == 0 then multiset{}
    else
      RunWf(r, i - 1);
      assert GoesAt(r, i - 1);
      var l := Ledger(r, i - 1);
      var c := r.states[i - 1].current;
      l[c := l[c] + Bill(r.states[i - 1], r.events[i - 1])]
  }

  /** A tick bills its thread one tick, and no other call bills anything. */
  lemma BillOfStep(s: State, e: Event)
    requires WF(s) && Enabled(s, e)
    ensures Bill(s, e) == if e.Tick? then 1 else 0
  {
    PreLinked(s, e);
    if Resched(s, e) {
      PreFrame(s, e);
      WordInjective(s.time, s.time + 1);
    }
  }

  /** Tick conservation: through every wrap of the counter and every interleaved reading
      of the cost, the ticks charged to all threads sum to the ticks that passed, each
      tick is charged to the thread that was current when it fired, and the last-cost
      mark equals the clock. */
  lemma {:induction false} TickConservation(r: Run, i: nat)
    requires IsRun(r) && i < |r.states|
    ensures |Ledger(r, i)| == r.states[i].time
    ensures r.states[i].lastCost == r.states[i].clock == Word(|Ledger(r, i)|)
    ensures i > 0 ==> var c := r.states[i - 1].current;
      Ledger(r, i) == if r.events[i - 1].Tick? then Ledger(r, i - 1) + multiset{c} else Ledger(r, i - 1)
  {
    RunWf(r, i);
    if i > 0 {
      TickConservation(r, i - 1);
      RunGoes(r, i - 1);
      BillOfStep(r.states[i - 1], r.events[i - 1]);
      ClockStep(r.states[i - 1], r.events[i - 1]);
    }
  }

  // ---------------------------------------------------------------- one thread's account

  /** The creation priority; the ticks since current_cost_ticks was last set to 0, once it
      was; how many of these at the creation priority; and whether it was ever demoted. */
  datatype Account = Account(base: u8, since: Option<nat>, own: nat, demoted: bool)

  predicate ResetsCost(s: State, e: Event, t: Tid) {
    Statement(s, e, t, Start) || Statement(s, e, t, Reset)
  }

  ghost function Book(a: Account, s: State, e: Event, n: State, t: Tid): Account
    requires WF(s) && Enabled(s, e) && t in s.th && t in n.th
  {
    if ResetsCost(s, e, t) then a.(since := Some(0), own := 0)
    else if t == s.current then
      var ticks := Bill(s, e);
      a.(since := if a.since.Some? then Some(a.since.value + ticks) else None,
         own := if a.demoted then a.own else a.own + ticks,
         demoted := a.demoted || (Resched(s, e) && n.th[t].maxCost < n.th[t].cost))
    else a
  }

  ghost function AccountAt(r: Run, t: Tid, i: nat): Account
    requires IsRun(r) && i < |r.states|
  {
    if i == 0 then Account(0, None, 0, false)
    else
      RunWf(r, i - 1);
      assert GoesAt(r, i - 1);
      var s, n := r.states[i - 1], r.states[i];
      if t !in n.th then AccountAt(r, t, i - 1)
      else if t !in s.th then Account(n.th[t].priority, None, 0, false)
      else Book(AccountAt(r, t, i - 1), s, r.events[i - 1], n, t)
  }

  /** A bound that the 32-bit cost can exceed at all. */
  predicate Bounded(x: Thread) {
    x.maxCost < 0xFFFF_FFFF
  }

  ghost predicate InBudget(x: Thread, a: Account) {
    && x.priority == (if a.demoted then OVERRUN_PRIO else a.base)
    && (x.pc != Start ==> a.since.Some?)
    && (a.since.Some? ==> x.cost == Word(a.since.value))
    && (a.since.Some? && !a.demoted ==> x.cost <= x.maxCost && (Bounded(x) ==> a.own == a.since.value <= x.maxCost))
    && (a.since.Some? && a.demoted && Bounded(x) ==> a.own <= x.maxCost + 1)
  }

  /** The fields the account is about. */
  ghost predicate SameCost(x: Thread, y: Thread) {
    x.priority == y.priority && x.cost == y.cost && x.maxCost == y.maxCost && (x.pc == Start <==> y.pc == Start)
  }

  lemma TouchCost(x: Thread, e: Event, r: Role)
    requires !(e.PatternStep? && r.current && x.pc in {Start, Reset})
    requires r.clock == r.lastCost || !(r.current && (e.ReadCost? || e.PatternStep?))
    ensures SameCost(x, Touch(x, e, r))
  {
  }

  lemma SettleCost(x: Thread, r: Role)
    ensures !r.current ==> SameCost(x, Settle(x, r))
    ensures r.current ==> SameCost(Charge(x, Sub32(r.clock, r.lastCost)), Settle(x, r))
  {
  }

  lemma CostMove(x: Thread, e: Event, r: Role)
    requires !(e.PatternStep? && r.current && x.pc in {Start, Reset})
    requires r.clock == r.lastCost || !(r.current && (e.ReadCost? || e.PatternStep?))
    ensures SameCost(if r.current && r.resched then Charge(x, Sub32(r.clock, r.lastCost)) else x, Move(x, e, r))
  {
    TouchCost(x, e, r);
    SettleCost(Touch(x, e, r), r);
  }

  lemma CostStep(s: State, e: Event, t: Tid)
    requires WF(s) && Enabled(s, e) && t in s.th && t in Step(s, e).th && !ResetsCost(s, e, t)
    ensures SameCost(if t == s.current && Resched(s, e) then Charge(s.th[t], Bill(s, e)) else s.th[t], Step(s, e).th[t])
  {
    if Structural(e) {
      assert ThreadOk(s, t);
      StepThreads(s, e, t);
    } else {
      var r := RoleOf(s, e, t);
      ThreadStep(s, e, t);
      CostMove(s.th[t], e, r);
      PreThread(s, e, t);
    }
  }

  lemma ResetStep(s: State, e: Event, t: Tid)
    requires WF(s) && Enabled(s, e) && t in s.th && ResetsCost(s, e, t)
    ensures t in Step(s, e).th
    ensures var y := Step(s, e).th[t];
      y.cost == 0 && y.priority == s.th[t].priority && y.maxCost == s.th[t].maxCost && y.pc != Start
  {
    ThreadStep(s, e, t);
  }

  function Entered(a: Account, y: Thread, ticks: nat): Account {
    a.(since := if a.since.Some? then Some(a.since.value + ticks) else None,
       own := if a.demoted then a.own else a.own + ticks,
       demoted := a.demoted || y.maxCost < y.cost)
  }

  /** Charging one more tick keeps the account right. */
  lemma ChargeKeeps(x: Thread, a: Account, ticks: nat, y: Thread)
    requires InBudget(x, a) && ticks <= 1 && SameCost(Charge(x, ticks), y)
    ensures InBudget(y, Entered(a, y, ticks))
  {
    if a.since.Some? {
      WordAdd(a.since.value, ticks);
    }
  }

  lemma BookCharge(s: State, e: Event, t: Tid, a: Account)
    requires WF(s) && Enabled(s, e) && t in s.th && t in Step(s, e).th && InBudget(s.th[t], a)
    requires !ResetsCost(s, e, t) && t == s.current && Resched(s, e)
    ensures InBudget(Step(s, e).th[t], Book(a, s, e, Step(s, e), t))
  {
    CostStep(s, e, t);
    BillOfStep(s, e);
    ChargeKeeps(s.th[t], a, Bill(s, e), Step(s, e).th[t]);
    BookIsEntered(s, e, Step(s, e), t, a);
  }

  lemma BookIsEntered(s: State, e: Event, n: State, t: Tid, a: Account)
    requires WF(s) && Enabled(s, e) && t in s.th && t in n.th
    requires !ResetsCost(s, e, t) && t == s.current && Resched(s, e)
    ensures Book(a, s, e, n, t) == Entered(a, n.th[t], Bill(s, e))
  {
  }

  lemma BookIdle(s: State, e: Event, t: Tid, a: Account)
    requires WF(s) && Enabled(s, e) && t in s.th && t in Step(s, e).th && InBudget(s.th[t], a)
    requires !ResetsCost(s, e, t) && !(t == s.current && Resched(s, e))
    ensures InBudget(Step(s, e).th[t], Book(a, s, e, Step(s, e), t))
  {
    CostStep(s, e, t);
    BillOfStep(s, e);
  }

  lemma BudgetStep(s: State, e: Event, t: Tid, a: Account)
    requires WF(s) && Enabled(s, e) && t in s.th && t in Step(s, e).th && InBudget(s.th[t], a)
    ensures InBudget(Step(s, e).th[t], Book(a, s, e, Step(s, e), t))
  {
    if ResetsCost(s, e, t) {
      ResetStep(s, e, t);
    } else if t == s.current && Resched(s, e) {
      BookCharge(s, e, t, a);
    } else {
      BookIdle(s, e, t, a);
    }
  }

  lemma {:induction false} BudgetRun(r: Run, t: Tid, i: nat)
    requires IsRun(r) && i < |r.states| && t != MAIN && t in r.states[i].th
    ensures InBudget(r.states[i].th[t], AccountAt(r, t, i))
  {
    if i > 0 {
      RunGoes(r, i - 1);
      if t in r.states[i - 1].th {
        BudgetRun(r, t, i - 1);
        BudgetStep(r.states[i - 1], r.events[i - 1], t, AccountAt(r, t, i - 1));
      } else {
        Newborn(r.states[i - 1], r.events[i - 1], t);
      }
    }
  }

  lemma {:induction false} DemotedForGood(r: Run, t: Tid, i: nat, j: nat)
    requires IsRun(r) && i <= j < |r.states| && t in r.states[i].th && t in r.states[j].th && t != MAIN
    requires AccountAt(r, t, i).demoted
    ensures AccountAt(r, t, j).demoted
    decreases j
  {
    if i < j {
      RunWf(r, i);
      assert ThreadOk(r.states[i], t);
      IdsGrow(r, i, j - 1);
      Alive(r, j - 1, j, t);
      DemotedForGood(r, t, i, j - 1);
    }
  }

  lemma BaseNext(r: Run, t: Tid, i: nat)
    requires IsRun(r) && i < |r.events| && t in r.states[i].th && t in r.states[i + 1].th
    ensures AccountAt(r, t, i + 1).base == AccountAt(r, t, i).base
  {
    RunWf(r, i);
    assert GoesAt(r, i);
  }

  lemma {:induction false} BaseIsAsked(r: Run, t: Tid, i: nat)
    requires IsRun(r) && i < |r.states| && t != MAIN && t in r.states[i].th
    ensures CreatedWith(r, t, i).Some? && AccountAt(r, t, i).base == CreatedWith(r, t, i).value.priority
  {
    if i > 0 {
      if t in r.states[i - 1].th {
        BaseIsAsked(r, t, i - 1);
        BaseNext(r, t, i - 1);
        ParametersKept(r, t, i - 1);
        PlanNext(r, t, i - 1);
      } else {
        RunWf(r, i - 1);
        assert GoesAt(r, i - 1);
        PlanBorn(r, t, i);
      }
    }
  }

  /** Budget enforcement, by the arguments of the call that created the thread: at every
      state of every run its priority is the one asked for or 3, and 3 for good once the
      budget was overrun; its cost is the ticks charged to it since the last reset, modulo
      2^32, and at most max_cost_us / 128 while it is not demoted; and never more than one
      tick above that is used in a cycle at the priority asked for. */
  lemma BudgetEnforced(r: Run, t: Tid, i: nat, j: nat)
    requires IsRun(r) && i <= j < |r.states| && t != MAIN && t in r.states[i].th && t in r.states[j].th
    ensures CreatedWith(r, t, j).Some?
    ensures var x := r.states[j].th[t]; var a := AccountAt(r, t, j); var cfg := CreatedWith(r, t, j).value;
      && x.priority == (if a.demoted then 3 else cfg.priority)
      && (AccountAt(r, t, i).demoted ==> x.priority == 3)
      && (x.pc != Start ==> a.since.Some? && x.cost == Word(a.since.value))
      && (x.pc != Start && !a.demoted ==> x.cost <= cfg.costUs / 128)
      && (x.pc != Start ==> a.own <= cfg.costUs / 128 + 1)
  {
    BudgetRun(r, t, j);
    BaseIsAsked(r, t, j);
    ParametersKept(r, t, j);
    if AccountAt(r, t, i).demoted {
      DemotedForGood(r, t, i, j);
    }
  }

  /** The test before the call of the error handler with COST_OVERUN. */
  predicate OverrunsCost(x: Thread) {
    x.cost >= x.maxCost
  }

  /** In every run the cost test compares the ticks charged since the cycle began, those of
      the error handler so far included, with max_cost_us / 128: no false alarm, and none
      missed below a lap of the counter. */
  lemma CostTest(r: Run, t: Tid, i: nat)
    requires IsRun(r) && i < |r.states| && t != MAIN && t in r.states[i].th && r.states[i].th[t].pc == Handlers
    ensures CreatedWith(r, t, i).Some? && AccountAt(r, t, i).since.Some?
    ensures var used := AccountAt(r, t, i).since.value; var bound := CreatedWith(r, t, i).value.costUs / 128;
      && (OverrunsCost(r.states[i].th[t]) ==> used >= bound)
      && (used < 0x1_0000_0000 ==> (OverrunsCost(r.states[i].th[t]) <==> used >= bound))
  {
    BudgetEnforced(r, t, i, i);
    ParametersKept(r, t, i);
    WordSmall(AccountAt(r, t, i).since.value);
  }
}
