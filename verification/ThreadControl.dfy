/** thread_t and semaphore_t as the mutable records they are, and what each piece of the
    kernel does to one of them. */
module ThreadControl {
  import opened Words
  import opened KernelModel
  import opened Policies

  class Semaphore {
    ghost const id: SemId
    var value: i16

    constructor (ghost id: SemId, initialization: i16)
      ensures this.id == id && value == initialization
    {
      this.id := id;
      value := initialization;
    }
  }

  class ThreadCtl {
    ghost const tid: Tid
    var runqNext: ThreadCtl?
    var priority: u8
    var status: Status
    var ticksToWait: u32
    var carryTicksToWait: bool
    var blockPattern: Pattern
    var minPeriodTicks: u32
    var maxDeadlineTicks: u32
    var maxCostTicks: u32
    var currentCostTicks: u32
    var offsetTicks: u32
    var mitPolicy: u8
    var queueLengthMax: i32
    var queuePending: i32
    var queueLastInput: u32
    var blockedSemaphore: Semaphore?
    var atsActive: bool
    var atsPending: u32
    /** The statement of periodic_pattern the thread executes next, and its locals. */
    var pc: Pc
    var threadCounter: u32
    var ticksAux: u32
    /** Is there an error handler, and how often was it called with ATS_SIGNAL? */
    var hasErrorHandler: bool
    var atsCalls: nat

    ghost function View(): Thread
      reads this
    {
      Thread(priority, status, ticksToWait, carryTicksToWait,
             blockPattern, minPeriodTicks, maxDeadlineTicks, maxCostTicks, currentCostTicks, offsetTicks,
             mitPolicy, queueLengthMax, queuePending, queueLastInput,
             if blockedSemaphore == null then None else Some(blockedSemaphore.id), atsActive, atsPending,
             pc, threadCounter, ticksAux)
    }

    /** The thread waits on one of the given semaphores, or on none. */
    ghost predicate LinksTo(sems: map<SemId, Semaphore>)
      reads this
    {
      blockedSemaphore != null ==> blockedSemaphore.id in sems && sems[blockedSemaphore.id] == blockedSemaphore
    }

    /** What no step changes but the list operations and the semaphore calls. */
    twostate predicate SameLinks()
      reads this
    {
      runqNext == old(runqNext) && blockedSemaphore == old(blockedSemaphore)
    }

    /** The record of a new thread holds the arguments of its creation call, the times in
        ticks of 128 us; an aperiodic one has no period. */
    ghost predicate FilledIn(cfg: Config)
      reads this
    {
      && priority == cfg.priority && status == Active && pc == Start
      && blockPattern == cfg.pattern
      && offsetTicks == cfg.offsetUs / 128
      && minPeriodTicks == (if cfg.pattern == Aperiodic then 0 else cfg.periodUs / 128)
      && maxDeadlineTicks == cfg.deadlineUs / 128
      && maxCostTicks == cfg.costUs / 128
      && (cfg.pattern != Periodic ==>
        && mitPolicy == cfg.mitPolicy && queueLengthMax == AsInt32(cfg.queueMax)
        && queuePending == 0 && queueLastInput == 0)
      && !atsActive && atsPending == 0 && blockedSemaphore == null
    }

    constructor Create(ghost tid: Tid, cfg: Config, hasErrorHandler: bool)
      ensures this.tid == tid && View() == NewThread(cfg) && FilledIn(cfg)
      ensures this.hasErrorHandler == hasErrorHandler && atsCalls == 0
    {
      var junk := cfg.junk;
      this.tid := tid;
      runqNext := null;
      // thread_create
      priority, status := cfg.priority, Active;
      ticksToWait, carryTicksToWait, currentCostTicks := junk.ticksToWait, junk.carryWait, junk.cost;
      // periodic_thread_create
      this.hasErrorHandler, atsCalls := hasErrorHandler, 0;
      offsetTicks := cfg.offsetUs / TICK_US;
      maxCostTicks := cfg.costUs / TICK_US;
      maxDeadlineTicks := cfg.deadlineUs / TICK_US;
      blockPattern := Periodic;
      minPeriodTicks := cfg.periodUs / TICK_US;
      atsActive, atsPending := false, 0;
      blockedSemaphore := null;
      mitPolicy, queueLengthMax, queuePending, queueLastInput :=
        junk.mitPolicy, junk.queueMax, junk.pending, junk.lastInput;
      if cfg.pattern != Periodic {
        // sporadic_thread_create
        blockPattern := Sporadic;
        mitPolicy := cfg.mitPolicy;
        queueLengthMax := AsInt32(cfg.queueMax);
        queuePending := 0;
        queueLastInput := 0;
        if cfg.pattern == Aperiodic {
          // aperiodic_thread_create passes the period 0
          minPeriodTicks := 0;
          blockPattern := Aperiodic;
        }
      }
      pc, threadCounter, ticksAux := Start, 0, 0;
    }

    constructor CreateMain()
      ensures tid == MAIN && View() == MAIN_THREAD && blockedSemaphore == null && runqNext == null
    {
      tid := MAIN;
      runqNext := null;
      priority, status := NORM_PRIO, Active;
      ticksToWait, carryTicksToWait := 0, false;
      blockPattern := Periodic;
      minPeriodTicks, maxDeadlineTicks, maxCostTicks, currentCostTicks, offsetTicks := 0, 0, 0xFFFF_FFFF, 0, 0;
      mitPolicy, queueLengthMax, queuePending, queueLastInput := 0, 0, 0, 0;
      blockedSemaphore := null;
      atsActive, atsPending := false, 0;
      pc, threadCounter, ticksAux := Executor, 0, 0;
      hasErrorHandler, atsCalls := false, 0;
    }

    /** One visit of thread_yield's scan. */
    method Awaken(clock: u32, carry: bool)
      modifies this
      ensures View() == Wake(old(View()), clock, carry) && SameLinks()
    {
      if status == Slept {
        if carryTicksToWait {
          if carry {
            carryTicksToWait := false;
          }
        }
        if !carryTicksToWait && ticksToWait < clock {
          status := Active;
        }
      }
      if status == Blocked {
        if Add32(queueLastInput, Add32(minPeriodTicks, minPeriodTicks)) < clock {
          queueLastInput := Add32(queueLastInput, minPeriodTicks);
        }
      }
    }

    /** The cost accounting and demotion in thread_yield. */
    method ChargeTicks(ticks: u32)
      modifies this
      ensures View() == Charge(old(View()), ticks) && SameLinks()
    {
      currentCostTicks := Add32(currentCostTicks, ticks);
      if maxCostTicks < currentCostTicks {
        priority := OVERRUN_PRIO;
      }
    }

    /** The loop of thread_start after do_switch: every pending asynchronous signal is
        consumed, with one call of the handler each, if there is one. */
    method DrainAts()
      modifies this
      ensures View() == Drain(old(View())) && SameLinks() && hasErrorHandler == old(hasErrorHandler)
      ensures atsCalls == old(atsCalls) + if atsActive && hasErrorHandler then old(atsPending) else 0
    {
      if atsActive {
        ghost var total := atsPending;
        while atsPending != 0
          invariant View() == old(View()).(atsPending := atsPending)
          invariant atsPending <= total && SameLinks() && hasErrorHandler == old(hasErrorHandler)
          invariant atsCalls == old(atsCalls) + if hasErrorHandler then total - atsPending else 0
        {
          atsPending := atsPending - 1;
          if hasErrorHandler {
            atsCalls := atsCalls + 1;
          }
        }
      }
    }

    /** tick_sleep up to its yield. */
    method FallAsleep(clock: u32, ticks: u32)
      modifies this
      ensures View() == Asleep(old(View()), clock, ticks) && SameLinks()
    {
      status := Slept;
      ticksToWait := Add32(ticks, clock);
      carryTicksToWait := clock > ticksToWait;
    }

    /** thread_signal up to the yield in thread_unblock. */
    method Receive(now: u32) returns (result: int, woken: bool)
      modifies this
      ensures View() == Signalled(old(View()), now) && SameLinks()
      ensures result == Decide(old(View()), now).result && woken == (old(status) == Blocked)
      ensures Table(old(View()), View(), now, result)
    {
      ghost var before := View();
      var policyMit := mitPolicy % 16;
      var policyOv := mitPolicy / 16;
      var last := queueLastInput;
      result := 0;
      if queueLengthMax >= queuePending {
        if Sub32(now, last) > minPeriodTicks || blockPattern != Sporadic {
          queueLastInput := now;
          queuePending := Inc32(queuePending);
        } else {
          // MIT violation
          match policyMit
          case 1 =>
            queueLastInput := now;
            queuePending := Inc32(queuePending);
          case 2 => result := 2;
          case 3 =>
          case 4 => queueLastInput := now;
          case _ => result := -3;
        }
      } else {
        // overflow violation
        match policyOv
        case 1 =>
          queuePending := Inc32(queuePending);
          queueLastInput := now;
        case 2 => result := 0x20;
        case 3 =>
        case 4 => queueLastInput := now;
        case _ => result := -2;
      }
      woken := status == Blocked;
      if woken {
        status := Active;
      }
      SignalledByTable(before, now);
    }

    /** One statement of periodic_pattern up to its yield. */
    method Advance(clock: u32, lastCost: u32) returns (mustYield: bool)
      modifies this
      ensures View() == PatternPre(old(View()), clock, lastCost) && SameLinks()
      ensures mustYield == PatternYields(old(View()))
      ensures mustYield <==>
        || old(pc) == Offset
        || (old(pc) == Gate && blockPattern != Periodic && queuePending <= 0)
        || (old(pc) == Handlers && blockPattern != Aperiodic)
      ensures !mustYield ==> status == old(status)
    {
      mustYield := false;
      match pc
      case Start =>
        currentCostTicks := 0;
        pc := Offset;
      case Offset =>
        FallAsleep(clock, offsetTicks);
        pc := Gate;
        mustYield := true;
      case Gate =>
        if blockPattern != Periodic && queuePending <= 0 {
          status := Blocked;
          mustYield := true;
        } else {
          pc := Stamp;
        }
      case Stamp =>
        threadCounter := clock;
        pc := Reset;
      case Reset =>
        currentCostTicks := 0;
        pc := Executor;
      case Executor =>
        ticksAux := clock;
        pc := Charging;
      case Charging =>
        currentCostTicks := Add32(currentCostTicks, Sub32(clock, lastCost));
        pc := Handlers;
      case Handlers =>
        threadCounter := Add32(threadCounter, minPeriodTicks);
        pc := Decrement;
        if blockPattern != Aperiodic {
          FallAsleep(clock, Sub32(threadCounter, ticksAux));
          mustYield := true;
        }
      case Decrement =>
        queuePending := Dec32(queuePending);
        pc := Gate;
    }
  }
}
