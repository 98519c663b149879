/** Which calls end in thread_yield, and who has the processor after any call: read off the
    records before and after, with no word of the scan in between. */
module YieldProofs {
  import opened Words
  import opened KernelModel
  import opened KernelRuns
  import opened SchedulerProofs
  import opened SemaphoreProofs

  // ---------------------------------------------------------------- which calls yield

  /** The statements of the loop that give up the processor. */
  predicate Stops(x: Thread) {
    || x.pc == Offset
    || (x.pc == Gate && x.pattern != Periodic && x.pending <= 0)
    || (x.pc == Handlers && x.pattern != Aperiodic)
  }

  /** Ticks, yields and sleeps give up the processor; so do a signal to a blocked thread, a P
      on a semaphore without units, a V on a semaphore somebody waits for, and the
      statements of the loop that sleep or block. */
  ghost predicate GivesUp(s: State, e: Event) {
    match e
    case Tick => true
    case YieldCall => true
    case Sleep(_) => true
    case Signal(t) => t in s.th && s.th[t].status == Blocked
    case SemP(m) => m in s.sems && s.sems[m] <= 0
    case SemV(m) => Waiters(s, m) != {}
    case PatternStep => s.current in s.th && Stops(s.th[s.current])
    case _ => false
  }

  lemma SomebodyWaits(s: State, m: SemId)
    requires WF(s) && SemTarget(s, m).Some?
    ensures SemTarget(s, m).value in Waiters(s, m)
  {
    ExactlyIn(s.ring, s.th.Keys);
  }

  lemma GivesUpIsResched(s: State, e: Event)
    requires WF(s) && Enabled(s, e)
    ensures GivesUp(s, e) <==> Resched(s, e)
  {
    if e.SemV? {
      if SemTarget(s, e.sem).Some? {
        SomebodyWaits(s, e.sem);
      } else {
        NobodyWaits(s, e.sem);
      }
    }
  }

  // ---------------------------------------------------------------- who runs next

  /** As far as the choice goes, the records of the other threads. */
  ghost predicate SameStanding(th: map<Tid, Thread>, th': map<Tid, Thread>, current: Tid, t: Tid) {
    t in th && t in th' && t != current ==> th[t].status == th'[t].status && th[t].priority == th'[t].priority
  }

  lemma ChoiceCarriesOver(th: map<Tid, Thread>, th': map<Tid, Thread>, current: Tid, order: seq<Tid>, c: Tid)
    requires Covers(th, order) && Covers(th', order) && IsChoice(th, current, order, c)
    requires forall t {:trigger SameStanding(th, th', current, t)} :: SameStanding(th, th', current, t)
    ensures IsChoice(th', current, order, c)
  {
    forall k ensures Eligible(th, current, order, k) <==> Eligible(th', current, order, k) {
      if 0 <= k < |order| { assert SameStanding(th, th', current, order[k]); }
    }
    if !(forall k :: !Eligible(th, current, order, k)) {
      var k :| LastHighest(th, current, order, k) && order[k] == c;
      forall j | Eligible(th', current, order, j)
        ensures th'[order[j]].priority == th[order[j]].priority && th'[order[k]].priority == th[order[k]].priority
      {
        assert SameStanding(th, th', current, order[j]) && SameStanding(th, th', current, order[k]);
      }
      assert LastHighest(th', current, order, k);
    }
  }

  lemma SettleStanding(x: Thread, r: Role)
    requires !r.current
    ensures Settle(x, r).status == Wake(x, r.clock, r.carry).status
    ensures Settle(x, r).priority == Wake(x, r.clock, r.carry).priority
  {
  }

  lemma YieldStanding(p: State, t: Tid)
    requires Linked(p) && t in p.th
    ensures SameStanding(Scanned(p), Yield(p).th, p.current, t)
  {
    if t != p.current {
      var r := Role(false, false, false, true, t == Next(p), p.clock, p.carry, p.lastCost);
      YieldThread(p, t, r);
      SettleStanding(p.th[t], r);
    }
  }

  /** After a yield the current thread is the choice among the records it left. */
  lemma YieldIsChoice(p: State)
    requires Linked(p) && MainOk(p.th[MAIN])
    ensures p.current in p.ring && Covers(Yield(p).th, VisitOrder(p.ring, p.current))
    ensures IsChoice(Yield(p).th, p.current, VisitOrder(p.ring, p.current), Yield(p).current)
  {
    ScanCorrect(p);
    var th, th', order := Scanned(p), Yield(p).th, VisitOrder(p.ring, p.current);
    assert th'.Keys == p.th.Keys;
    forall t ensures SameStanding(th, th', p.current, t) {
      if t in p.th { YieldStanding(p, t); }
    }
    ChoiceCarriesOver(th, th', p.current, order, Next(p));
  }

  /** The list as the scan of a step meets it. */
  ghost function Order(s: State): seq<Tid>
    requires WF(s) && s.ring != []
  {
    ExactlyIn(s.ring, s.th.Keys);
    VisitOrder(s.ring, s.current)
  }

  /** n.current is the thread that the rule of the scheduler asks for in the records of n,
      when the thread that gave up the processor was s.current. */
  ghost predicate ChosenAfter(s: State, n: State)
    requires WF(s) && s.ring != []
  {
    Covers(n.th, Order(s)) && IsChoice(n.th, s.current, Order(s), n.current)
  }

  /** Whatever call gives up the processor, in the very next state it is with the thread the
      scheduler's rule asks for in the records of that state, those the call woke among them;
      no other call moves it. */
  lemma ProcessorAfter(s: State, e: Event)
    requires WF(s) && Enabled(s, e)
    ensures !GivesUp(s, e) ==> Step(s, e).current == s.current
    ensures GivesUp(s, e) ==> s.ring != [] && ChosenAfter(s, Step(s, e))
  {
    GivesUpIsResched(s, e);
    PreLinked(s, e);
    if Resched(s, e) {
      MainStep(s, e);
      PreFrame(s, e);
      PreThread(s, e, s.current);
      YieldIsChoice(Pre(s, e));
    }
  }

  /** No other ready thread reaches the priority of c. */
  ghost predicate OnTop(n: State, was: Tid, c: Tid)
    requires c in n.th
  {
    && n.th[c].status == Active && n.th[c].priority >= NORM_PRIO
    && forall u :: u in n.th && u != c && u != was && n.th[u].status == Active
         ==> n.th[u].priority < n.th[c].priority
  }

  lemma TopIsChosen(th: map<Tid, Thread>, current: Tid, order: seq<Tid>, c: Tid, k: nat, d: Tid)
    requires Covers(th, order) && k < |order| && order[k] == c && c != current
    requires th[c].status == Active && th[c].priority >= NORM_PRIO && IsChoice(th, current, order, d)
    requires forall u :: u in th && u != c && u != current && th[u].status == Active ==> th[u].priority < th[c].priority
    ensures d == c
  {
    assert Eligible(th, current, order, k);
    var l :| LastHighest(th, current, order, l) && order[l] == d;
  }

  /** So a ready thread above all others runs as soon as anybody else gives up the processor. */
  lemma TopRuns(s: State, e: Event, c: Tid)
    requires WF(s) && Enabled(s, e) && GivesUp(s, e) && c in Step(s, e).th && c != s.current
    requires OnTop(Step(s, e), s.current, c)
    ensures Step(s, e).current == c
  {
    ProcessorAfter(s, e);
    GivesUpIsResched(s, e);
    StepFrame(s, e);
    ExactlyIn(s.ring, s.th.Keys);
    VisitsAll(s.ring, s.current);
    var k :| 0 <= k < |Order(s)| && Order(s)[k] == c;
    TopIsChosen(Step(s, e).th, s.current, Order(s), c, k, Step(s, e).current);
  }

  // ---------------------------------------------------------------- hand-off and wake-up

  /** c is the first thread of the list among the waiting ones of the highest priority. */
  ghost predicate FirstInLine(s: State, m: SemId, c: Tid)
    requires WF(s)
  {
    && s.ring != []
    && Covers(s.th, s.ring[..|s.ring| - 1])
    && exists k :: FirstHighest(s.th, s.ring[..|s.ring| - 1], m, k) && s.ring[k] == c
  }

  lemma FirstInLineIsTarget(s: State, m: SemId, c: Tid)
    requires WF(s) && FirstInLine(s, m, c)
    ensures SemTarget(s, m) == Some(c) && c in Waiters(s, m) && c != s.current
  {
    ExactlyIn(s.ring, s.th.Keys);
    var order := s.ring[..|s.ring| - 1];
    HandOffChoice(s.th, order, m);
    var k :| FirstHighest(s.th, order, m, k) && s.ring[k] == c;
    assert WaitsAt(s.th, order, m, k);
    var l :| FirstHighest(s.th, order, m, l) && order[l] == SemTarget(s, m).value;
    assert k == l;
    assert ThreadOk(s, s.current);
  }

  /** Whenever somebody waits, somebody is first in line. */
  lemma SomebodyIsFirst(s: State, m: SemId)
    requires WF(s) && Waiters(s, m) != {}
    ensures exists c :: FirstInLine(s, m, c)
  {
    if SemTarget(s, m).None? {
      NobodyWaits(s, m);
    }
    ExactlyIn(s.ring, s.th.Keys);
    var order := s.ring[..|s.ring| - 1];
    HandOffChoice(s.th, order, m);
    var k :| FirstHighest(s.th, order, m, k) && order[k] == SemTarget(s, m).value;
    assert FirstInLine(s, m, s.ring[k]);
  }

  lemma WokenMove(x: Thread, e: Event, r: Role)
    requires r.target && ((e.SemV? && x.status == SemBlocked) || (e.Signal? && x.status == Blocked))
    ensures Move(x, e, r).status == Active && (e.SemV? ==> Move(x, e, r).waitsOn == None)
  {
  }

  /** What a V with a waiting thread does to it. */
  lemma HandedOver(s: State, m: SemId, c: Tid)
    requires WF(s) && Enabled(s, SemV(m)) && SemTarget(s, m) == Some(c)
    ensures var n := Step(s, SemV(m));
      && n.sems == s.sems && c in n.th && n.th[c].status == Active && n.th[c].waitsOn == None
  {
    var e := SemV(m);
    ExactlyIn(s.ring, s.th.Keys);
    SemsStep(s, e);
    assert ThreadOk(s, c);
    ThreadStep(s, e, c);
    WokenMove(s.th[c], e, RoleOf(s, e, c));
  }

  /** Direct hand-off: V leaves the value alone, takes the first in line off the semaphore
      and makes it ready, and reschedules at once. If no other ready thread reaches its
      priority, and that is not below main's, it has the processor in the very next state. */
  lemma HandOver(s: State, m: SemId, c: Tid)
    requires WF(s) && Enabled(s, SemV(m)) && FirstInLine(s, m, c)
    ensures var n := Step(s, SemV(m));
      && n.sems == s.sems && Waiters(n, m) == Waiters(s, m) - {c}
      && c != s.current && c in n.th && n.th[c].status == Active && n.th[c].waitsOn == None
      && ChosenAfter(s, n)
      && (OnTop(n, s.current, c) ==> n.current == c)
  {
    var e := SemV(m);
    FirstInLineIsTarget(s, m, c);
    HandedOver(s, m, c);
    WaitersStep(s, e, m);
    ProcessorAfter(s, e);
    if OnTop(Step(s, e), s.current, c) {
      TopRuns(s, e, c);
    }
  }

  /** A signal to a blocked thread does the same for that thread, counted or not. */
  lemma WakeUp(s: State, t: Tid)
    requires WF(s) && Enabled(s, Signal(t)) && s.th[t].status == Blocked
    ensures var n := Step(s, Signal(t));
      && t != s.current && t in n.th && n.th[t].status == Active
      && ChosenAfter(s, n)
      && (OnTop(n, s.current, t) ==> n.current == t)
  {
    var e := Signal(t);
    ProcessorAfter(s, e);
    ThreadStep(s, e, t);
    WokenMove(s.th[t], e, RoleOf(s, e, t));
    if OnTop(Step(s, e), s.current, t) {
      TopRuns(s, e, t);
    }
  }
}
