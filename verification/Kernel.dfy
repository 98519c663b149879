/** The kernel as it is: global variables, a linked run queue, loops over its nodes, and
    thread records changed in place. Every call is proved to take the step of KernelModel,
    in both modes of the timer interrupt; the theorems about runs therefore hold of it. */
module Kernel {
  import opened Words
  import opened KernelModel
  import opened KernelRuns
  import opened SchedulerProofs
  import opened ThreadControl
  import AtsProofs
  import Policies
  import SignalProofs
  import YieldProofs

  const YIELD_MAX: u32 := 1

  class Kernel {
    /** How the interrupt goes on after thread_yield: at once, or when the thread it
        preempted is resumed. */
    const mode: IsrMode
    var threadList: ThreadCtl?
    var currentThread: ThreadCtl?
    var threadMain: ThreadCtl?
    var nextThread: ThreadCtl?
    var globalTickCounter: u32
    var tickCounterLastCost: u32
    var tickCounterPrevious: u32
    var carryTickCounter: bool
    var yieldCount: u32
    /** The threads that go on inside the interrupt handler when they are resumed. */
    var inHandler: set<ThreadCtl>

    /** The abstract state and the run that led to it, the nodes of the list in order, and
        the semaphores. */
    ghost var model: State
    ghost var history: Run
    ghost var nodes: seq<ThreadCtl>
    ghost var sems: map<SemId, Semaphore>

    // ---------------------------------------------------------------- representation

    ghost predicate Counters(s: State)
      reads `globalTickCounter, `tickCounterLastCost, `tickCounterPrevious, `carryTickCounter, `yieldCount
    {
      && s.mode == mode && yieldCount == 0
      && globalTickCounter == s.clock && tickCounterLastCost == s.lastCost
      && tickCounterPrevious == s.prev && carryTickCounter == s.carry
    }

    ghost predicate LinkAt(ring: seq<Tid>, i: int)
      reads `nodes, `sems, nodes
    {
      0 <= i < |nodes| == |ring| ==>
        && nodes[i].tid == ring[i]
        && nodes[i].runqNext == (if i + 1 < |nodes| then nodes[i + 1] else null)
        && nodes[i].LinksTo(sems)
    }

    /** The linked list is the ring, and ends in the main thread. */
    ghost predicate Chain(ring: seq<Tid>)
      reads `nodes, `sems, `threadList, `threadMain, nodes
    {
      && |nodes| == |ring|
      && (forall i {:trigger LinkAt(ring, i)} :: LinkAt(ring, i))
      && (nodes == [] ==> threadList == null && threadMain == null)
      && (nodes != [] ==> threadList == nodes[0] && threadMain == nodes[|nodes| - 1])
    }

    ghost predicate Current(t: Tid)
      reads `nodes, `currentThread
    {
      if nodes == [] then currentThread == null
      else currentThread != null && currentThread in nodes && currentThread.tid == t
    }

    ghost predicate ViewAt(th: map<Tid, Thread>, i: int)
      reads `nodes, nodes
    {
      0 <= i < |nodes| ==> nodes[i].tid in th && nodes[i].View() == th[nodes[i].tid]
    }

    /** The records are those of th. */
    ghost predicate Shows(th: map<Tid, Thread>)
      reads `nodes, nodes
    {
      forall i {:trigger ViewAt(th, i)} :: ViewAt(th, i)
    }

    ghost predicate SemAt(values: map<SemId, i16>, m: SemId)
      reads `sems, sems.Values
    {
      m in sems ==> m in values && sems[m].id == m && sems[m].value == values[m]
    }

    ghost predicate SemsMatch(values: map<SemId, i16>)
      reads `sems, sems.Values
    {
      sems.Keys == values.Keys && forall m {:trigger SemAt(values, m)} :: SemAt(values, m)
    }

    ghost predicate Inside(ids: set<Tid>)
      reads `inHandler, `nodes
    {
      (forall x :: x in inHandler ==> x in nodes) && ids == set x | x in inHandler :: x.tid
    }

    /** The concrete state is s, but for the thread that has the processor. */
    ghost predicate FitsList(s: State)
      reads `globalTickCounter, `tickCounterLastCost, `tickCounterPrevious, `carryTickCounter, `yieldCount
      reads `nodes, `sems, `threadList, `threadMain, `inHandler, nodes, sems.Values
    {
      Counters(s) && Chain(s.ring) && Shows(s.th) && SemsMatch(s.sems) && Inside(s.inIsr)
    }

    /** The concrete state is s. */
    ghost predicate Fits(s: State)
      reads `globalTickCounter, `tickCounterLastCost, `tickCounterPrevious, `carryTickCounter, `yieldCount
      reads `nodes, `sems, `threadList, `threadMain, `inHandler, `currentThread, nodes, sems.Values
    {
      FitsList(s) && Current(s.current)
    }

    /** The calls so far are a run of the transition system, and it has reached model. */
    ghost predicate Traced()
      reads `model, `history
    {
      Reaches(history, model)
    }

    ghost predicate Valid()
      reads this, nodes, sems.Values
    {
      WF(model) && Fits(model) && Traced()
    }

    constructor (mode: IsrMode)
      ensures Valid() && this.mode == mode && model == Boot(mode)
    {
      this.mode := mode;
      threadList, currentThread, threadMain, nextThread := null, null, null, null;
      globalTickCounter, tickCounterLastCost, tickCounterPrevious, carryTickCounter := 0, 0, 0, false;
      yieldCount, inHandler := 0, {};
      model, nodes, sems := Boot(mode), [], map[];
      history := Run([Boot(mode)], []);
    }

    lemma NodesDistinct(ring: seq<Tid>, i: int, j: int)
      requires Chain(ring) && NoDuplicates(ring) && 0 <= i < |nodes| && 0 <= j < |nodes| && i != j
      ensures nodes[i] != nodes[j] && nodes[i].tid != nodes[j].tid
    {
      assert LinkAt(ring, i) && LinkAt(ring, j);
      assert Differ(ring, i, j) && Differ(ring, j, i);
    }

    /** Where the node of a thread stands. */
    lemma NodeIndex(ring: seq<Tid>, x: ThreadCtl) returns (i: nat)
      requires Chain(ring) && x in nodes
      ensures i < |nodes| && nodes[i] == x && ring[i] == x.tid
    {
      i :| 0 <= i < |nodes| && nodes[i] == x;
      assert LinkAt(ring, i);
    }

    /** Changing the contents of one record leaves the list as it was. */
    twostate lemma ChainKept(ring: seq<Tid>)
      requires old(Chain(ring)) && nodes == old(nodes) && sems == old(sems)
      requires threadList == old(threadList) && threadMain == old(threadMain)
      requires forall y: ThreadCtl :: y in nodes ==> y.runqNext == old(y.runqNext)
      requires forall y: ThreadCtl :: y in nodes ==> y.blockedSemaphore == old(y.blockedSemaphore) || y.LinksTo(sems)
      ensures Chain(ring)
    {
      forall i ensures LinkAt(ring, i) {
        assert old(LinkAt(ring, i));
        if 0 <= i < |nodes| { assert nodes[i] in nodes; }
      }
    }

    // ---------------------------------------------------------------- the scan

    /** Node j after k visits of the scan that started at node c. */
    ghost predicate ScanAt(s: State, c: nat, k: int, j: int)
      reads `nodes, nodes
    {
      0 <= j < |nodes| ==>
        && nodes[j].tid in s.th
        && nodes[j].View() ==
             if Slot(|nodes|, c, j) < k then Wake(s.th[nodes[j].tid], s.clock, s.carry) else s.th[nodes[j].tid]
    }

    ghost predicate Scanning(s: State, c: nat, k: int)
      reads `nodes, nodes
    {
      c < |nodes| && forall j {:trigger ScanAt(s, c, k, j)} :: ScanAt(s, c, k, j)
    }

    /** The index the scan stands at after k visits. */
    ghost function At(c: nat, k: nat): int
      reads `nodes
    {
      if k == 0 then c else Position(|nodes|, c, k - 1)
    }

    lemma NextIndex(c: nat, k: nat)
      requires c < |nodes| && k < |nodes|
      ensures 0 <= At(c, k) < |nodes| && 0 <= At(c, k + 1) < |nodes|
      ensures At(c, k + 1) == if At(c, k) + 1 < |nodes| then At(c, k) + 1 else 0
      ensures Slot(|nodes|, c, At(c, k + 1)) == k
      ensures At(c, k + 1) == c <==> k + 1 == |nodes|
    {
    }

    lemma SlotInjective(c: nat, i: nat, j: nat)
      requires c < |nodes| && i < |nodes| && j < |nodes| && i != j
      ensures Slot(|nodes|, c, i) != Slot(|nodes|, c, j)
    {
    }

    lemma ScanStarts(s: State, c: nat)
      requires Shows(s.th) && c < |nodes|
      ensures Scanning(s, c, 0)
    {
      forall j ensures ScanAt(s, c, 0, j) {
        assert ViewAt(s.th, j);
        assert 0 <= j < |nodes| ==> Slot(|nodes|, c, j) >= 0;
      }
    }

    lemma ScanEnds(s: State, c: nat)
      requires Scanning(s, c, |nodes|)
      ensures Shows(Scanned(s))
    {
      forall j ensures ViewAt(Scanned(s), j) {
        assert ScanAt(s, c, |nodes|, j);
        assert 0 <= j < |nodes| ==> Slot(|nodes|, c, j) < |nodes|;
      }
    }

    /** What the scan compares, read from the records, is what the model compares. */
    lemma ComparesLikeModel(s: State, c: nat, k: nat, x: ThreadCtl, candidate: ThreadCtl)
      requires NoDuplicates(s.ring) && Chain(s.ring) && Current(s.current) && Scanning(s, c, k + 1)
      requires k < |nodes| && currentThread == nodes[c] && x == nodes[At(c, k + 1)] && candidate in nodes
      ensures x.tid in s.th && candidate.tid in s.th
      ensures x.View() == Scanned(s)[x.tid] && candidate.priority == Scanned(s)[candidate.tid].priority
      ensures x.tid == s.current <==> x == currentThread
      ensures s.current == s.ring[c] && x.tid == s.ring[At(c, k + 1)]
    {
      var i, l := At(c, k + 1), k + 1;
      NextIndex(c, k);
      assert LinkAt(s.ring, i) && LinkAt(s.ring, c) && ScanAt(s, c, l, i);
      var m := NodeIndex(s.ring, candidate);
      assert ScanAt(s, c, l, m);
      if i != c { NodesDistinct(s.ring, i, c); }
    }

    lemma ChooseOneMore(th: map<Tid, Thread>, current: Tid, order: seq<Tid>, k: nat)
      requires MAIN in th && Covers(th, order) && k < |order|
      ensures Choose(th, current, order[..k + 1]) ==
        var c := Choose(th, current, order[..k]); var t := order[k];
        if th[t].status == Active && th[t].priority >= th[c].priority && t != current then t else c
    {
      assert order[..k + 1][..k] == order[..k];
    }

    /** The comparison of the scan is the choice of the model. */
    lemma Considers(s: State, c: nat, k: nat, x: ThreadCtl, candidate: ThreadCtl)
      requires Linked(s) && Chain(s.ring) && Current(s.current) && Scanning(s, c, k + 1)
      requires k < |nodes| && currentThread == nodes[c] && x == nodes[At(c, k + 1)]
      requires s.current in s.ring && Covers(Scanned(s), VisitOrder(s.ring, s.current))
      requires candidate in nodes && candidate.tid == Choose(Scanned(s), s.current, VisitOrder(s.ring, s.current)[..k])
      ensures Choose(Scanned(s), s.current, VisitOrder(s.ring, s.current)[..k + 1])
        == if x.status == Active && x.priority >= candidate.priority && x != currentThread then x.tid else candidate.tid
    {
      ComparesLikeModel(s, c, k, x, candidate);
      OrderFrom(s.ring, c, k);
      ChooseOneMore(Scanned(s), s.current, VisitOrder(s.ring, s.current), k);
    }

    /** One step along the ring: the list ends in main, and goes on at its head. */
    method Follow(th: ThreadCtl, ghost ring: seq<Tid>, ghost c: nat, ghost k: nat)
      requires Chain(ring) && c < |nodes| && k < |nodes| && 0 <= At(c, k) < |nodes| && th == nodes[At(c, k)]
      modifies this`nextThread
      ensures 0 <= At(c, k + 1) < |nodes| && nextThread == nodes[At(c, k + 1)]
    {
      assert LinkAt(ring, At(c, k));
      NextIndex(c, k);
      nextThread := th.runqNext;
      if nextThread == null {
        nextThread := threadList;
      }
    }

    /** The scan reaches the node x. */
    method Visit(x: ThreadCtl, ghost s: State, ghost c: nat, ghost k: nat)
      requires NoDuplicates(s.ring) && Counters(s) && Chain(s.ring) && Scanning(s, c, k) && k < |nodes|
      requires 0 <= At(c, k + 1) < |nodes| && x == nodes[At(c, k + 1)]
      modifies x
      ensures Chain(s.ring) && Scanning(s, c, k + 1)
    {
      NextIndex(c, k);
      x.Awaken(globalTickCounter, carryTickCounter);
      ChainKept(s.ring);
      ghost var l := k + 1;
      forall j ensures ScanAt(s, c, l, j) {
        assert old(ScanAt(s, c, k, j));
        if 0 <= j < |nodes| && j != At(c, l) {
          SlotInjective(c, j, At(c, l));
          NodesDistinct(s.ring, j, At(c, l));
          assert nodes[j] in nodes && nodes[j] != x;
        }
      }
    }

    /** After k visits: the records visited are awakened, th is where the scan stands, and
        candidate is the choice among the visited threads. */
    ghost predicate ScanState(s: State, c: nat, k: nat, th: ThreadCtl, candidate: ThreadCtl)
      requires s.current in s.ring && Covers(Scanned(s), VisitOrder(s.ring, s.current)) && MAIN in s.th
      reads `nodes, `currentThread, nodes
    {
      && c < |nodes| == |s.ring| && k <= |nodes| && currentThread == nodes[c] && Scanning(s, c, k)
      && 0 <= At(c, k) < |nodes| && th == nodes[At(c, k)] && candidate in nodes
      && candidate.tid == Choose(Scanned(s), s.current, VisitOrder(s.ring, s.current)[..k])
    }

    /** One turn of the scan's loop. */
    method Turn(th: ThreadCtl, candidate: ThreadCtl, ghost s: State, ghost c: nat, ghost k: nat)
      returns (next: ThreadCtl, best: ThreadCtl)
      requires Linked(s) && Counters(s) && Chain(s.ring) && Current(s.current)
      requires s.current in s.ring && Covers(Scanned(s), VisitOrder(s.ring, s.current))
      requires k < |nodes| && ScanState(s, c, k, th, candidate)
      modifies this`nextThread, nodes
      ensures Chain(s.ring) && ScanState(s, c, k + 1, next, best) && next == nextThread
      ensures next == currentThread <==> k + 1 == |nodes|
    {
      Follow(th, s.ring, c, k);
      next, best := nextThread, candidate;
      Visit(next, s, c, k);
      Considers(s, c, k, next, candidate);
      if next.status == Active && next.priority >= candidate.priority && nextThread != currentThread {
        best := next;
      }
      NextIndex(c, k);
      if At(c, k + 1) != c { NodesDistinct(s.ring, At(c, k + 1), c); }
    }

    lemma ScanBegins(s: State) returns (c: nat)
      requires Linked(s) && Chain(s.ring) && Current(s.current) && Shows(s.th)
      ensures s.current in s.ring && Covers(Scanned(s), VisitOrder(s.ring, s.current))
      ensures currentThread != null && threadMain != null && ScanState(s, c, 0, currentThread, threadMain)
      ensures |nodes| == |s.ring| > 0
    {
      OrderCovers(s);
      c := NodeIndex(s.ring, currentThread);
      assert LinkAt(s.ring, |nodes| - 1);
      ScanStarts(s, c);
    }

    lemma ScanDone(s: State, c: nat, th: ThreadCtl, candidate: ThreadCtl)
      requires Linked(s) && s.current in s.ring && Covers(Scanned(s), VisitOrder(s.ring, s.current))
      requires ScanState(s, c, |nodes|, th, candidate)
      ensures Shows(Scanned(s)) && candidate in nodes && candidate.tid == Next(s)
    {
      assert VisitOrder(s.ring, s.current)[..|nodes|] == VisitOrder(s.ring, s.current);
      ScanEnds(s, c);
    }

    /** The scan: it ends because the ring leads back to the current thread. */
    method Scan(ghost s: State) returns (candidate: ThreadCtl)
      requires Linked(s) && Counters(s) && Chain(s.ring) && Current(s.current) && Shows(s.th)
      modifies this`nextThread, nodes
      ensures Chain(s.ring) && Shows(Scanned(s))
      ensures candidate in nodes && candidate.tid == Next(s)
    {
      ghost var c := ScanBegins(s);
      ghost var k := 0;
      var th: ThreadCtl := currentThread;
      candidate := threadMain;
      var finished := false;
      while !finished
        invariant k <= |nodes| && Chain(s.ring) && ScanState(s, c, k, th, candidate)
        invariant finished <==> k == |nodes|
        decreases |nodes| - k
      {
        th, candidate := Turn(th, candidate, s, c, k);
        finished := nextThread == currentThread;
        k := k + 1;
      }
      ScanDone(s, c, th, candidate);
    }

    // ---------------------------------------------------------------- thread_yield

    /** The records after the scan and the cost accounting. */
    ghost function ChargedRecords(s: State): map<Tid, Thread> {
      map t | t in s.th ::
        if t == s.current then Charge(Scanned(s)[t], Sub32(s.clock, s.lastCost)) else Scanned(s)[t]
    }

    /** The records after the signals of the resumed thread were drained. */
    ghost function DrainedRecords(s: State, next: Tid): map<Tid, Thread> {
      map t | t in s.th ::
        if t == next then Drain(ChargedRecords(s)[t]) else ChargedRecords(s)[t]
    }

    lemma YieldRecords(s: State)
      requires Linked(s)
      ensures DrainedRecords(s, Next(s)) == Yield(s).th
    {
    }

    /** The cost accounting of thread_yield. */
    method ChargeCurrent(ghost s: State)
      requires Linked(s) && Counters(s) && Chain(s.ring) && Current(s.current) && Shows(Scanned(s))
      modifies this`tickCounterLastCost, nodes
      ensures Chain(s.ring) && Shows(ChargedRecords(s))
      ensures tickCounterLastCost == Add32(s.lastCost, Sub32(s.clock, s.lastCost))
    {
      ghost var c := NodeIndex(s.ring, currentThread);
      var ticks := Sub32(globalTickCounter, tickCounterLastCost);
      currentThread.ChargeTicks(ticks);
      ChainKept(s.ring);
      tickCounterLastCost := Add32(tickCounterLastCost, ticks);
      forall i ensures ViewAt(ChargedRecords(s), i) {
        assert old(ViewAt(Scanned(s), i));
        if 0 <= i < |nodes| && i != c { NodesDistinct(s.ring, i, c); }
      }
    }

    /** thread_start: the switch to next_thread, and the asynchronous signals pending for
        the resumed thread. */
    method ThreadStart(ghost s: State, ghost next: Tid)
      requires NoDuplicates(s.ring) && Chain(s.ring) && Shows(ChargedRecords(s))
      requires nextThread != null && nextThread in nodes && nextThread.tid == next
      modifies this`currentThread, nodes
      ensures Chain(s.ring) && Current(next) && Shows(DrainedRecords(s, next))
    {
      ghost var c := NodeIndex(s.ring, nextThread);
      currentThread := nextThread;
      nextThread.DrainAts();
      ChainKept(s.ring);
      forall i ensures ViewAt(DrainedRecords(s, nextThread.tid), i) {
        assert old(ViewAt(ChargedRecords(s), i));
        if 0 <= i < |nodes| && i != c { NodesDistinct(s.ring, i, c); }
      }
    }

    lemma InsideIs(s: State, x: ThreadCtl)
      requires Chain(s.ring) && NoDuplicates(s.ring) && Inside(s.inIsr) && x in nodes
      ensures x in inHandler <==> x.tid in s.inIsr
    {
      var i := NodeIndex(s.ring, x);
      forall y | y in inHandler && y.tid == x.tid ensures y == x {
        var j := NodeIndex(s.ring, y);
        if i != j { NodesDistinct(s.ring, i, j); }
      }
    }

    /** The resumed thread returns from thread_yield: if it was preempted by the interrupt,
        into the handler, which now makes its last assignment. */
    method ReturnFromYield(ghost s: State)
      requires Chain(s.ring) && NoDuplicates(s.ring) && Inside(s.inIsr)
      requires currentThread != null && currentThread in nodes
      modifies `tickCounterPrevious, `inHandler
      ensures Inside(s.inIsr - {currentThread.tid})
      ensures tickCounterPrevious ==
        if currentThread.tid in s.inIsr then globalTickCounter else old(tickCounterPrevious)
    {
      InsideIs(s, currentThread);
      forall y | y in inHandler && y != currentThread ensures y.tid != currentThread.tid {
        var i := NodeIndex(s.ring, currentThread);
        var j := NodeIndex(s.ring, y);
        NodesDistinct(s.ring, i, j);
      }
      if currentThread in inHandler {
        tickCounterPrevious := globalTickCounter;
        inHandler := inHandler - {currentThread};
      }
    }

    lemma YieldFits(s: State)
      requires Linked(s) && Chain(s.ring) && Current(Next(s)) && SemsMatch(s.sems)
      requires Shows(DrainedRecords(s, Next(s))) && Inside(s.inIsr - {Next(s)})
      requires Counters(s.(lastCost := tickCounterLastCost, prev := tickCounterPrevious))
      requires tickCounterLastCost == Add32(s.lastCost, Sub32(s.clock, s.lastCost))
      requires tickCounterPrevious == if Next(s) in s.inIsr then s.clock else s.prev
      ensures Fits(Yield(s))
    {
      YieldRecords(s);
    }

    /** The scan and the accounting, up to the assignment of next_thread. */
    method ScanAndCharge(ghost s: State)
      requires Linked(s) && Counters(s) && Chain(s.ring) && Current(s.current) && Shows(s.th)
      modifies this`nextThread, this`tickCounterLastCost, nodes
      ensures nextThread != null && nextThread in nodes && nextThread.tid == Next(s)
      ensures Chain(s.ring) && Shows(ChargedRecords(s))
      ensures tickCounterLastCost == Add32(s.lastCost, Sub32(s.clock, s.lastCost))
    {
      var candidate := Scan(s);
      ChargeCurrent(s);
      nextThread := candidate;
    }

    /** The switch to the thread chosen. */
    method Dispatch(ghost s: State)
      requires Linked(s) && Chain(s.ring) && Shows(ChargedRecords(s)) && SemsMatch(s.sems) && Inside(s.inIsr)
      requires Counters(s.(lastCost := tickCounterLastCost))
      requires tickCounterLastCost == Add32(s.lastCost, Sub32(s.clock, s.lastCost))
      requires nextThread != null && nextThread in nodes && nextThread.tid == Next(s)
      modifies this`currentThread, this`tickCounterPrevious, this`inHandler, nodes
      ensures Fits(Yield(s))
    {
      ThreadStart(s, Next(s));
      Resume(s);
    }

    /** The chosen thread goes on. */
    method Resume(ghost s: State)
      requires Linked(s) && Chain(s.ring) && Current(Next(s)) && Shows(DrainedRecords(s, Next(s)))
      requires SemsMatch(s.sems) && Inside(s.inIsr) && Counters(s.(lastCost := tickCounterLastCost))
      requires tickCounterLastCost == Add32(s.lastCost, Sub32(s.clock, s.lastCost))
      modifies this`tickCounterPrevious, this`inHandler
      ensures Fits(Yield(s))
    {
      ReturnFromYield(s);
      YieldFits(s);
    }

    /** thread_yield takes the yield of the model. */
    method ThreadYield(ghost s: State)
      requires Linked(s) && Fits(s)
      modifies this`nextThread, this`currentThread, this`tickCounterLastCost
      modifies this`tickCounterPrevious, this`inHandler, nodes
      ensures Fits(Yield(s))
    {
      ScanAndCharge(s);
      Dispatch(s);
    }

    // ---------------------------------------------------------------- one record changed

    /** The record of a node, and that no other node has its identity. */
    lemma Handle(s: State, x: ThreadCtl)
      requires Chain(s.ring) && NoDuplicates(s.ring) && Shows(s.th) && x in nodes
      ensures x.tid in s.th && x.View() == s.th[x.tid]
      ensures forall y :: y in nodes && y.tid == x.tid ==> y == x
    {
      var i := NodeIndex(s.ring, x);
      assert ViewAt(s.th, i);
      forall y | y in nodes && y.tid == x.tid ensures y == x {
        var j := NodeIndex(s.ring, y);
        if i != j { NodesDistinct(s.ring, i, j); }
      }
    }

    /** After one record was changed in place. */
    twostate lemma Updated(x: ThreadCtl)
      requires old(Valid()) && x in nodes && nodes == old(nodes) && sems == old(sems)
      requires threadList == old(threadList) && threadMain == old(threadMain)
      requires forall y :: y in nodes && y != x ==> unchanged(y)
      requires x.runqNext == old(x.runqNext) && (x.blockedSemaphore == old(x.blockedSemaphore) || x.LinksTo(sems))
      ensures Chain(old(model).ring) && Shows(old(model).th[x.tid := x.View()])
    {
      var s := old(model);
      forall i ensures LinkAt(s.ring, i) {
        assert old(LinkAt(s.ring, i));
        if 0 <= i < |nodes| { assert nodes[i] in nodes; }
      }
      var th := s.th[x.tid := x.View()];
      var j := NodeIndex(s.ring, x);
      forall i ensures ViewAt(th, i) {
        assert old(ViewAt(s.th, i));
        if 0 <= i < |nodes| && i != j {
          NodesDistinct(s.ring, i, j);
          assert nodes[i] in nodes;
        }
      }
    }

    /** Calls that only touch the caller's record. */
    lemma CallerOnly(s: State, e: Event)
      requires WF(s) && Enabled(s, e) && s.current in s.th
      requires e.Sleep? || e.AtsEnable? || e.AtsDisable? || e.ReadCost? || e.PatternStep? || e.SemP?
      ensures var p := Pre(s, e);
        && p.th == s.th[s.current := Touch(s.th[s.current], e, PreRole(s, e, s.current))]
        && p == s.(th := p.th, lastCost := p.lastCost, sems := p.sems)
    {
    }

    /** Calls that only touch their target's record. */
    lemma TargetOnly(s: State, e: Event, target: Tid)
      requires WF(s) && Enabled(s, e) && target in s.th
      requires e == Signal(target) || e == AtsSignal(target) || (e.SemV? && SemTarget(s, e.sem) == Some(target))
      ensures var p := Pre(s, e);
        && p.th == s.th[target := Touch(s.th[target], e, PreRole(s, e, target))] && p == s.(th := p.th)
    {
    }

    /** A step other than a tick is Pre and perhaps a yield. */
    lemma StepIs(s: State, e: Event)
      requires WF(s) && Enabled(s, e) && !e.Tick? && s.ring != []
      ensures Linked(Pre(s, e)) && WF(Step(s, e))
      ensures Step(s, e) == (if Resched(s, e) then Yield(Pre(s, e)) else Pre(s, e))
    {
      PreLinked(s, e);
      StepWf(s, e);
    }

    /** A step is complete: the run so far is r, and the abstract state is n. */
    ghost method Commit(r: Run, n: State)
      requires WF(n) && Fits(n) && Reaches(r, n)
      modifies `model, `history
      ensures Valid() && model == n && history == r
    {
      history, model := r, n;
    }

    method YieldIf(mustYield: bool, ghost p: State, ghost r: Run, ghost n: State)
      requires Linked(p) && Fits(p) && WF(n) && n == (if mustYield then Yield(p) else p) && Reaches(r, n)
      modifies this, nodes
      ensures Valid() && model == n && history == r && nodes == old(nodes) && sems == old(sems)
    {
      if mustYield {
        ThreadYield(p);
        Commit(r, n);
      } else {
        Commit(r, n);
      }
    }

    /** The run with the step e from its last state. */
    ghost function After(r: Run, s: State, e: Event): (q: Run)
      requires WF(s) && Enabled(s, e) && Reaches(r, s)
      ensures Reaches(q, Step(s, e))
    {
      RunExtends(r, s, e, Step(s, e));
      Extended(r, e, Step(s, e))
    }

    /** The end of a call: thread_yield, when the call ends in it. */
    method Finish(mustYield: bool, ghost s: State, ghost e: Event)
      requires WF(s) && Enabled(s, e) && !e.Tick? && s.ring != [] && Reaches(history, s)
      requires Fits(Pre(s, e)) && (mustYield <==> Resched(s, e))
      modifies this, nodes
      ensures Valid() && model == Step(s, e) && history == After(old(history), s, e)
      ensures nodes == old(nodes) && sems == old(sems)
    {
      StepIs(s, e);
      YieldIf(mustYield, Pre(s, e), After(history, s, e), Step(s, e));
    }

    /** The call has taken the step e, and the run has gone on by it. */
    twostate predicate Took(e: Event)
      requires old(Valid())
      reads this, nodes, sems.Values
    {
      && Valid() && Enabled(old(model), e)
      && model == Step(old(model), e) && history == After(old(history), old(model), e)
    }

    /** The call has taken the step e, and then a yield. */
    twostate predicate TookAndYielded(e: Event)
      requires old(Valid())
      reads this, nodes, sems.Values
    {
      && Valid() && Enabled(old(model), e)
      && var s := Step(old(model), e);
        && WF(s) && Enabled(s, YieldCall) && model == Step(s, YieldCall)
        && history == After(After(old(history), old(model), e), s, YieldCall)
    }

    // ---------------------------------------------------------------- calls of the running thread

    /** tick_sleep, to which thread_usleep comes down. */
    method TickSleep(ticks: u32)
      requires Valid() && Enabled(model, Sleep(ticks))
      modifies this, nodes
      ensures Took(Sleep(ticks)) && nodes == old(nodes) && sems == old(sems)
    {
      ghost var s, e := model, Sleep(ticks);
      Handle(s, currentThread);
      currentThread.FallAsleep(globalTickCounter, ticks);
      Updated(currentThread);
      CallerOnly(s, e);
      Finish(true, s, e);
    }

    method ThreadUsleep(timeUs: u32)
      requires Valid() && Enabled(model, Sleep(timeUs / TICK_US))
      modifies this, nodes
      ensures Took(Sleep(timeUs / TICK_US))
      ensures nodes == old(nodes) && sems == old(sems)
    {
      TickSleep(timeUs / TICK_US);
    }

    /** thread_yield as a call. */
    method CallYield()
      requires Valid()
      modifies this, nodes
      ensures Valid() && nodes == old(nodes) && sems == old(sems)
      ensures if old(model).ring == [] then model == old(model) && history == old(history) else Took(YieldCall)
    {
      if threadList == null {
        return;
      }
      ghost var s, e := model, YieldCall;
      YieldTouchesNobody(s);
      Finish(true, s, e);
    }

    lemma YieldTouchesNobody(s: State)
      requires WF(s) && s.ring != []
      ensures Pre(s, YieldCall) == s
    {
    }

    /** thread_signal: -1 for a null thread, else what the table of the two policies says, on
        the record and in the code returned. */
    method ThreadSignal(th: ThreadCtl?) returns (result: int)
      requires Valid() && (th != null ==> th in nodes)
      modifies this, nodes
      ensures Valid() && nodes == old(nodes) && sems == old(sems)
      ensures th == null ==> result == -1 && model == old(model) && history == old(history)
      ensures th != null ==> th.tid in old(model).th && Took(Signal(th.tid))
      ensures th != null ==> Policies.Table(old(th.View()), th.View(), old(globalTickCounter), result)
    {
      if th == null {
        return -1;
      }
      ghost var s, e := model, Signal(th.tid);
      Handle(s, th);
      var woken;
      result, woken := th.Receive(globalTickCounter);
      Updated(th);
      TargetOnly(s, e, th.tid);
      Finish(woken, s, e);
      SignalProofs.SignalByTable(s, th.tid);
      Handle(model, th);
    }

    /** thread_ATS_signal: the pending count, then a yield. */
    method SendAts(th: ThreadCtl) returns (result: int)
      requires Valid() && th in nodes
      modifies this, nodes
      ensures Valid() && nodes == old(nodes) && sems == old(sems) && result == 0
      ensures TookAndYielded(AtsSignal(th.tid))
    {
      ghost var s, e := model, AtsSignal(th.tid);
      Handle(s, th);
      th.atsPending := Add32(th.atsPending, 1);
      Updated(th);
      TargetOnly(s, e, th.tid);
      Finish(false, s, e);
      CallYield();
      result := 0;
    }

    /** thread_ATS_enable: a yield follows only when the flag was down. */
    method EnableAts()
      requires Valid() && Enabled(model, AtsEnable)
      modifies this, nodes
      ensures Valid() && nodes == old(nodes) && sems == old(sems)
      ensures old(model).current in old(model).th
      ensures if old(model).th[old(model).current].atsActive then model == old(model) && history == old(history)
              else TookAndYielded(AtsEnable)
      ensures old(currentThread) != null && old(currentThread).atsActive
    {
      ghost var s, e := model, AtsEnable;
      StepWf(s, e);
      Handle(s, currentThread);
      if !currentThread.atsActive {
        ghost var caller := currentThread;
        currentThread.atsActive := true;
        Updated(currentThread);
        CallerOnly(s, e);
        Finish(false, s, e);
        FlagKept(s, e, caller);
        ghost var n := model;
        CallYield();
        FlagKept(n, YieldCall, caller);
      }
    }

    /** The flag of a node after a call is what the call leaves of it. */
    lemma FlagKept(s: State, e: Event, x: ThreadCtl)
      requires Valid() && WF(s) && Enabled(s, e) && model == Step(s, e) && x in nodes && x.tid in s.th
      ensures x.atsActive ==
        if x.tid == s.current && e.AtsEnable? then true
        else if x.tid == s.current && e.AtsDisable? then false
        else s.th[x.tid].atsActive
      ensures x.tid in model.th && model.th[x.tid].atsActive == x.atsActive
    {
      Handle(model, x);
      AtsProofs.FlagStep(s, e, x.tid);
    }

    /** thread_ATS_disable. */
    method DisableAts()
      requires Valid() && Enabled(model, AtsDisable)
      modifies this, nodes
      ensures Took(AtsDisable) && nodes == old(nodes) && sems == old(sems)
      ensures old(currentThread) != null && !old(currentThread).atsActive
    {
      ghost var s, e, caller := model, AtsDisable, currentThread;
      Handle(s, currentThread);
      if currentThread.atsActive {
        currentThread.atsActive := false;
      }
      Updated(currentThread);
      CallerOnly(s, e);
      Finish(false, s, e);
      FlagKept(s, e, caller);
    }

    /** get_current_cost_ticks. */
    method GetCurrentCostTicks() returns (cost: u32)
      requires Valid() && Enabled(model, ReadCost)
      modifies this, nodes
      ensures Took(ReadCost) && nodes == old(nodes) && sems == old(sems)
      ensures model.current in model.th && cost == model.th[model.current].cost
    {
      ghost var s, e := model, ReadCost;
      Handle(s, currentThread);
      var ticks := Sub32(globalTickCounter, tickCounterLastCost);
      currentThread.currentCostTicks := Add32(currentThread.currentCostTicks, ticks);
      tickCounterLastCost := Add32(tickCounterLastCost, ticks);
      Updated(currentThread);
      CallerOnly(s, e);
      Finish(false, s, e);
      Handle(model, currentThread);
      cost := currentThread.currentCostTicks;
    }

    /** One statement of periodic_pattern by the running thread. */
    method StepPattern()
      requires Valid() && Enabled(model, PatternStep)
      modifies this, nodes
      ensures Took(PatternStep) && nodes == old(nodes) && sems == old(sems)
    {
      ghost var s, e := model, PatternStep;
      Handle(s, currentThread);
      var charging := currentThread.pc == Charging;
      var mustYield := currentThread.Advance(globalTickCounter, tickCounterLastCost);
      if charging {
        tickCounterLastCost := Add32(tickCounterLastCost, Sub32(globalTickCounter, tickCounterLastCost));
      }
      Updated(currentThread);
      CallerOnly(s, e);
      Finish(mustYield, s, e);
    }

    // ---------------------------------------------------------------- the timer interrupt

    /** What the interrupt has done when it calls thread_yield. */
    ghost function Ticked(s: State): State {
      var clock := Add32(s.clock, 1);
      s.(time := s.time + 1, clock := clock, carry := s.prev > clock,
         inIsr := if s.mode.DeferredWrite? then s.inIsr + {s.current} else s.inIsr)
    }

    lemma TickIs(s: State)
      requires WF(s) && s.ring != []
      ensures Linked(Ticked(s)) && WF(Step(s, Tick))
      ensures Step(s, Tick) ==
        var y := Yield(Ticked(s)); if s.mode.WholeInterrupt? then y.(prev := y.clock) else y
    {
      StepWf(s, Tick);
      assert Pre(s, Tick).th == s.th;
      assert Pre(s, Tick) == Ticked(s);
    }

    /** The interrupt up to its call of thread_yield. */
    method CountTick(ghost s: State) returns (due: bool)
      requires Fits(s) && currentThread != null && s.ring != []
      modifies `globalTickCounter, `yieldCount, `carryTickCounter, `inHandler
      ensures due && Fits(Ticked(s))
    {
      globalTickCounter := Add32(globalTickCounter, 1);
      yieldCount := Add32(yieldCount, 1);
      due := yieldCount == YIELD_MAX;
      if due {
        yieldCount := 0;
        carryTickCounter := tickCounterPrevious > globalTickCounter;
        if mode.DeferredWrite? {
          inHandler := inHandler + {currentThread};
        }
      }
    }

    /** The interrupt's last assignment, when it is made at once. */
    method RecordTick(ghost y: State, ghost r: Run, ghost n: State)
      requires Fits(y) && WF(n) && n == y.(prev := y.clock) && Reaches(r, n)
      modifies `tickCounterPrevious, `model, `history
      ensures Valid() && model == n && history == r
    {
      tickCounterPrevious := globalTickCounter;
      Commit(r, n);
    }

    method YieldInInterrupt(ghost p: State, ghost r: Run, ghost n: State)
      requires Linked(p) && Fits(p) && WF(n) && Reaches(r, n)
      requires n == var y := Yield(p); if mode.WholeInterrupt? then y.(prev := y.clock) else y
      modifies this, nodes
      ensures Valid() && model == n && history == r && nodes == old(nodes) && sems == old(sems)
    {
      ThreadYield(p);
      if mode.WholeInterrupt? {
        RecordTick(Yield(p), r, n);
      } else {
        Commit(r, n);
      }
    }

    method TimerInterrupt()
      requires Valid() && model.ring != []
      modifies this, nodes
      ensures Took(Tick) && nodes == old(nodes) && sems == old(sems)
    {
      ghost var s := model;
      TickIs(s);
      var due := CountTick(s);
      if due {
        YieldInInterrupt(Ticked(s), After(history, s, Tick), Step(s, Tick));
      }
    }

    // ---------------------------------------------------------------- semaphores

    ghost predicate Known(sem: Semaphore)
      reads `sems
    {
      sem.id in sems && sems[sem.id] == sem
    }

    /** Neither creating a semaphore nor changing its value touches the threads. */
    lemma SemsOnly(s: State, e: Event)
      requires WF(s) && Enabled(s, e)
      requires e.SemCreate? || (e.SemP? && s.sems[e.sem] > 0) || (e.SemV? && SemTarget(s, e.sem).None?)
      ensures !Resched(s, e) && Pre(s, e) == s.(sems := SemsAfter(s, e))
      ensures Step(s, e) == Pre(s, e)
    {
      assert Pre(s, e).th == s.th;
    }

    /** The value of a semaphore is written, and nothing else. */
    method SetValue(sem: Semaphore, value: i16, ghost s: State, ghost e: Event)
      requires Valid() && Known(sem) && s == model && Enabled(s, e)
      requires (e == SemP(sem.id) && s.sems[e.sem] > 0) || (e == SemV(sem.id) && SemTarget(s, e.sem).None?)
      requires SemsAfter(s, e) == s.sems[sem.id := value]
      modifies this, sem
      ensures Took(e) && nodes == old(nodes) && sems == old(sems)
    {
      sem.value := value;
      ghost var values := s.sems[sem.id := value];
      forall m ensures SemAt(values, m) {
        assert old(SemAt(s.sems, m));
      }
      SemsOnly(s, e);
      StepWf(s, e);
      Commit(After(history, s, e), Step(s, e));
    }

    /** A new semaphore becomes known. */
    ghost method Register(sem: Semaphore, s: State)
      requires Fits(s) && sem.id !in s.sems
      modifies `sems
      ensures sems == old(sems)[sem.id := sem] && Fits(s.(sems := s.sems[sem.id := sem.value]))
    {
      sems := sems[sem.id := sem];
      ghost var values := s.sems[sem.id := sem.value];
      forall i ensures LinkAt(s.ring, i) {
        assert old(LinkAt(s.ring, i));
      }
      forall m ensures SemAt(values, m) {
        assert old(SemAt(s.sems, m));
      }
    }

    method SemaphoreCreate(ghost id: SemId, initialization: i16) returns (sem: Semaphore)
      requires Valid() && id !in model.sems
      modifies this
      ensures Took(SemCreate(id, initialization))
      ensures fresh(sem) && sem.id == id && nodes == old(nodes) && sems == old(sems)[id := sem]
    {
      ghost var s, e := model, SemCreate(id, initialization);
      sem := new Semaphore(id, initialization);
      Register(sem, s);
      SemsOnly(s, e);
      StepWf(s, e);
      Commit(After(history, s, e), Step(s, e));
    }

    /** thread_semaphore_P when the value is not positive. */
    method WaitOn(sem: Semaphore)
      requires Valid() && Known(sem) && Enabled(model, SemP(sem.id)) && model.sems[sem.id] <= 0
      modifies this, nodes
      ensures Took(SemP(sem.id)) && nodes == old(nodes) && sems == old(sems)
    {
      ghost var s, e := model, SemP(sem.id);
      Handle(s, currentThread);
      currentThread.blockedSemaphore := sem;
      currentThread.status := SemBlocked;
      Updated(currentThread);
      CallerOnly(s, e);
      Finish(true, s, e);
    }

    method SemaphoreP(sem: Semaphore?)
      requires Valid() && (sem != null ==> Known(sem) && Enabled(model, SemP(sem.id)))
      modifies this, nodes, sems.Values
      ensures Valid() && nodes == old(nodes) && sems == old(sems)
      ensures sem == null ==> model == old(model) && history == old(history)
      ensures sem != null ==> Took(SemP(sem.id))
    {
      if sem == null {
        return;
      }
      assert SemAt(model.sems, sem.id);
      if sem.value <= 0 {
        WaitOn(sem);
      } else {
        SetValue(sem, sem.value - 1, model, SemP(sem.id));
      }
    }

    /** The candidate of thread_semaphore_V's loop is the model's. */
    ghost predicate BestWaiter(k: nat, sem: Semaphore, candidate: ThreadCtl?)
      requires WF(model) && k <= |model.ring|
      reads this, nodes
    {
      var c := HandOffAmong(k, sem);
      if candidate == null then c.None? else candidate in nodes && c == Some(candidate.tid)
    }

    ghost function HandOffAmong(k: nat, sem: Semaphore): Option<Tid>
      requires WF(model) && k <= |model.ring|
      reads this
    {
      ExactlyIn(model.ring, model.th.Keys);
      HandOff(model.th, model.ring[..k], sem.id)
    }

    lemma WaiterCompared(k: nat, sem: Semaphore, candidate: ThreadCtl?, th: ThreadCtl)
      requires Valid() && Known(sem) && k < |nodes| && th == nodes[k] && BestWaiter(k, sem, candidate)
      ensures BestWaiter(k + 1, sem,
        if th.blockedSemaphore == sem && (candidate == null || candidate.priority < th.priority) then th else candidate)
    {
      assert LinkAt(model.ring, k);
      Handle(model, th);
      if candidate != null {
        Handle(model, candidate);
      }
      assert model.ring[..k + 1][..k] == model.ring[..k];
    }

    /** The search loop: the first among the waiting threads of the highest priority. */
    method FindWaiter(sem: Semaphore) returns (candidate: ThreadCtl?)
      requires Valid() && Known(sem)
      ensures if candidate == null then SemTarget(model, sem.id).None?
              else candidate in nodes && SemTarget(model, sem.id) == Some(candidate.tid)
    {
      candidate := null;
      var th := threadList;
      ghost var k := 0;
      while th != threadMain
        invariant if nodes == [] then th == null else k < |nodes| && th == nodes[k]
        invariant k <= |nodes| && BestWaiter(k, sem, candidate)
        decreases |nodes| - k
      {
        WaiterCompared(k, sem, candidate, th);
        assert LinkAt(model.ring, k);
        if th.blockedSemaphore == sem {
          if candidate == null {
            candidate := th;
          } else if candidate.priority < th.priority {
            candidate := th;
          }
        }
        th := th.runqNext;
        k := k + 1;
      }
      if nodes != [] && k != |nodes| - 1 {
        NodesDistinct(model.ring, k, |nodes| - 1);
      }
    }

    lemma Handed(s: State, m: SemId, candidate: ThreadCtl)
      requires WF(s) && Enabled(s, SemV(m)) && SemTarget(s, m) == Some(candidate.tid)
      requires Valid() && model == Step(s, SemV(m)) && candidate in nodes
      ensures candidate.status == Active && candidate.blockedSemaphore == null
    {
      YieldProofs.HandedOver(s, m, candidate.tid);
      Handle(model, candidate);
    }

    /** thread_semaphore_V when a thread waits. */
    method HandTo(candidate: ThreadCtl, sem: Semaphore)
      requires Valid() && Known(sem) && candidate in nodes
      requires Enabled(model, SemV(sem.id)) && SemTarget(model, sem.id) == Some(candidate.tid)
      modifies this, nodes
      ensures Took(SemV(sem.id)) && nodes == old(nodes) && sems == old(sems)
      ensures candidate.status == Active && candidate.blockedSemaphore == null
    {
      ghost var s, e := model, SemV(sem.id);
      Handle(s, candidate);
      candidate.status := Active;
      candidate.blockedSemaphore := null;
      Updated(candidate);
      TargetOnly(s, e, candidate.tid);
      Finish(true, s, e);
      Handed(s, sem.id, candidate);
    }

    method SemaphoreV(sem: Semaphore?)
      requires Valid() && (sem != null ==> Known(sem))
      modifies this, nodes, sems.Values
      ensures Valid() && nodes == old(nodes) && sems == old(sems)
      ensures sem == null ==> model == old(model) && history == old(history)
      ensures sem != null ==> Took(SemV(sem.id))
    {
      if sem == null {
        return;
      }
      assert SemAt(model.sems, sem.id);
      var candidate := FindWaiter(sem);
      if candidate != null {
        HandTo(candidate, sem);
      } else {
        SetValue(sem, Inc16(sem.value), model, SemV(sem.id));
      }
    }

    // ---------------------------------------------------------------- the list operations

    /** The state with the main thread in it. */
    ghost function WithMain(s: State): State {
      if s.ring == [] then s.(ring := [MAIN], th := map[MAIN := MAIN_THREAD]) else s
    }

    /** The first call of thread_create makes the main thread's record and starts it. */
    method StartMain(ghost s: State)
      requires Fits(s) && s.ring == [] && s.th == map[] && s.current == MAIN
      modifies `threadMain, `threadList, `currentThread, `nodes
      ensures Fits(WithMain(s)) && |nodes| == 1 && fresh(nodes[0])
    {
      var main := new ThreadCtl.CreateMain();
      threadMain := main;
      threadList := main;
      currentThread := main;
      nodes := [main];
    }

    /** The new node goes to the head of the list. */
    method Prepend(th: ThreadCtl, ghost s: State)
      requires Fits(s) && s.ring != [] && th !in nodes
      requires th.blockedSemaphore == null && th.tid !in s.th
      modifies `threadList, `nodes, th`runqNext
      ensures nodes == [th] + old(nodes)
      ensures Fits(s.(ring := [th.tid] + s.ring, th := s.th[th.tid := th.View()], nextTid := s.nextTid + 1))
    {
      th.runqNext := threadList;
      threadList := th;
      nodes := [th] + nodes;
      ghost var ring, records := [th.tid] + s.ring, s.th[th.tid := th.View()];
      forall i ensures LinkAt(ring, i) {
        assert old(LinkAt(s.ring, i - 1));
      }
      forall i ensures ViewAt(records, i) {
        assert old(ViewAt(s.th, i - 1));
      }
    }

    /** The list and the records with a new thread at the head. */
    ghost function Attached(m: State, cfg: Config): State {
      m.(ring := [m.nextTid] + m.ring, th := m.th[m.nextTid := NewThread(cfg)], nextTid := m.nextTid + 1)
    }

    lemma CreateIs(s: State, cfg: Config)
      requires WF(s)
      ensures s.nextTid !in WithMain(s).th && WF(Step(s, Create(cfg)))
      ensures Step(s, Create(cfg)) == Attached(WithMain(s), cfg)
    {
      StepWf(s, Create(cfg));
      assert s.nextTid in s.th ==> ThreadOk(s, s.nextTid);
    }

    method Attach(cfg: Config, hasErrorHandler: bool, ghost m: State) returns (th: ThreadCtl)
      requires Fits(m) && m.ring != [] && m.nextTid !in m.th
      modifies `threadList, `nodes
      ensures Fits(Attached(m, cfg)) && fresh(th) && th.tid == m.nextTid && nodes == [th] + old(nodes)
      ensures th.FilledIn(cfg) && th.hasErrorHandler == hasErrorHandler
    {
      th := new ThreadCtl.Create(m.nextTid, cfg, hasErrorHandler);
      Prepend(th, m);
    }

    /** The new node, and main's with the first one. */
    method AddThread(cfg: Config, hasErrorHandler: bool, ghost s: State) returns (th: ThreadCtl)
      requires WF(s) && Fits(s)
      modifies `threadMain, `threadList, `currentThread, `nodes
      ensures WF(Step(s, Create(cfg))) && Fits(Step(s, Create(cfg)))
      ensures fresh(th) && th.tid == s.nextTid && nodes != [] && nodes[0] == th
      ensures old(nodes) != [] ==> nodes == [th] + old(nodes)
      ensures th.FilledIn(cfg) && th.hasErrorHandler == hasErrorHandler
    {
      CreateIs(s, cfg);
      if threadList == null {
        StartMain(s);
      }
      th := Attach(cfg, hasErrorHandler, WithMain(s));
    }

    /** thread_create and what the three creation calls add: a node at the head of the list
        that holds the arguments; the first one brings the main thread with it. */
    method ThreadCreate(cfg: Config, hasErrorHandler: bool) returns (th: ThreadCtl)
      requires Valid()
      modifies this
      ensures Took(Create(cfg)) && sems == old(sems)
      ensures fresh(th) && th.tid == old(model).nextTid && nodes != [] && nodes[0] == th
      ensures old(nodes) != [] ==> nodes == [th] + old(nodes)
      ensures th.FilledIn(cfg) && th.hasErrorHandler == hasErrorHandler
    {
      ghost var s := model;
      th := AddThread(cfg, hasErrorHandler, s);
      Commit(After(history, s, Create(cfg)), Step(s, Create(cfg)));
    }

    /** The search loop of thread_remove. */
    method FindNode(th: ThreadCtl?) returns (index: ThreadCtl?, previous: ThreadCtl?, ghost i: nat)
      requires Chain(model.ring) && NoDuplicates(model.ring)
      ensures nodes == [] ==> index == threadMain
      ensures nodes != [] ==> i < |nodes| && index == nodes[i] && (i > 0 ==> previous == nodes[i - 1])
      ensures index == threadMain || index == th
      ensures th != null && th in nodes ==> index == th
    {
      previous := threadList;
      index := threadList;
      i := 0;
      while index != threadMain && index != th
        invariant nodes == [] ==> index == threadMain
        invariant nodes != [] ==> i < |nodes| && index == nodes[i] && (i > 0 ==> previous == nodes[i - 1])
        invariant forall j :: 0 <= j < i < |nodes| ==> nodes[j] != th
        decreases |nodes| - i
      {
        assert LinkAt(model.ring, i);
        previous := index;
        index := index.runqNext;
        i := i + 1;
      }
      if nodes != [] && i != |nodes| - 1 {
        NodesDistinct(model.ring, i, |nodes| - 1);
      }
    }

    ghost function Removed(s: State, t: Tid): State {
      s.(ring := Without(s.ring, t), th := map u | u in s.th && u != t :: s.th[u], inIsr := s.inIsr - {t})
    }

    lemma RingWithout(ring: seq<Tid>, i: nat)
      requires NoDuplicates(ring) && i < |ring|
      ensures Without(ring, ring[i]) == ring[..i] + ring[i + 1..]
    {
      var k := IndexOf(ring, ring[i]);
      assert Differ(ring, i, k) && Differ(ring, k, i);
    }

    /** The link that led to the node at index i leads past it. */
    method Relink(index: ThreadCtl, previous: ThreadCtl?, ghost i: nat, ghost ring: seq<Tid>)
      requires Chain(ring) && NoDuplicates(ring) && i < |nodes| - 1 && index == nodes[i]
      requires i > 0 ==> previous == nodes[i - 1]
      modifies `threadList, `nodes, nodes
      ensures nodes == old(nodes[..i] + nodes[i + 1..]) && Chain(ring[..i] + ring[i + 1..])
      ensures forall y :: y in old(nodes) ==> y.View() == old(y.View())
    {
      assert LinkAt(ring, i) && LinkAt(ring, i - 1) && LinkAt(ring, 0);
      ghost var was := nodes;
      if i > 0 { NodesDistinct(ring, 0, i); }
      forall k | 0 <= k < |was| && k != i - 1 && i > 0 ensures was[k] != was[i - 1] {
        NodesDistinct(ring, k, i - 1);
      }
      if index == threadList {
        threadList := index.runqNext;
      } else {
        previous.runqNext := index.runqNext;
      }
      nodes := nodes[..i] + nodes[i + 1..];
      ghost var rest := ring[..i] + ring[i + 1..];
      forall j ensures LinkAt(rest, j) {
        var k := if j < i then j else j + 1;
        assert old(LinkAt(ring, k));
        if 0 <= j < |nodes| { assert nodes[j] == was[k]; }
      }
    }

    /** The node at index i is taken out of the list. */
    method Unlink(index: ThreadCtl, previous: ThreadCtl?, ghost i: nat, ghost s: State)
      requires FitsList(s) && NoDuplicates(s.ring) && i < |nodes| - 1 && index == nodes[i]
      requires i > 0 ==> previous == nodes[i - 1]
      modifies `threadList, `nodes, `inHandler, nodes
      ensures nodes == old(nodes[..i] + nodes[i + 1..]) && FitsList(Removed(s, index.tid)) && index !in nodes
    {
      assert LinkAt(s.ring, i);
      RingWithout(s.ring, i);
      ghost var was := nodes;
      forall k | 0 <= k < |was| && k != i ensures was[k] != index && was[k].tid != index.tid {
        NodesDistinct(s.ring, k, i);
      }
      Relink(index, previous, i, s.ring);
      inHandler := inHandler - {index};
      InsideWithout(s, index, i, was);
      ghost var records := Removed(s, index.tid).th;
      forall j ensures ViewAt(records, j) {
        var k := if j < i then j else j + 1;
        assert old(ViewAt(s.th, k));
        if 0 <= j < |nodes| { assert nodes[j] == was[k]; }
      }
    }

    /** A freed thread is not resumed inside the handler. */
    lemma InsideWithout(s: State, index: ThreadCtl, i: nat, was: seq<ThreadCtl>)
      requires i < |was| && was[i] == index && nodes == was[..i] + was[i + 1..] && index !in inHandler
      requires forall k :: 0 <= k < |was| && k != i ==> was[k] != index && was[k].tid != index.tid
      requires forall x :: x in inHandler ==> x in was
      requires (set x | x in inHandler :: x.tid) + {index.tid} == s.inIsr + {index.tid}
      ensures Inside(s.inIsr - {index.tid})
    {
      forall x | x in inHandler ensures x in nodes && x.tid != index.tid {
        var k :| 0 <= k < |was| && was[k] == x;
        assert x == nodes[if k < i then k else k - 1];
      }
    }

    lemma RemoveIs(s: State, t: Tid)
      requires WF(s) && Enabled(s, Remove(t)) && t in s.th && t != MAIN
      ensures Step(s, Remove(t)) == Removed(s, t) && WF(Step(s, Remove(t)))
    {
      StepWf(s, Remove(t));
    }

    /** The node found is taken out; the list is then well formed even if it was that of the
        running thread. */
    method RemoveFound(index: ThreadCtl, previous: ThreadCtl?, ghost i: nat)
      requires Valid() && i < |nodes| && index == nodes[i] && index != threadMain
      requires i > 0 ==> previous == nodes[i - 1]
      modifies this, nodes
      ensures FitsList(Removed(old(model), index.tid)) && sems == old(sems) && index !in nodes
      ensures index != old(currentThread) ==> Took(Remove(index.tid))
    {
      ghost var s := model;
      assert LinkAt(s.ring, i) && LinkAt(s.ring, |nodes| - 1);
      NodesDistinct(s.ring, i, |nodes| - 1);
      Handle(s, index);
      ghost var running := index == currentThread;
      Unlink(index, previous, i, s);
      if !running {
        RemoveIs(s, index.tid);
        Commit(After(history, s, Remove(index.tid)), Step(s, Remove(index.tid)));
      }
    }

    /** thread_remove: 0 when the node was found, -1 for the main thread and for a node
        that is not in the list. Only a thread other than the running one can be removed
        and the kernel go on; the list is well formed in any case. */
    method ThreadRemove(th: ThreadCtl?) returns (result: int)
      requires Valid()
      modifies this, nodes
      ensures sems == old(sems)
      ensures (th == null || th !in old(nodes) || th == old(threadMain)) ==>
        result == -1 && Valid() && model == old(model) && history == old(history) && nodes == old(nodes)
      ensures th != null && th in old(nodes) && th != old(threadMain) ==>
        result == 0 && FitsList(Removed(old(model), th.tid)) && th !in nodes
      ensures th != null && th in old(nodes) && th != old(threadMain) && th != old(currentThread) ==>
        Took(Remove(th.tid))
    {
      result := -1;
      var index, previous;
      ghost var i;
      index, previous, i := FindNode(th);
      if index != threadMain {
        RemoveFound(index, previous, i);
        result := 0;
      }
    }
  }
}
