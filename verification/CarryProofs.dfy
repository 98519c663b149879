/** The kernel's carry flag, when the interrupt's last write waits until the preempted
    context resumes: how far tick_counter_previous can lag, and when the flag is up. */
module CarryProofs {
  import opened Words
  import opened KernelModel
  import opened KernelRuns

  /** The true time at which tick_counter_previous was last written, and the threads that
      ticks have preempted since. */
  datatype Mark = Mark(written: nat, preempted: set<Tid>)

  /** Does the step write tick_counter_previous? */
  ghost predicate Writes(s: State, e: Event)
    requires WF(s) && Enabled(s, e)
  {
    PreLinked(s, e);
    || (e.Tick? && s.mode.WholeInterrupt?)
    || (Resched(s, e) && Next(Pre(s, e)) in Pre(s, e).inIsr)
  }

  ghost function Preempts(s: State, e: Event): set<Tid> {
    if e.Tick? then {s.current} else {}
  }

  ghost function Remark(m: Mark, s: State, e: Event): Mark
    requires WF(s) && Enabled(s, e)
  {
    if Writes(s, e) then Mark(Step(s, e).time, {})
    else Mark(m.written, m.preempted + Preempts(s, e))
  }

  ghost function MarkAt(r: Run, i: nat): Mark
    requires IsRun(r) && i < |r.states|
  {
    if i == 0 then Mark(0, {})
    else
      RunWf(r, i - 1);
      assert GoesAt(r, i - 1);
      Remark(MarkAt(r, i - 1), r.states[i - 1], r.events[i - 1])
  }

  /** A thread that was preempted and not resumed since is still inside the interrupt. */
  ghost predicate Suspended(s: State, t: Tid) {
    t < s.nextTid && (t in s.th ==> t in s.inIsr)
  }

  /** Each tick since the last write has left one more thread inside the interrupt. */
  ghost predicate Marked(s: State, m: Mark) {
    && s.current !in s.inIsr && (s.ring == [] ==> m.preempted == {})
    && (s.mode.WholeInterrupt? ==> s.inIsr == {} && m.preempted == {})
    && s.time == m.written + |m.preempted| && s.prev == Word(m.written)
    && forall t {:trigger Suspended(s, t)} :: t in m.preempted ==> Suspended(s, t)
  }

  /** What a step does to the threads inside the interrupt. */
  lemma IsrStep(s: State, e: Event)
    requires WF(s) && Enabled(s, e) && !Structural(e) && s.ring != []
    requires s.mode.WholeInterrupt? ==> s.inIsr == {}
    ensures var n := Step(s, e);
      var during := if s.mode.DeferredWrite? then s.inIsr + Preempts(s, e) else {};
      && n.inIsr == (if Resched(s, e) then during - {n.current} else during)
      && (Writes(s, e) <==> (e.Tick? && s.mode.WholeInterrupt?) || (Resched(s, e) && n.current in during))
      && n.prev == (if Writes(s, e) then n.clock else s.prev)
      && (!Resched(s, e) ==> n.current == s.current)
      && (e.Tick? ==> Resched(s, e) && (n.carry <==> s.prev > n.clock))
  {
    PreLinked(s, e);
    var p := Pre(s, e);
    assert p.prev == s.prev && p.inIsr == if s.mode.DeferredWrite? then s.inIsr + Preempts(s, e) else {};
  }

  lemma IsrKept(s: State, e: Event)
    requires WF(s) && Enabled(s, e) && (Structural(e) || s.ring == [])
    requires s.current !in s.inIsr
    ensures var n := Step(s, e);
      && n.current == s.current && n.prev == s.prev && !Writes(s, e) && !e.Tick?
      && n.inIsr == (if e.Remove? && e.target in s.th && e.target != MAIN then s.inIsr - {e.target} else s.inIsr)
  {
    PreLinked(s, e);
  }

  lemma OneMore(before: set<Tid>, t: Tid)
    requires t !in before
    ensures |before + {t}| == |before| + 1
  {
  }

  lemma MarkedCall(s: State, e: Event, m: Mark)
    requires WF(s) && Enabled(s, e) && !Structural(e) && s.ring != [] && Marked(s, m)
    ensures Marked(Step(s, e), Remark(m, s, e))
  {
    IsrStep(s, e);
    ClockStep(s, e);
    StepFrame(s, e);
    assert ThreadOk(s, s.current);
    var n, m' := Step(s, e), Remark(m, s, e);
    assert s.current in m.preempted ==> Suspended(s, s.current);
    if e.Tick? { OneMore(m.preempted, s.current); }
    forall t | t in m'.preempted ensures Suspended(n, t) {
      assert t in m.preempted ==> Suspended(s, t);
    }
  }

  lemma MarkedKept(s: State, e: Event, m: Mark)
    requires WF(s) && Enabled(s, e) && (Structural(e) || s.ring == []) && Marked(s, m)
    ensures Marked(Step(s, e), Remark(m, s, e))
  {
    IsrKept(s, e);
    ClockStep(s, e);
    PreLinked(s, e);
    var n := Step(s, e);
    forall t | t in m.preempted ensures Suspended(n, t) {
      assert Suspended(s, t);
      SuspendedKept(s, e, t);
    }
  }

  lemma SuspendedKept(s: State, e: Event, t: Tid)
    requires WF(s) && Enabled(s, e) && Structural(e) && s.ring != [] && Suspended(s, t) && s.current !in s.inIsr
    ensures Suspended(Step(s, e), t)
  {
    IsrKept(s, e);
    ClockStep(s, e);
    StepThreads(s, e, t);
  }

  lemma MarkedStep(s: State, e: Event, m: Mark)
    requires WF(s) && Enabled(s, e) && Marked(s, m)
    ensures Marked(Step(s, e), Remark(m, s, e))
  {
    if Structural(e) || s.ring == [] {
      MarkedKept(s, e, m);
    } else {
      MarkedCall(s, e, m);
    }
  }

  lemma MarkedNext(r: Run, i: nat)
    requires IsRun(r) && i < |r.events| && Marked(r.states[i], MarkAt(r, i))
    ensures Marked(r.states[i + 1], MarkAt(r, i + 1))
  {
    assert GoesAt(r, i);
    MarkedStep(r.states[i], r.events[i], MarkAt(r, i));
  }

  lemma {:induction false} MarkedRun(r: Run, i: nat)
    requires IsRun(r) && i < |r.states|
    ensures Marked(r.states[i], MarkAt(r, i))
  {
    if i > 0 {
      MarkedRun(r, i - 1);
      MarkedNext(r, i - 1);
    }
  }

  lemma {:induction false} SmallSet(n: nat, ids: set<Tid>)
    requires forall t :: t in ids ==> t < n
    ensures |ids| <= n
  {
    if n == 0 {
      assert ids == {};
    } else {
      SmallSet(n - 1, ids - {n - 1});
      assert ids <= (ids - {n - 1}) + {n - 1};
    }
  }

  /** For how many ticks after a wrap the carry flag can be up: 1 when the interrupt is one
      step, and as many as there ever were threads when its last write is deferred. */
  function Margin(s: State): nat {
    if s.mode.WholeInterrupt? then 1 else s.nextTid
  }

  /** tick_counter_previous lags behind by at most the number of threads ever created. */
  lemma LagBound(r: Run, i: nat)
    requires IsRun(r) && i < |r.states|
    ensures var m := MarkAt(r, i); var s := r.states[i];
      && m.written <= s.time <= m.written + (if s.mode.WholeInterrupt? then 0 else s.nextTid)
      && s.prev == Word(m.written)
  {
    MarkedRun(r, i);
    var s, m := r.states[i], MarkAt(r, i);
    forall t | t in m.preempted ensures t < s.nextTid {
      assert Suspended(s, t);
    }
    SmallSet(s.nextTid, m.preempted);
  }

  /** When a tick fires, the flag reports exactly a wrap since the last write. */
  lemma TickCarry(r: Run, i: nat)
    requires IsRun(r) && i < |r.events| && r.events[i].Tick? && Margin(r.states[i]) < 0x1_0000_0000
    ensures var n := r.states[i + 1];
      && (n.clock == 0 ==> n.carry) && (n.carry ==> n.clock < Margin(n))
  {
    RunGoes(r, i);
    MarkedRun(r, i);
    var s, e, m := r.states[i], r.events[i], MarkAt(r, i);
    IsrStep(s, e);
    ClockStep(s, e);
    assert ThreadOk(s, s.current);
    forall t | t in m.preempted + {s.current} ensures t < s.nextTid {
      assert t in m.preempted ==> Suspended(s, t);
    }
    assert s.current in m.preempted ==> Suspended(s, s.current);
    SmallSet(s.nextTid, m.preempted + {s.current});
    OneMore(m.preempted, s.current);
    CarryIsWrap(m.written, r.states[i + 1].time);
  }

  /** Seen less than a lap later, an earlier time shows a higher word exactly after a wrap. */
  lemma CarryIsWrap(written: nat, now: nat)
    requires written < now < written + 0x1_0000_0000
    ensures Word(written) > Word(now) ==> Word(now) < now - written
    ensures Word(now) == 0 ==> Word(written) > 0
  {
  }

  /** The flag is up in the scan of every wrap, and otherwise only within the margin after
      one: in every run of the one-step interrupt, and with the deferred write in every run
      with fewer than 2^32 threads. */
  lemma {:induction false} CarryReportsWrap(r: Run, i: nat)
    requires IsRun(r) && i < |r.states| && Margin(r.states[i]) < 0x1_0000_0000
    ensures r.states[i].carry ==> r.states[i].clock < Margin(r.states[i])
    ensures i > 0 && r.events[i - 1].Tick? && r.states[i].clock == 0 ==> r.states[i].carry
  {
    if i > 0 {
      RunGoes(r, i - 1);
      ClockStep(r.states[i - 1], r.events[i - 1]);
      CarryReportsWrap(r, i - 1);
      if r.events[i - 1].Tick? {
        TickCarry(r, i - 1);
      }
    }
  }
}
