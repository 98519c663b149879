/** Asynchronous signals: counted, and consumed only by a resumed thread that enabled them. */
module AtsProofs {
  import opened Words
  import opened KernelModel
  import opened KernelRuns
  import opened SeparationProofs
  import opened YieldProofs

  /** Signals sent to a thread and pending signals it consumed (handler calls, when it has
      a handler). */
  datatype Mail = Mail(sent: nat, consumed: nat)

  /** How many pending signals thread_start's loop consumes for t in this step. */
  ghost function Consumes(s: State, e: Event, t: Tid): nat
    requires WF(s) && Enabled(s, e) && t in s.th
  {
    if !Structural(e) && RoleOf(s, e, t).next && Touch(s.th[t], e, RoleOf(s, e, t)).atsActive
    then Touch(s.th[t], e, RoleOf(s, e, t)).atsPending
    else 0
  }

  ghost function Deliver(m: Mail, s: State, e: Event, t: Tid): Mail
    requires WF(s) && Enabled(s, e) && t in s.th
  {
    Mail(if e == AtsSignal(t) then m.sent + 1 else m.sent, m.consumed + Consumes(s, e, t))
  }

  ghost function MailAt(r: Run, t: Tid, i: nat): Mail
    requires IsRun(r) && i < |r.states|
  {
    if i == 0 then Mail(0, 0)
    else
      RunWf(r, i - 1);
      assert GoesAt(r, i - 1);
      if t !in r.states[i - 1].th then Mail(0, 0)
      else Deliver(MailAt(r, t, i - 1), r.states[i - 1], r.events[i - 1], t)
  }

  lemma TouchAts(x: Thread, e: Event, r: Role)
    ensures Touch(x, e, r).atsPending == if e.AtsSignal? && r.target then Add32(x.atsPending, 1) else x.atsPending
    ensures !(e.AtsEnable? && r.current) && x.atsActive == false ==> Touch(x, e, r).atsActive == false
  {
  }

  lemma SettleAts(x: Thread, r: Role)
    ensures Settle(x, r).atsPending == if r.next && x.atsActive then 0 else x.atsPending
    ensures Settle(x, r).atsActive == x.atsActive
  {
  }

  /** A step adds at most the signal just sent, and consumes all that is pending or nothing. */
  ghost predicate AllOrNothing(x: Thread, y: Thread, signal: bool, consumes: nat) {
    var arrived := if signal then Add32(x.atsPending, 1) else x.atsPending;
    if consumes > 0 then consumes == arrived && y.atsPending == 0 else y.atsPending == arrived
  }

  lemma AtsStep(s: State, e: Event, t: Tid)
    requires WF(s) && Enabled(s, e) && t in s.th && t in Step(s, e).th
    ensures AllOrNothing(s.th[t], Step(s, e).th[t], e == AtsSignal(t), Consumes(s, e, t))
  {
    if Structural(e) {
      assert ThreadOk(s, t);
      StepThreads(s, e, t);
    } else {
      var r := RoleOf(s, e, t);
      ThreadStep(s, e, t);
      TouchAts(s.th[t], e, r);
      SettleAts(Touch(s.th[t], e, r), r);
    }
  }

  /** ats_pending after a step in which nothing was consumed. */
  function Arrived(x: Thread, e: Event, t: Tid): u32 {
    if e == AtsSignal(t) then Add32(x.atsPending, 1) else x.atsPending
  }

  /** Gating: ats_pending leaves its old value, plus the signal just sent, only in a step that
      resumes the thread, only while it has ats_active = 1, and then 0 is left. */
  lemma Gating(s: State, e: Event, t: Tid)
    requires WF(s) && Enabled(s, e) && t in s.th && t in Step(s, e).th
    requires Step(s, e).th[t].atsPending != Arrived(s.th[t], e, t)
    ensures Resched(s, e) && Step(s, e).current == t
    ensures Step(s, e).th[t].atsActive && Step(s, e).th[t].atsPending == 0
  {
    AtsStep(s, e, t);
    var r := RoleOf(s, e, t);
    ThreadStep(s, e, t);
    SettleAts(Touch(s.th[t], e, r), r);
  }

  /** And a resumed thread with ats_active = 1 always ends with none pending. */
  lemma ResumedIsDrained(s: State, e: Event, t: Tid)
    requires WF(s) && Enabled(s, e) && !Structural(e) && t in s.th
    requires Resched(s, e) && Step(s, e).current == t && Step(s, e).th[t].atsActive
    ensures Step(s, e).th[t].atsPending == 0
  {
    var r := RoleOf(s, e, t);
    ThreadStep(s, e, t);
    SettleAts(Touch(s.th[t], e, r), r);
  }

  ghost predicate Posted(x: Thread, m: Mail) {
    m.consumed <= m.sent && x.atsPending == Word(m.sent - m.consumed)
  }

  lemma PostedNext(x: Thread, y: Thread, m: Mail, signal: bool, consumes: nat)
    requires Posted(x, m) && AllOrNothing(x, y, signal, consumes)
    ensures Posted(y, Mail(if signal then m.sent + 1 else m.sent, m.consumed + consumes))
  {
    WordAdd(m.sent - m.consumed, 1);
  }

  lemma DeliverStep(s: State, e: Event, t: Tid, m: Mail)
    requires WF(s) && Enabled(s, e) && t in s.th && t in Step(s, e).th && Posted(s.th[t], m)
    ensures Posted(Step(s, e).th[t], Deliver(m, s, e, t))
  {
    AtsStep(s, e, t);
    var y, signal, consumes := Step(s, e).th[t], e == AtsSignal(t), Consumes(s, e, t);
    PostedNext(s.th[t], y, m, signal, consumes);
    assert Deliver(m, s, e, t) == Mail(if signal then m.sent + 1 else m.sent, m.consumed + consumes);
  }

  lemma MailNext(r: Run, t: Tid, i: nat)
    requires IsRun(r) && i < |r.events| && t in r.states[i].th && t in r.states[i + 1].th
    requires Posted(r.states[i].th[t], MailAt(r, t, i))
    ensures Posted(r.states[i + 1].th[t], MailAt(r, t, i + 1))
  {
    assert GoesAt(r, i);
    DeliverStep(r.states[i], r.events[i], t, MailAt(r, t, i));
  }

  lemma {:induction false} MailRun(r: Run, t: Tid, i: nat)
    requires IsRun(r) && i < |r.states| && t != MAIN && t in r.states[i].th
    ensures Posted(r.states[i].th[t], MailAt(r, t, i))
  {
    if i > 0 {
      if t in r.states[i - 1].th {
        MailRun(r, t, i - 1);
        MailNext(r, t, i - 1);
      } else {
        RunGoes(r, i - 1);
        Newborn(r.states[i - 1], r.events[i - 1], t);
      }
    }
  }

  /** The signals sent are those consumed plus ats_pending, if and only if fewer than 2^32
      are outstanding; beyond that ats_pending shows them modulo 2^32. */
  ghost predicate Conserved(x: Thread, m: Mail) {
    && m.consumed <= m.sent && x.atsPending == Word(m.sent - m.consumed)
    && (m.sent == m.consumed + x.atsPending <==> m.sent - m.consumed < 0x1_0000_0000)
  }

  lemma PostedConserves(x: Thread, m: Mail)
    requires Posted(x, m)
    ensures Conserved(x, m)
  {
  }

  /** ATS conservation in every reachable state. */
  lemma AtsConservation(r: Run, t: Tid, i: nat)
    requires IsRun(r) && i < |r.states| && t != MAIN && t in r.states[i].th
    ensures Conserved(r.states[i].th[t], MailAt(r, t, i))
  {
    MailRun(r, t, i);
    PostedConserves(r.states[i].th[t], MailAt(r, t, i));
  }

  // ---------------------------------------------------------------- the flag

  /** Was the last call of thread_ATS_enable or thread_ATS_disable that t made an enable? */
  function EnabledLast(r: Run, t: Tid, i: nat): bool
    requires i < |r.states| == |r.events| + 1
  {
    if i == 0 then false
    else if r.states[i - 1].current == t && r.events[i - 1].AtsEnable? then true
    else if r.states[i - 1].current == t && r.events[i - 1].AtsDisable? then false
    else EnabledLast(r, t, i - 1)
  }

  lemma TouchFlag(x: Thread, e: Event, r: Role)
    ensures Touch(x, e, r).atsActive ==
      if r.current && e.AtsEnable? then true else if r.current && e.AtsDisable? then false else x.atsActive
  {
  }

  /** Only the thread's own two calls change its flag. */
  lemma FlagStep(s: State, e: Event, t: Tid)
    requires WF(s) && Enabled(s, e) && t in s.th && t in Step(s, e).th
    ensures Step(s, e).th[t].atsActive ==
      if t == s.current && e.AtsEnable? then true
      else if t == s.current && e.AtsDisable? then false
      else s.th[t].atsActive
  {
    if Structural(e) {
      assert ThreadOk(s, t);
      StepThreads(s, e, t);
    } else {
      var r := RoleOf(s, e, t);
      ThreadStep(s, e, t);
      TouchFlag(s.th[t], e, r);
      SettleAts(Touch(s.th[t], e, r), r);
    }
  }

  /** Before a thread is there it calls nothing. */
  lemma AbsentBefore(s: State, e: Event, t: Tid)
    requires WF(s) && Enabled(s, e) && t !in Step(s, e).th && (t == MAIN || t >= Step(s, e).nextTid)
    ensures t !in s.th && (t == MAIN || t >= s.nextTid)
    ensures s.current == t ==> !e.AtsEnable?
  {
    ClockStep(s, e);
    StepThreads(s, e, t);
    assert t in s.th ==> ThreadOk(s, t);
  }

  lemma {:induction false} NotEnabledBefore(r: Run, t: Tid, i: nat)
    requires IsRun(r) && i < |r.states| && t !in r.states[i].th && (t == MAIN || t >= r.states[i].nextTid)
    ensures !EnabledLast(r, t, i)
  {
    if i > 0 {
      RunGoes(r, i - 1);
      AbsentBefore(r.states[i - 1], r.events[i - 1], t);
      NotEnabledBefore(r, t, i - 1);
    }
  }

  lemma BornDisabled(s: State, e: Event, t: Tid)
    requires WF(s) && Enabled(s, e) && t !in s.th && t in Step(s, e).th
    ensures !Step(s, e).th[t].atsActive && (t == MAIN || t == s.nextTid) && e.Create?
  {
    StepThreads(s, e, t);
  }

  /** In every run a thread, main included, has ats_active = 1 if and only if the last of its
      own enabling and disabling calls was an enabling one. */
  lemma {:induction false} FlagIsLastCall(r: Run, t: Tid, i: nat)
    requires IsRun(r) && i < |r.states| && t in r.states[i].th
    ensures r.states[i].th[t].atsActive <==> EnabledLast(r, t, i)
  {
    if i > 0 {
      RunGoes(r, i - 1);
      if t in r.states[i - 1].th {
        FlagIsLastCall(r, t, i - 1);
        FlagStep(r.states[i - 1], r.events[i - 1], t);
      } else {
        BornDisabled(r.states[i - 1], r.events[i - 1], t);
        NotEnabledBefore(r, t, i - 1);
      }
    }
  }

  /** A thread whose last such call was an enabling one has no signal pending in any state in
      which a yield has given it the processor: all were consumed in that step. Any other
      step leaves what is pending, and adds the signal it sends. */
  lemma EnabledIsServed(r: Run, t: Tid, i: nat)
    requires IsRun(r) && i < |r.events| && t in r.states[i].th && t in r.states[i + 1].th
    ensures WF(r.states[i]) && Enabled(r.states[i], r.events[i])
    ensures var s, e, n := r.states[i], r.events[i], r.states[i + 1];
      n.th[t].atsPending ==
        if GivesUp(s, e) && n.current == t && EnabledLast(r, t, i) then 0 else Arrived(s.th[t], e, t)
  {
    RunGoes(r, i);
    FlagIsLastCall(r, t, i);
    ServedStep(r.states[i], r.events[i], t);
  }

  lemma ServedStep(s: State, e: Event, t: Tid)
    requires WF(s) && Enabled(s, e) && t in s.th && t in Step(s, e).th
    ensures Step(s, e).th[t].atsPending ==
      if GivesUp(s, e) && Step(s, e).current == t && s.th[t].atsActive then 0 else Arrived(s.th[t], e, t)
  {
    GivesUpIsResched(s, e);
    FlagStep(s, e, t);
    if Step(s, e).th[t].atsPending != Arrived(s.th[t], e, t) {
      Gating(s, e, t);
    } else if Resched(s, e) && Step(s, e).current == t && s.th[t].atsActive {
      ResumedIsDrained(s, e, t);
    }
  }
}
