/** The theorems about runs, read off the fields of a kernel in memory: whatever calls and
    ticks it went through, its history is a run. */
module KernelGuarantees {
  import opened Words
  import opened KernelModel
  import opened KernelRuns
  import opened ThreadControl
  import opened Kernel
  import AccountingProofs
  import AtsProofs
  import CreationProofs
  import SemaphoreProofs
  import SignalProofs

  ghost function Length(k: Kernel): nat
    requires k.Valid()
    reads k, k.nodes, k.sems.Values
  {
    |k.history.events|
  }

  /** The nodes whose blocked_semaphore points to sem. */
  ghost function WaitingOn(k: Kernel, sem: Semaphore): set<Tid>
    reads k, k.nodes
  {
    set x | x in k.nodes && x.blockedSemaphore == sem :: x.tid
  }

  lemma WaitingIsWaiters(k: Kernel, sem: Semaphore)
    requires k.Valid() && k.Known(sem)
    ensures WaitingOn(k, sem) == SemaphoreProofs.Waiters(k.model, sem.id)
  {
    var a, b := WaitingOn(k, sem), SemaphoreProofs.Waiters(k.model, sem.id);
    forall x | x in k.nodes ensures x.tid in k.model.th
      ensures x.blockedSemaphore == sem <==> k.model.th[x.tid].waitsOn == Some(sem.id)
    {
      k.Handle(k.model, x);
      var i := k.NodeIndex(k.model.ring, x);
      assert k.LinkAt(k.model.ring, i);
    }
    forall t | t in b ensures t in a {
      ExactlyIn(k.model.ring, k.model.th.Keys);
      var i := IndexOf(k.model.ring, t);
      assert k.LinkAt(k.model.ring, i);
      assert k.nodes[i] in k.nodes;
    }
  }

  /** The value of a semaphore and the nodes that point to it are those its P and V calls
      leave: value > 0 only while nobody waits, and no V lost. */
  lemma SemaphoreKept(k: Kernel, sem: Semaphore)
    requires k.Valid() && k.Known(sem)
    requires SemaphoreProofs.BookAt(k.history, sem.id, Length(k)).initial >= 0
    ensures SemaphoreProofs.Conserved(sem.value, |WaitingOn(k, sem)|,
                                      SemaphoreProofs.BookAt(k.history, sem.id, Length(k)))
  {
    assert k.SemAt(k.model.sems, sem.id);
    WaitingIsWaiters(k, sem);
    SemaphoreProofs.SemaphoreConservation(k.history, sem.id, Length(k));
  }

  /** A node blocked at its gate has nothing pending. */
  lemma BlockedHasNothing(k: Kernel, x: ThreadCtl)
    requires k.Valid() && x in k.nodes && x.status == Blocked
    ensures x.queuePending <= 0 && x.blockPattern != Periodic
  {
    k.Handle(k.model, x);
    SignalProofs.NoLostWakeup(k.history, x.tid, Length(k));
  }

  /** A node's priority is the one it was created with, or 3 for good; within its budget it
      has used no more than max_cost_us / 128 ticks since its cost was reset. */
  lemma PriorityAndBudget(k: Kernel, x: ThreadCtl)
    requires k.Valid() && x in k.nodes && x.tid != MAIN
    ensures CreationProofs.CreatedWith(k.history, x.tid, Length(k)).Some?
    ensures var a := AccountingProofs.AccountAt(k.history, x.tid, Length(k));
      var cfg := CreationProofs.CreatedWith(k.history, x.tid, Length(k)).value;
      && x.priority == (if a.demoted then 3 else cfg.priority)
      && (x.pc != Start && !a.demoted ==> x.currentCostTicks <= cfg.costUs / 128)
  {
    k.Handle(k.model, x);
    AccountingProofs.BudgetEnforced(k.history, x.tid, Length(k), Length(k));
  }

  /** A node has ats_active set exactly when the last of its thread's own calls to enable or
      disable asynchronous signals was an enabling one. */
  lemma FlagOfNode(k: Kernel, x: ThreadCtl)
    requires k.Valid() && x in k.nodes
    ensures x.atsActive <==> AtsProofs.EnabledLast(k.history, x.tid, Length(k))
  {
    k.Handle(k.model, x);
    AtsProofs.FlagIsLastCall(k.history, x.tid, Length(k));
  }

  /** Under SAVE and OVER_SAVE the signals sent to a node are its completed cycles plus
      queue_pending. */
  lemma NothingLost(k: Kernel, x: ThreadCtl)
    requires k.Valid() && x in k.nodes && x.tid != MAIN && x.blockPattern != Periodic
    requires x.mitPolicy == 0x11
    ensures var sent := SignalProofs.Sent(k.history, x.tid, Length(k));
      var n := SignalProofs.TallyAt(k.history, x.tid, Length(k));
      && n.completed <= sent
      && (sent - n.completed < 0x8000_0000 ==> sent == n.completed + x.queuePending)
  {
    k.Handle(k.model, x);
    SignalProofs.NoSignalLost(k.history, x.tid, Length(k));
  }

  /** The two tick counters agree, and show the ticks charged to all threads so far. */
  lemma CountersAgree(k: Kernel)
    requires k.Valid()
    ensures k.tickCounterLastCost == k.globalTickCounter
    ensures k.globalTickCounter == Word(|AccountingProofs.Ledger(k.history, Length(k))|)
  {
    AccountingProofs.TickConservation(k.history, Length(k));
  }

  /** The processor is with the main thread or with a ready thread of priority 2 or more. */
  lemma CurrentIsReady(k: Kernel)
    requires k.Valid() && k.threadList != null
    ensures k.currentThread != null && k.currentThread in k.nodes
    ensures k.currentThread.status == Active && k.currentThread.priority >= 2
    ensures k.threadMain != null && k.threadMain in k.nodes
    ensures k.threadMain.status == Active && k.threadMain.priority == 2
  {
    k.Handle(k.model, k.currentThread);
    k.Handle(k.model, k.threadMain);
    assert k.LinkAt(k.model.ring, |k.nodes| - 1);
  }
}
