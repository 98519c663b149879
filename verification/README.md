# The rtthreads kernel and its serial link, as a Dafny model

rtthreads is a small real-time kernel for AVR boards. Threads stand in a linked run queue
that ends in the main thread; a timer interrupt counts ticks in 32 bits and calls
`thread_yield`, which scans the queue, wakes sleepers, ages the arrival times of blocked
sporadic threads, charges the running thread for its ticks and switches to the thread it
chose. On top stand activation loops for periodic, sporadic and aperiodic threads, signals
with interarrival and overflow policies, counting semaphores with direct hand-off,
asynchronous signals and a ring queue. `Network.java` is the computer's end of the serial
link: it frames messages by a divider.

## How the model is built

`KernelModel` is a transition system over values. A step is one atomic section: an
`ATOMIC_BLOCK` up to the switch that ends it, the timer interrupt, or one statement of
`periodic_pattern`. The state carries, beside the 32-bit counter, a tick count without
bound that no step reads; machine words wrap explicitly (`Words`). A step is written as
what it does to one thread's record in a given role (`Move`), so that most proofs are about
one record and are lifted to states and then to runs. `KernelRuns` has the invariant; the
`...Proofs` modules have the theorems over runs, each against a history variable that
is computed from the run alone (`LogAt`, `TallyAt`, `ArrivalsAt`, `BookAt`, `AccountAt`,
`Ledger`, `MailAt`, `MarkAt`, `CreatedWith`, `EnabledLast`, `Sent`). `Policies` is the table
of the signal policies line by line. `Witnesses` has runs that reach the rare failures.

`ThreadControl` and `Kernel` are the program's own form: mutable thread records linked by
`runqNext`, global variables, and the loops over the nodes. Each method ends in the state
that the model's step gives for the state it began in, and adds that step to a ghost history
(`Took`). The object's invariant says that the history is a run that has reached the
present state, so the theorems about runs hold of every kernel object after any calls;
`KernelGuarantees` reads some of them off its fields. `RingQueue`, `ContextSwitch` and
`SerialFraming` each hold a model with its theorems and a class that does the same in place.

The interrupt has two modes. In `WholeInterrupt` the handler is one step, as if it were
atomic; in `DeferredWrite` `tick_counter_previous` is written only when the preempted
context resumes, as `do_switch`'s `reti` allows. Model, class and theorems cover both. With
the deferred write the theorems about the clock ask for fewer threads than 2^32 (or 2^32
less the longest period), because the write can lag by one tick for each thread; a board
has room for a handful.

## Where the code departs from its comments, its documentation or its evident intent

- A sleep whose deadline is 2^32-1 modulo 2^32 never ends, because the test is `<`
  (rtthreads.cpp:698). A sleep of n ticks ends at the scan of tick n + 1, and the period
  of a periodic thread is therefore one tick longer than asked for.
- "It is safe" (rtthreads.cpp:213) holds for cycles that fit their period; a cycle that
  overruns by x sleeps 2^32 - x ticks.
- If the interrupt's last assignment waits for its context to resume, the carry flag stays up
  for some ticks after a wrap, and a sleep of nearly 2^32 ticks begun then is over at once.
  No wrap is missed.
- "The main is never blocked" (rtthreads.cpp:722) is a demand on the application. Line 460
  sets the status of the new thread, not of main; main is taken to start Active.
- The sum in the ageing test of `queue_last_input` overflows shortly before a wrap and then
  ages the field too early. Two accepted signals stay a period apart all the same; what goes
  wrong is that a due signal can be refused, or, with REPLACE, one that is not due passed.
  A caller who keeps two periods clear of the wrap is safe.
- Demotion sets the priority to 3, which raises threads created at 0, 1 or 2.
- The queue's getter does not wrap its index (rtthreads.cpp:1045-1049).
- `writeSerial(int, int[])` is documented to return false when no port is connected; it
  returns true (Network.java:371, 392-395). It compares the numbers with the divider before it
  cuts them off at 0 and 255, so a number above 255 can still be sent as a divider of 255.

## Model

| member | source | states |
|---|---|---|
| `KernelModel.WithoutKeeps` | arduino/libraries/rtthreads/rtthreads.cpp:347-382 | Removal takes out exactly the requested node: everything before and after it stays in order, main stays last, nothing appears twice |
| `KernelModel.CreateLinked` | arduino/libraries/rtthreads/rtthreads.cpp:447-473 | A creation (with main on the first one) leaves a duplicate-free list that ends in main and holds exactly the known threads |
| `KernelModel.RemoveLinked` | arduino/libraries/rtthreads/rtthreads.cpp:347-382 | Any removal, even of the running thread, leaves such a list; only the running thread's leaves the processor with a thread that is no longer listed |
| `KernelRuns.StepWf` | arduino/libraries/rtthreads/rtthreads.cpp:347-382 | Every call and every tick keeps the global invariant: well-formed list; the thread in control is main or Active, at a priority not below main's; main keeps its priority; last-cost equals the clock; blocked_semaphore is set exactly in state SEM_BLOCKED |
| `KernelRuns.RunWf` | arduino/libraries/rtthreads/rtthreads.cpp:672-742 | The invariant holds in every reachable state, for any sequence of calls and ticks |
| `KernelRuns.YieldFacts` | arduino/libraries/rtthreads/rtthreads.cpp:672-742 | Whatever thread_yield dispatches is main, or an Active thread other than the one that yielded, of priority at least 2; priorities 0 and 1 never run |
| `SchedulerProofs.ScanCorrect` | arduino/libraries/rtthreads/rtthreads.cpp:676-739 | From any well-formed list the scan visits every thread exactly once, the current one last, and the thread dispatched is the last visited one of the highest priority among the Active threads other than the current one at priority 2 or more, main if there is none |
| `SchedulerProofs.ChoiceUnique` | arduino/libraries/rtthreads/rtthreads.cpp:676-722 | That specification, written without the loop, holds of exactly one thread, and it is the one the comparison `>=` ends with |
| `SchedulerProofs.RoundRobin` | arduino/libraries/rtthreads/rtthreads.cpp:676-739 | While k >= 2 threads share the top priority above main's and are ready whenever a step yields, any k yields in a row (ticks, voluntary yields, and those of signals, hand-offs and asynchronous signals, with any other calls in between) dispatch each of them exactly once, in reverse list order, and come back to the first |
| `SchedulerProofs.LoneThreadAlternates` | arduino/libraries/rtthreads/rtthreads.cpp:718-722 | A single top thread is left at the yield at which it is current and dispatched at the next one, over any window of calls: no plain priority preemption |
| `YieldProofs.ProcessorAfter` | arduino/libraries/rtthreads/rtthreads.cpp:672-742 | After any call the processor is where it was, unless the call gives it up (tick, yield, sleep, a signal to a blocked thread, P without units, V with a waiter, or a statement of the loop that sleeps or blocks); then the next state's current thread is the one the scheduler's rule asks for in the records of that next state, threads just woken included |
| `YieldProofs.TopRuns` | arduino/libraries/rtthreads/rtthreads.cpp:718-739 | A ready thread whose priority is at least main's and above that of every other ready thread has the processor as soon as another thread gives it up |
| `YieldProofs.HandOver` | arduino/libraries/rtthreads/rtthreads.cpp:1147-1170 | V with waiters: the value stays, the first in line leaves the semaphore and is Active, the V reschedules at once, and if no other ready thread reaches the waiter's priority it is current in the very next state |
| `YieldProofs.SomebodyIsFirst` | arduino/libraries/rtthreads/rtthreads.cpp:1147-1165 | Whenever somebody waits, some waiting thread is first in line: highest priority, and first in the list among those |
| `YieldProofs.WakeUp` | arduino/libraries/rtthreads/rtthreads.cpp:826-834 | A signal to a BLOCKED thread, counted or not, makes it Active and reschedules at once, with the same consequence |
| `SleepProofs.SleepRefinesClock` | arduino/libraries/rtthreads/rtthreads.cpp:690-702 | Over every run of either interrupt mode (with the deferred write, one with fewer than 2^32 threads ever created), for every sleep of fewer than 2^32 ticks: asleep in every state up to its true end, and Active in the scan one tick later if and only if the deadline is not 2^32-1 modulo 2^32, in which case it sleeps for ever; except exactly a sleep across the next wrap begun while the carry flag is still up, which is over at once |
| `SleepProofs.SleepOnTime` | arduino/libraries/rtthreads/rtthreads.cpp:854-872 | What a caller can tell beforehand: a sleep of at most 2^32 ticks less the number of threads ever created (less 1 for the one-step interrupt) is never cut short |
| `Witnesses.ResidueReached` | arduino/libraries/rtthreads/rtthreads.cpp:698-698 | A run, in either mode, in which a thread at time 1 begins a sleep whose deadline is the last value of the counter |
| `Witnesses.CutShortReached` | arduino/libraries/rtthreads/rtthreads.cpp:691-701 | A run with the deferred write in which a sleep of 2^32-1 ticks, begun one tick after a wrap, is over at once |
| `SleepProofs.OnlyScanWakes` | arduino/libraries/rtthreads/rtthreads.cpp:690-702 | No call of any thread touches a sleeping thread's sleep; only the scan's clock test does |
| `SleepProofs.FallAsleep` | arduino/libraries/rtthreads/rtthreads.cpp:854-872 | What tick_sleep's own scan leaves: a record of the true deadline, or an immediate wake-up exactly when the deadline lies past the wrap while the carry flag is still up |
| `SleepProofs.TimelyRun` | arduino/libraries/rtthreads/rtthreads.cpp:881-900 | With the interrupt as one step the carry flag is up exactly while the counter shows 0 after a wrap |
| `CarryProofs.LagBound` | arduino/libraries/rtthreads/rtthreads.cpp:896-898 | In every run with the deferred write, tick_counter_previous shows a true time at most as many ticks ago as threads were ever created; with the one-step interrupt it is never late |
| `CarryProofs.CarryReportsWrap` | arduino/libraries/rtthreads/rtthreads.cpp:888-895 | The carry flag is up in the scan of every wrap, and otherwise only while the counter is below the number of threads ever created (below 1 with the one-step interrupt): with the deferred write too no wrap is missed by any sleep |
| `SeparationProofs.RemainingTime` | arduino/libraries/rtthreads/rtthreads.cpp:201-213 | `thread_counter_us - ticks_aux` is the true remaining time if and only if the cycle fits its period; an overrun of x ticks sleeps 2^32 - x |
| `SeparationProofs.DeadlineTest` | arduino/libraries/rtthreads/rtthreads.cpp:181-192 | Over every run and for every pattern: the deadline test compares the true time from the gate to the executor's return modulo 2^32, so it is never a false alarm, and is exact below a lap of the counter |
| `SeparationProofs.MinimumSeparation` | arduino/libraries/rtthreads/rtthreads.cpp:166-217 | Over every run of either interrupt mode (with the deferred write, one with at most 2^32 - 2^25 threads ever created), activations of a periodic or sporadic thread start at least min_period_ticks + 1 true ticks apart, whatever signals, semaphores, yields and overruns do |
| `SeparationProofs.PeriodKept` | arduino/libraries/rtthreads/rtthreads.cpp:201-213 | In the same runs, after a cycle that fits its period the thread sleeps until start + period (plus the ticks between reading the clock and sleeping) and is ready one tick later: the shipped loop has period P + 1 |
| `SeparationProofs.OverrunSleeps` | arduino/libraries/rtthreads/rtthreads.cpp:201-213 | After a cycle that overruns its period by x ticks the thread sleeps for 2^32 - x ticks, unless that sleep is cut short |
| `Witnesses.OverrunReached` | arduino/libraries/rtthreads/rtthreads.cpp:201-213 | A run, in either mode, in which a cycle of 2 ticks overruns a period of 1 |
| `SeparationProofs.OneCallPerCycle` | arduino/libraries/rtthreads/rtthreads.cpp:166-217 | Over every run of any thread, cycles begun, executor calls and cycles completed stay in step: one executor call for each passage of the gate and each decrement |
| `SeparationProofs.AperiodicGoesOn` | arduino/libraries/rtthreads/rtthreads.cpp:212-216 | At the end of its cycle an aperiodic thread stays current and Active and goes on to the decrement; no other record, counter or semaphore changes |
| `SeparationProofs.AperiodicNeverRests` | arduino/libraries/rtthreads/rtthreads.cpp:212-216 | Over every run an aperiodic thread that has passed its gate is Active except where application code runs; in particular it is always Active at the decrement |
| `SeparationProofs.AperiodicSleepsByCall` | arduino/libraries/rtthreads/rtthreads.cpp:161-217 | Only its initial offset and a sleep it calls itself put an aperiodic thread to sleep |
| `CreationProofs.CreatesAsAsked` | arduino/libraries/rtthreads/rtthreads.cpp:385-474 | A creation adds one new identity ahead of the list (and main with the first), its record holding the arguments; no other record changes and the caller goes on |
| `CreationProofs.ParametersKept` | arduino/libraries/rtthreads/rtthreads.cpp:236-299 | Over every run a thread has for its whole life the pattern, and in ticks of 128 us the period (0 if aperiodic), deadline, cost and offset, and the policy and queue limit, of the call that created it |
| `CreationProofs.FirstSleepIsOffset` | arduino/libraries/rtthreads/rtthreads.cpp:161-163 | In the runs of MinimumSeparation the first sleep of a thread lasts the offset of its creation call divided by 128, and comes before its first cycle |
| `AccountingProofs.TickConservation` | arduino/libraries/rtthreads/rtthreads.cpp:725-728 | Over every run, wraps and cost readings included: the ticks charged to all threads sum to the elapsed true ticks, each tick goes to the thread it interrupted, and last-cost equals the clock |
| `AccountingProofs.BillOfStep` | arduino/libraries/rtthreads/rtthreads.cpp:137-146 | No call but a tick ever charges anything, and a tick charges one |
| `AccountingProofs.BudgetEnforced` | arduino/libraries/rtthreads/rtthreads.cpp:725-735 | Over every run, by the arguments of the creation call: the priority is the one asked for or 3, and 3 for good after an overrun; the cost is the ticks charged since its last reset, and at most max_cost_us / 128 while not demoted; at most one tick more is used in a cycle at the priority asked for |
| `AccountingProofs.CostTest` | arduino/libraries/rtthreads/rtthreads.cpp:194-198 | Over every run the cost test compares the ticks charged in the cycle with max_cost_us / 128: never a false alarm, and exact below a lap of the counter |
| `AccountingProofs.ChargeKeeps` | arduino/libraries/rtthreads/rtthreads.cpp:725-735 | One more tick charged by thread_yield keeps the account: demotion at the first tick past the bound, never back |
| `SignalProofs.SignalByTable` | arduino/libraries/rtthreads/rtthreads.cpp:760-823 | In every state, for each policy nibble, early and with a full queue: whether queue_pending goes up, whether queue_last_input becomes the clock, the literal code returned; a signal in time that finds room is always counted with code 0; a BLOCKED target becomes Active |
| `SignalProofs.CountedByPolicy` | arduino/libraries/rtthreads/rtthreads.cpp:771-817 | Over every run a step raises the accepted count by one exactly when it is a signal that finds room in time, or comes early under SAVE, or finds the queue full under OVER_SAVE |
| `SignalProofs.NoSignalLost` | arduino/libraries/rtthreads/rtthreads.cpp:780-806 | With SAVE and OVER_SAVE (OVER_SAVE alone for aperiodic threads) the signals sent, as counted from the calls, are the completed cycles plus queue_pending, in every run |
| `SignalProofs.SignalConservation` | arduino/libraries/rtthreads/rtthreads.cpp:771-817 | Over every run of a sporadic or aperiodic thread: accepted signals = completed cycles + queue_pending while fewer than 2^31 are outstanding (modulo 2^32 beyond), never negative, and at least 1 at every executor call |
| `SignalProofs.NoLostWakeup` | arduino/libraries/rtthreads/rtthreads.cpp:168-176 | A thread BLOCKED at its gate has nothing outstanding, in every reachable state, although rejected signals unblock it too |
| `SignalProofs.QueueBound` | arduino/libraries/rtthreads/rtthreads.cpp:771-777 | Without OVER_SAVE at most queue_length_max + 1 signals are outstanding |
| `SignalProofs.DecisionIsRight` | arduino/libraries/rtthreads/rtthreads.cpp:704-716 | In every run, both interrupt modes and all policies, however often the field was aged: if the counter has not wrapped since the last recorded arrival, and the periods counted from it have room before the wrap (it is enough that two periods from now end before it), the MIT test decides like a reference that keeps the true last recorded arrival |
| `Witnesses.DueExact` | arduino/libraries/rtthreads/rtthreads.cpp:704-716 | For every period, time of the last recorded arrival and later time in the same lap at which a signal is due: the test decides right in all runs if and only if the periods have that room; a caller can compute it before the call |
| `SignalProofs.ArrivalSpacing` | arduino/libraries/rtthreads/rtthreads.cpp:760-797 | In the runs of MinimumSeparation, without a SAVE nibble and with queue_length_max < 2^31 - 1, any two accepted signals of a sporadic thread are more than min_period_ticks true ticks apart, whether or not the ageing sum overflows |
| `SignalProofs.AgeingExact` | arduino/libraries/rtthreads/rtthreads.cpp:704-709 | A scan that ages the field does so after two true periods, unless the sum overflowed and the counter has not wrapped since the time the field stands for, and exactly then |
| `SignalProofs.WithoutReplace` | arduino/libraries/rtthreads/rtthreads.cpp:771-797 | Without REPLACE and OVER_SAVE the MIT test never passes a signal that is not due, in any run and however close to a wrap: the only error is a refusal |
| `Witnesses.DueSignalRefused` | arduino/libraries/rtthreads/rtthreads.cpp:704-709 | Why the room is needed: wherever it lacks, more than a period after an accepted signal and before the wrap, a run in which a due signal fails the test, and is refused unless the policy is SAVE |
| `Witnesses.EarlySignalAccepted` | arduino/libraries/rtthreads/rtthreads.cpp:788-793 | With the REPLACE policy, for every period and every first signal less than two periods before the wrap, such a run goes on to accept a signal in the very tick of the last recorded arrival |
| `SemaphoreProofs.SemaphoreConservation` | arduino/libraries/rtthreads/rtthreads.cpp:1117-1179 | In every reachable state, for initial n >= 0: value = max(0, n+V-P) and the number of waiting threads = max(0, P-n-V) while the surplus fits 16 bits; value > 0 implies nobody waits |
| `SemaphoreProofs.HandOffChoice` | arduino/libraries/rtthreads/rtthreads.cpp:1147-1165 | V finds nobody if and only if nobody waits, else the first waiting thread in list order among those of highest priority |
| `SemaphoreProofs.WaitingIsBlocked` | arduino/libraries/rtthreads/rtthreads.cpp:1125-1130 | blocked_semaphore is non-NULL exactly when the status is SEM_BLOCKED, in every reachable state |
| `SemaphoreProofs.AtMostInitialInside` | arduino/libraries/rtthreads/rtthreads.cpp:1117-1179 | If every thread brackets its section by P and V, at most n threads are inside, under every interleaving |
| `SemaphoreProofs.MutualExclusion` | arduino/periodic_2_1SEMAPHORE_BARRIER/periodic_2_1SEMAPHORE_BARRIER.ino:35-53 | With initial value 1 two threads are never inside at once |
| `AtsProofs.Gating` | arduino/libraries/rtthreads/rtthreads.cpp:649-668 | If ats_pending leaves its old value plus the signal just sent, the step ended in thread_yield and resumed that thread, with ats_active = 1, and 0 is left |
| `AtsProofs.AtsConservation` | arduino/libraries/rtthreads/rtthreads.cpp:980-989 | Over every run: signals sent = consumed + ats_pending if and only if fewer than 2^32 are outstanding, and modulo 2^32 otherwise |
| `AtsProofs.FlagIsLastCall` | arduino/libraries/rtthreads/rtthreads.cpp:991-1007 | Over every run ats_active is 1 exactly when the last enabling or disabling call the thread itself made was an enabling one; main included |
| `AtsProofs.EnabledIsServed` | arduino/libraries/rtthreads/rtthreads.cpp:649-668 | Over every run: if the last such call was an enabling one, nothing is pending in any state in which a yield has given the thread the processor; any other step leaves ats_pending, plus the signal it sends |
| `ThreadControl.ThreadCtl.Awaken` | arduino/libraries/rtthreads/rtthreads.cpp:690-716 | One visit of the scan, in place, changes the record as the model's visit does and leaves the links alone |
| `ThreadControl.ThreadCtl.DrainAts` | arduino/libraries/rtthreads/rtthreads.cpp:653-665 | The drain loop ends with nothing pending, and calls the handler once for each signal that was pending |
| `ThreadControl.ThreadCtl.Receive` | arduino/libraries/rtthreads/rtthreads.cpp:763-823 | The two nested policy switches, in place: the table of the policies on the fields before and after and on the code returned, and the model's signal |
| `ThreadControl.ThreadCtl.Advance` | arduino/libraries/rtthreads/rtthreads.cpp:155-218 | One statement of periodic_pattern, in place; it asks for a yield exactly at the offset, at a closed gate, and at the end of a cycle unless the thread is aperiodic |
| `ThreadControl.ThreadCtl.Create` | arduino/libraries/rtthreads/rtthreads.cpp:223-299 | Every field of the new record from the arguments, times in ticks of 128 us, no period for aperiodic threads |
| `Kernel.Kernel.Scan` | arduino/libraries/rtthreads/rtthreads.cpp:676-722 | The do/while over the linked nodes terminates by the distance back to the current node, updates every record as the model's scan, and ends with the model's choice as candidate |
| `Kernel.Kernel.ThreadYield` | arduino/libraries/rtthreads/rtthreads.cpp:672-742 | thread_yield over the linked list and the global variables takes the abstract state to its yield |
| `Kernel.Kernel.TickSleep` | arduino/libraries/rtthreads/rtthreads.cpp:854-872 | tick_sleep takes the sleep step of the model: the whole new state and the history |
| `Kernel.Kernel.ThreadUsleep` | arduino/libraries/rtthreads/rtthreads.cpp:844-852 | thread_usleep sleeps the microseconds divided by the tick length |
| `Kernel.Kernel.TimerInterrupt` | arduino/libraries/rtthreads/rtthreads.cpp:881-900 | The handler, with its yield counter, is the tick step of the model in both modes: tick_counter_previous is written at once, or when the preempted thread returns from thread_yield into the handler |
| `Kernel.Kernel.ReturnFromYield` | arduino/libraries/rtthreads/rtthreads.cpp:896-898 | A thread that was preempted by the interrupt and is resumed writes tick_counter_previous and leaves the handler; any other thread writes nothing |
| `Kernel.Kernel.CallYield` | arduino/libraries/rtthreads/rtthreads.cpp:745-747 | A call of thread_yield is the yield step, and does nothing before the first thread exists |
| `Kernel.Kernel.ThreadSignal` | arduino/libraries/rtthreads/rtthreads.cpp:760-834 | thread_signal is the signal step; the target's fields and the code returned are as the table of the policies says; -1 without effect for NULL |
| `Kernel.Kernel.StepPattern` | arduino/libraries/rtthreads/rtthreads.cpp:155-218 | Each statement of the activation loop is a step of the model |
| `Kernel.Kernel.GetCurrentCostTicks` | arduino/libraries/rtthreads/rtthreads.cpp:137-146 | The reading step; the value returned is the caller's up-to-date cost |
| `Kernel.Kernel.SemaphoreCreate` | arduino/libraries/rtthreads/rtthreads.cpp:1106-1115 | A fresh semaphore with the given value; nothing else changes |
| `Kernel.Kernel.SemaphoreP` | arduino/libraries/rtthreads/rtthreads.cpp:1117-1139 | The P step of the model, also by main while the value is positive; no effect for NULL |
| `Kernel.Kernel.SemaphoreV` | arduino/libraries/rtthreads/rtthreads.cpp:1141-1179 | The V step of the model, search loop included, also before the first thread exists; no effect for NULL |
| `Kernel.Kernel.HandTo` | arduino/libraries/rtthreads/rtthreads.cpp:1167-1170 | The waiter found is Active and off the semaphore, and the V step of the model is taken, yield included |
| `Kernel.Kernel.FindWaiter` | arduino/libraries/rtthreads/rtthreads.cpp:1147-1165 | The search loop ends with the waiting thread the hand-off specification names, or null when nobody waits |
| `Kernel.Kernel.SendAts` | arduino/libraries/rtthreads/rtthreads.cpp:980-989 | thread_ATS_signal counts, then yields, and returns 0 |
| `Kernel.Kernel.EnableAts` | arduino/libraries/rtthreads/rtthreads.cpp:991-999 | The caller's ats_active is 1 afterwards; a yield follows unless it was 1 already |
| `Kernel.Kernel.DisableAts` | arduino/libraries/rtthreads/rtthreads.cpp:1000-1007 | The disabling step; the caller's ats_active is 0 afterwards |
| `Kernel.Kernel.ThreadCreate` | arduino/libraries/rtthreads/rtthreads.cpp:385-474 | A fresh node at the head of the list (behind which the first one brings main) whose fields are the arguments of the call, and the create step |
| `Kernel.Kernel.ThreadRemove` | arduino/libraries/rtthreads/rtthreads.cpp:347-382 | 0 and the remove step when the node is in the list (for the running thread's own node, 0 and a well-formed list without it); -1 and nothing changed for NULL, for main and for a node not in the list |
| `Kernel.Kernel.FindNode` | arduino/libraries/rtthreads/rtthreads.cpp:351-360 | The search loop stops at the node asked for with its predecessor, or at main |
| `KernelGuarantees.SemaphoreKept` | arduino/libraries/rtthreads/rtthreads.cpp:1117-1179 | In any kernel object, the value field of a semaphore and the number of nodes that point to it are max(0, n+V-P) and max(0, P-n-V) of the calls in its history |
| `KernelGuarantees.BlockedHasNothing` | arduino/libraries/rtthreads/rtthreads.cpp:168-176 | In any kernel object, a node in state BLOCKED has queue_pending <= 0 and is not periodic |
| `KernelGuarantees.PriorityAndBudget` | arduino/libraries/rtthreads/rtthreads.cpp:725-735 | In any kernel object, a node's priority is the one asked for at its creation, or 3 once demoted, and while not demoted its cost is at most max_cost_us / 128 |
| `KernelGuarantees.FlagOfNode` | arduino/libraries/rtthreads/rtthreads.cpp:991-1007 | In any kernel object a node has ats_active set exactly when the last such call of its thread was an enabling one |
| `KernelGuarantees.NothingLost` | arduino/libraries/rtthreads/rtthreads.cpp:780-806 | In any kernel object, for a node with policy 0x11 the signals sent to it are its completed cycles plus queue_pending, below 2^31 outstanding |
| `KernelGuarantees.CountersAgree` | arduino/libraries/rtthreads/rtthreads.cpp:725-728 | In any kernel object the last-cost mark equals the tick counter, and both show the ticks charged to all threads |
| `KernelGuarantees.CurrentIsReady` | arduino/libraries/rtthreads/rtthreads.cpp:672-742 | In any kernel object with a thread, current_thread is Active at priority 2 or more, and the main thread Active at priority 2 |
| `RingQueue.ShippedIsFifo` | arduino/libraries/rtthreads/rtthreads.cpp:1029-1082 | For every capacity and every sequence of calls: the shipped queue answers like a bounded FIFO, whatever lies behind the array, if and only if at most `howmany` reads succeed; those are exactly the runs whose reads stay inside the array |
| `RingQueue.ModuloIsFifo` | arduino/libraries/rtthreads/rtthreads.cpp:1045-1049 | With the commented-out modulo in the getter it is the bounded FIFO in every run |
| `RingQueue.FifoConservation` | arduino/libraries/rtthreads/rtthreads.cpp:1013-1082 | In the FIFO the elements handed out followed by those stored are the elements accepted, in order, within the capacity |
| `RingQueue.SecondElementLost` | arduino/libraries/rtthreads/rtthreads.cpp:1045-1048 | The shortest failure: a queue for one element hands out memory behind the array at the second element |
| `RingQueue.Queue.constructor` | arduino/libraries/rtthreads/rtthreads.cpp:1013-1021 | An empty queue of the given capacity |
| `RingQueue.Queue.NbGetElement` | arduino/libraries/rtthreads/rtthreads.cpp:1029-1056 | The shipped getter on the array is the Take call of the model |
| `RingQueue.Queue.NbGetElementModulo` | arduino/libraries/rtthreads/rtthreads.cpp:1049-1049 | The getter with the modulo is the Take call of the modulo model |
| `RingQueue.Queue.NbSetElement` | arduino/libraries/rtthreads/rtthreads.cpp:1058-1082 | The setter is the Put call, fails if and only if the queue is full, and never writes outside the array |
| `ContextSwitch.SwitchesAreTransparent` | arduino/libraries/rtthreads/rtthreads.cpp:535-643 | In every run of switches and of code that keeps to its own stack, with disjoint stacks large enough for a frame: a thread that calls do_switch finds r0-r31, SP, return address and stack contents as they were when it runs again, whoever ran in between, itself included |
| `ContextSwitch.StepKeepsParked` | arduino/libraries/rtthreads/rtthreads.cpp:482-531 | Nothing another thread does, not even its own switch, disturbs the frame or the saved sp of a switched-out thread |
| `ContextSwitch.SaveMakesFrame` | arduino/libraries/rtthreads/rtthreads.cpp:536-574 | The pushes lay out the frame below SP and touch nothing else |
| `ContextSwitch.RestoreReadsFrame` | arduino/libraries/rtthreads/rtthreads.cpp:599-642 | The pops undo the pushes, registers overwritten by the switch code included |
| `ContextSwitch.SplitSurvives` | arduino/libraries/rtthreads/rtthreads.cpp:498-506 | SP survives its split into two bytes |
| `ContextSwitch.Machine.CallDoSwitch` | arduino/libraries/rtthreads/rtthreads.cpp:535-643 | The instruction sequence around change_high has the effect the run theorem is about |
| `ContextSwitch.Machine.CallChangeHigh` | arduino/libraries/rtthreads/rtthreads.cpp:482-531 | change_high stores the old thread's sp from the two bytes, and puts the new one's into them unless it is the same thread |
| `SerialFraming.RoundTrip` | arduino/examples/rtthreads/NetExample/src/net/Network.java:244-268 | For every list of messages and every division of the written stream into reads, the reader calls parseInput with exactly those messages in order if and only if each has length 1..1024 and values 0..255 without the divider |
| `SerialFraming.AnyChunking` | arduino/examples/rtthreads/NetExample/src/net/Network.java:249-268 | The division of the stream into reads makes no difference to the calls or to the state left behind |
| `SerialFraming.ReceiveAppend` | arduino/examples/rtthreads/NetExample/src/net/Network.java:249-268 | Decoding two chunks one after the other is decoding their concatenation |
| `SerialFraming.ToByte` | arduino/examples/rtthreads/NetExample/src/net/Network.java:398-408 | The byte written reads back as 255 for a number above 255, as 0 for one below 0, and as the number itself otherwise |
| `SerialFraming.ArrivesCutOff` | arduino/examples/rtthreads/NetExample/src/net/Network.java:370-408 | A message with numbers outside 0..255 arrives with those cut off at the ends of that range, unless a cut-off number is the divider |
| `SerialFraming.DeliversSendable` | arduino/examples/rtthreads/NetExample/src/net/Network.java:251-266 | Whatever bytes arrive, only messages of length 1..1024 with values 0..255 without the divider are delivered |
| `SerialFraming.Recovers` | arduino/examples/rtthreads/NetExample/src/net/Network.java:256-261 | A reader that is alive is in step again after the next divider, whatever it had collected |
| `SerialFraming.TooLongKills` | arduino/examples/rtthreads/NetExample/src/net/Network.java:262-265 | A message of more than 1024 numbers ends the reader, and nothing is delivered afterwards |
| `SerialFraming.Network.constructor` | arduino/examples/rtthreads/NetExample/src/net/Network.java:95-104 | The divider is clamped to 0..255 and the buffer is empty |
| `SerialFraming.Network.TakeRead` | arduino/examples/rtthreads/NetExample/src/net/Network.java:251-267 | The byte loop on the buffer array makes the calls of the decoder and leaves its state |
| `SerialFraming.Network.WriteSerial` | arduino/examples/rtthreads/NetExample/src/net/Network.java:370-408 | Refuses, with its log entry, exactly the messages that contain the divider; otherwise writes the clamped bytes and the divider when connected, and logs that no port is connected when not, but answers true then too |

## Left out

- Preemption inside what counts as one step: `ATOMIC_BLOCK` sections and the statements of
  `periodic_pattern` are atomic here, although 32-bit reads outside an atomic block are not
  on the AVR, and `thread_create` links a node before its caller has filled it in.
- `periodic_pattern` is not a loop in one method: its control point is a field of the thread
  record, because the kernel interrupts it between any two statements. Executor and handler
  bodies are arbitrary calls of the kernel's operations; the calls of the error handler
  themselves are not steps, only their two tests are stated (`DeadlineTest`, `CostTest`).
- ThreadControl.ThreadCtl.DrainAts: handlers called while pending asynchronous signals are drained do not
  call the kernel; the loop is one step of the model, and with handlers that signal their own
  thread it need not end.
- The first dispatch of a fresh thread (the filler bytes of its frame are commented out):
  its outcome is left open in `ContextSwitch`.
- Processor flags: `do_switch` does not bring the saved status register back, and nothing is
  claimed about it. Of the instruction set only push, pop, call, the return and the moves of
  the two bytes of SP are modelled; the register save is written as a loop over r0..r31.
- Allocation failure and reuse of memory: records are fresh objects, and identities are not
  used again. When the running thread removes itself it goes on in freed memory; the list is
  then proved well formed, and the run ends there.
- Fields that `malloc` leaves unset are arbitrary for threads and 0 for main.
- Calls the application must not make: blocking or sleeping calls of main.
- `thread_semaphore_free`, the ATS maximum, `ats_wrapper`, `push_ATS_signal` and `thread_ms`:
  unused, stubbed or easy.
- Timer set-up, pins, interrupt attachment, parameters and time conversions to microseconds.
- SleepProofs.SleepRefinesClock: with the deferred write it says nothing of runs that create 2^32
  threads or more; MinimumSeparation, PeriodKept and FirstSleepIsOffset nothing above 2^32 - 2^25.
- SignalProofs.ArrivalSpacing: not for queue_length_max = 2^31 - 1, where queue_pending could wrap with 2^31
  signals outstanding; the same goes for WithoutReplace.
- SignalProofs.DecisionIsRight: says nothing once the counter has wrapped since the last recorded arrival;
  then only ArrivalSpacing and, without REPLACE, WithoutReplace hold. `DueExact` has the other half for
  due signals; for signals that are not due only WithoutReplace and `EarlySignalAccepted` do.
- In `Network.java`: ports, connecting and disconnecting, the string form of
  `writeSerial`, and I/O exceptions; a write either happens whole or not at all.
