/** The promise of thread_signal, line by line, on the fields before and after. The low
    nibble of mit_policy says what becomes of an early signal, the high nibble what becomes
    of one that finds the queue full: 1 SAVE, 2 EXCEPT, 3 IGNORE, 4 REPLACE. */
module Policies {
  import opened Words
  import opened KernelModel

  predicate HasRoom(x: Thread) {
    x.queueMax >= x.pending
  }

  /** Only sporadic threads keep a distance between signals. */
  predicate InTime(x: Thread, now: u32) {
    x.pattern != Sporadic || Sub32(now, x.lastInput) > x.minPeriod
  }

  predicate Early(x: Thread, now: u32) {
    HasRoom(x) && !InTime(x, now)
  }

  predicate Full(x: Thread) {
    !HasRoom(x)
  }

  /** queue_pending goes up by one and the arrival is recorded. */
  predicate Saved(x: Thread, y: Thread, now: u32) {
    y.pending == AsInt32(x.pending + 1) && y.lastInput == now
  }

  /** The arrival is recorded only. */
  predicate Replaced(x: Thread, y: Thread, now: u32) {
    y.pending == x.pending && y.lastInput == now
  }

  predicate Dropped(x: Thread, y: Thread) {
    y.pending == x.pending && y.lastInput == x.lastInput
  }

  predicate EarlyLine(x: Thread, y: Thread, now: u32, result: int) {
    match x.mitPolicy % 16
    case 1 => Saved(x, y, now) && result == 0
    case 2 => Dropped(x, y) && result == 0x02
    case 3 => Dropped(x, y) && result == 0
    case 4 => Replaced(x, y, now) && result == 0
    case _ => Dropped(x, y) && result == -3
  }

  predicate FullLine(x: Thread, y: Thread, now: u32, result: int) {
    match x.mitPolicy / 16
    case 1 => Saved(x, y, now) && result == 0
    case 2 => Dropped(x, y) && result == 0x20
    case 3 => Dropped(x, y) && result == 0
    case 4 => Replaced(x, y, now) && result == 0
    case _ => Dropped(x, y) && result == -2
  }

  /** x is the target before the signal at tick now, y after it; in any case it is unblocked. */
  predicate Table(x: Thread, y: Thread, now: u32, result: int) {
    && (HasRoom(x) && InTime(x, now) ==> Saved(x, y, now) && result == 0)
    && (Early(x, now) ==> EarlyLine(x, y, now, result))
    && (Full(x) ==> FullLine(x, y, now, result))
    && y.status == if x.status == Blocked then Active else x.status
  }

  /** The model's signal keeps the promise. */
  lemma SignalledByTable(x: Thread, now: u32)
    ensures Table(x, Signalled(x, now), now, Decide(x, now).result)
  {
    Count32(x.pending);
  }

  /** When a signal is counted. */
  predicate Counts(x: Thread, now: u32) {
    || (HasRoom(x) && InTime(x, now))
    || (Early(x, now) && x.mitPolicy % 16 == 1)
    || (Full(x) && x.mitPolicy / 16 == 1)
  }

  lemma AcceptsIfCounts(x: Thread, now: u32)
    ensures Decide(x, now).accept <==> Counts(x, now)
  {
  }
}
