/** What the ring scan chooses, and the turns it gives to threads of equal priority. */
module SchedulerProofs {
  import opened Words
  import opened KernelModel
  import opened KernelRuns

  // ---------------------------------------------------------------- the choice

  /** The k-th visited thread may be chosen. */
  ghost predicate Eligible(th: map<Tid, Thread>, current: Tid, order: seq<Tid>, k: int)
    requires Covers(th, order)
  {
    && 0 <= k < |order| && order[k] != current
    && th[order[k]].status == Active && th[order[k]].priority >= NORM_PRIO
  }

  /** The k-th visited thread has the highest eligible priority, and is the last visited
      one that has it. */
  ghost predicate LastHighest(th: map<Tid, Thread>, current: Tid, order: seq<Tid>, k: int)
    requires Covers(th, order)
  {
    && Eligible(th, current, order, k)
    && forall j :: Eligible(th, current, order, j) ==>
         && th[order[j]].priority <= th[order[k]].priority
         && (k < j ==> th[order[j]].priority < th[order[k]].priority)
  }

  /** The specification of the scan, without its loop. */
  ghost predicate IsChoice(th: map<Tid, Thread>, current: Tid, order: seq<Tid>, c: Tid)
    requires Covers(th, order)
  {
    if forall k :: !Eligible(th, current, order, k) then c == MAIN
    else exists k :: LastHighest(th, current, order, k) && order[k] == c
  }

  lemma {:induction false} ChooseIsChoice(th: map<Tid, Thread>, current: Tid, order: seq<Tid>)
    requires MAIN in th && Covers(th, order) && th[MAIN].priority == NORM_PRIO
    ensures IsChoice(th, current, order, Choose(th, current, order))
    ensures (forall k :: !Eligible(th, current, order, k)) ==> Choose(th, current, order) == MAIN
  {
    if order != [] {
      var n := |order| - 1;
      var head := order[..n];
      var c := Choose(th, current, head);
      ChooseIsChoice(th, current, head);
      ChooseOk(th, current, head);
      assert forall k :: 0 <= k < n ==> (Eligible(th, current, order, k) <==> Eligible(th, current, head, k));
      if Choose(th, current, order) == order[n] && Eligible(th, current, order, n) {
        assert LastHighest(th, current, order, n) by {
          forall j | Eligible(th, current, order, j) && j < n
            ensures th[order[j]].priority <= th[order[n]].priority
          {
            assert Eligible(th, current, head, j);
          }
        }
      } else if !(forall k :: !Eligible(th, current, head, k)) {
        var k :| LastHighest(th, current, head, k) && head[k] == c;
        assert Eligible(th, current, order, k);
        assert LastHighest(th, current, order, k);
      }
    }
  }

  /** The scan chooses c if and only if c meets the specification. */
  lemma ChoiceUnique(th: map<Tid, Thread>, current: Tid, order: seq<Tid>, c: Tid)
    requires MAIN in th && Covers(th, order) && th[MAIN].priority == NORM_PRIO
    ensures c == Choose(th, current, order) <==> IsChoice(th, current, order, c)
  {
    ChooseIsChoice(th, current, order);
    if IsChoice(th, current, order, c) && !(forall k :: !Eligible(th, current, order, k)) {
      var j :| LastHighest(th, current, order, j) && order[j] == c;
      var k :| LastHighest(th, current, order, k) && order[k] == Choose(th, current, order);
      assert j == k;
    }
  }

  lemma OrderCovers(s: State)
    requires Linked(s)
    ensures s.current in s.ring && Covers(Scanned(s), VisitOrder(s.ring, s.current))
  {
    ExactlyIn(s.ring, s.th.Keys);
    VisitsAll(s.ring, s.current);
  }

  /** In every well-formed state the scan visits each thread of the list exactly once, the
      current one last, and dispatches what the specification asks for. */
  lemma ScanCorrect(s: State)
    requires Linked(s) && MainOk(s.th[MAIN])
    ensures s.current in s.ring && Covers(Scanned(s), VisitOrder(s.ring, s.current))
    ensures var order := VisitOrder(s.ring, s.current);
      && multiset(order) == multiset(s.ring) && order[|order| - 1] == s.current
      && IsChoice(Scanned(s), s.current, order, Next(s))
  {
    ExactlyIn(s.ring, s.th.Keys);
    VisitsAll(s.ring, s.current);
    ChooseIsChoice(Scanned(s), s.current, VisitOrder(s.ring, s.current));
  }

  // ---------------------------------------------------------------- round robin

  ghost predicate Increasing(top: seq<nat>) {
    forall i, j :: 0 <= i < j < |top| ==> top[i] < top[j]
  }

  ghost predicate Ready(x: Thread, p: u8) {
    x.status == Active && x.priority == p
  }

  ghost predicate Below(x: Thread, p: u8) {
    x.status != Active || x.priority < p
  }

  /** The threads at the list positions `top` are ready at priority p, above main's, and no
      other thread is ready at p or higher. */
  ghost predicate Tops(s: State, top: seq<nat>, p: u8) {
    && Linked(s) && MainOk(s.th[MAIN]) && p > NORM_PRIO
    && top != [] && Increasing(top) && top[|top| - 1] < |s.ring|
    && Covers(Scanned(s), s.ring)
    && (forall i :: 0 <= i < |top| ==> top[i] < |s.ring| && Ready(Scanned(s)[s.ring[top[i]]], p))
    && (forall q :: 0 <= q < |s.ring| && q !in top ==> Below(Scanned(s)[s.ring[q]], p))
  }

  /** Where the scan that starts after list position i meets list position q. */
  function Slot(n: nat, i: nat, q: nat): int {
    if q > i then q - i - 1 else n - i - 1 + q
  }

  function Position(n: nat, i: nat, k: nat): int {
    if k < n - i - 1 then i + 1 + k else k - (n - i - 1)
  }

  lemma OrderAt(ring: seq<Tid>, i: nat, q: nat)
    requires NoDuplicates(ring) && i < |ring| && q < |ring|
    ensures 0 <= Slot(|ring|, i, q) < |ring|
    ensures VisitOrder(ring, ring[i])[Slot(|ring|, i, q)] == ring[q]
  {
    var k := IndexOf(ring, ring[i]);
    assert Differ(ring, i, k) && Differ(ring, k, i);
  }

  lemma OrderFrom(ring: seq<Tid>, i: nat, k: nat)
    requires NoDuplicates(ring) && i < |ring| && k < |ring|
    ensures 0 <= Position(|ring|, i, k) < |ring| && Slot(|ring|, i, Position(|ring|, i, k)) == k
    ensures VisitOrder(ring, ring[i])[k] == ring[Position(|ring|, i, k)]
  {
    OrderAt(ring, i, Position(|ring|, i, k));
  }

  function Before(k: nat, j: nat): nat
    requires j < k
  {
    if j == 0 then k - 1 else j - 1
  }

  lemma SlotOrder(n: nat, top: seq<nat>, j: nat, m: nat)
    requires Increasing(top) && j < |top| && m < |top| && m != j && top[|top| - 1] < n
    ensures Slot(n, top[j], top[m]) <= Slot(n, top[j], top[Before(|top|, j)])
  {
  }

  /** The turn after the thread at top[j] goes to its cyclic predecessor in the list. */
  lemma NextTurn(s: State, top: seq<nat>, p: u8, j: nat)
    requires Tops(s, top, p) && j < |top| && |top| >= 2 && s.current == s.ring[top[j]]
    ensures Next(s) == s.ring[top[Before(|top|, j)]]
  {
    OrderCovers(s);
    var th, order, n, i := Scanned(s), VisitOrder(s.ring, s.current), |s.ring|, top[j];
    var q := top[Before(|top|, j)];
    OrderAt(s.ring, i, q);
    assert Differ(s.ring, i, q) && Differ(s.ring, q, i);
    TurnIsLastHighest(s, top, p, j, Slot(n, i, q));
    ChoiceUnique(th, s.current, order, s.ring[q]);
  }

  lemma TurnIsLastHighest(s: State, top: seq<nat>, p: u8, j: nat, k: nat)
    requires Tops(s, top, p) && j < |top| && |top| >= 2 && s.current == s.ring[top[j]]
    requires k < |s.ring| && k == Slot(|s.ring|, top[j], top[Before(|top|, j)])
    requires Covers(Scanned(s), VisitOrder(s.ring, s.current))
    requires Eligible(Scanned(s), s.current, VisitOrder(s.ring, s.current), k)
    requires VisitOrder(s.ring, s.current)[k] == s.ring[top[Before(|top|, j)]]
    ensures LastHighest(Scanned(s), s.current, VisitOrder(s.ring, s.current), k)
  {
    var th, order, n, i := Scanned(s), VisitOrder(s.ring, s.current), |s.ring|, top[j];
    forall l | Eligible(th, s.current, order, l)
      ensures th[order[l]].priority <= th[order[k]].priority
      ensures k < l ==> th[order[l]].priority < th[order[k]].priority
    {
      OrderFrom(s.ring, i, l);
      var q := Position(n, i, l);
      if q in top {
        var m :| 0 <= m < |top| && top[m] == q;
        SlotOrder(n, top, j, m);
      }
    }
  }

  lemma LoneIsLastHighest(s: State, top: seq<nat>, p: u8, i: nat, k: nat)
    requires Tops(s, top, p) && |top| == 1 && i < |s.ring| && s.current == s.ring[i] && i != top[0]
    requires k < |s.ring| && k == Slot(|s.ring|, i, top[0])
    requires Covers(Scanned(s), VisitOrder(s.ring, s.current))
    requires Eligible(Scanned(s), s.current, VisitOrder(s.ring, s.current), k)
    requires VisitOrder(s.ring, s.current)[k] == s.ring[top[0]]
    ensures LastHighest(Scanned(s), s.current, VisitOrder(s.ring, s.current), k)
  {
    var th, order := Scanned(s), VisitOrder(s.ring, s.current);
    forall l | Eligible(th, s.current, order, l)
      ensures th[order[l]].priority <= th[order[k]].priority
      ensures k < l ==> th[order[l]].priority < th[order[k]].priority
    {
      OrderFrom(s.ring, i, l);
      assert Position(|s.ring|, i, l) in top ==> Position(|s.ring|, i, l) == top[0];
    }
  }

  /** A lone top thread is chosen whenever it is not the current one. */
  lemma LoneTurn(s: State, top: seq<nat>, p: u8)
    requires Tops(s, top, p) && |top| == 1 && s.current != s.ring[top[0]]
    ensures Next(s) == s.ring[top[0]]
  {
    OrderCovers(s);
    var i := IndexOf(s.ring, s.current);
    OrderAt(s.ring, i, top[0]);
    LoneIsLastHighest(s, top, p, i, Slot(|s.ring|, i, top[0]));
    ChoiceUnique(Scanned(s), s.current, VisitOrder(s.ring, s.current), s.ring[top[0]]);
  }

  // ---------------------------------------------------------------- turns over a run

  /** Does step l end in thread_yield, be it the tick's, a voluntary one, or that of a sleep,
      a block, a signal or a hand-off? */
  ghost predicate YieldsAt(r: Run, l: nat)
    requires IsRun(r) && l < |r.events|
  {
    RunWf(r, l);
    assert GoesAt(r, l);
    Resched(r.states[l], r.events[l])
  }

  /** At step l the list keeps its threads, and if it yields, those at the positions `top`
      are then the ready ones of the highest priority p. Any call may stand between yields.
      A top thread that goes to sleep or blocks is not ready in the yield it ends in, so
      such a yield is not admitted (but that of a sleep cut short is). */
  ghost predicate KeepsTops(r: Run, l: int, top: seq<nat>, p: u8)
    requires IsRun(r)
  {
    0 <= l < |r.events| ==>
      && !Structural(r.events[l])
      && (YieldsAt(r, l) ==> WF(r.states[l]) && Enabled(r.states[l], r.events[l])
                             && Tops(Pre(r.states[l], r.events[l]), top, p))
  }

  /** Steps i to i + m of the run, throughout which the tops stay the same. */
  ghost predicate Window(r: Run, i: nat, m: nat, top: seq<nat>, p: u8) {
    && IsRun(r) && i + m < |r.states|
    && forall l {:trigger KeepsTops(r, l, top, p)} :: i <= l < i + m ==> KeepsTops(r, l, top, p)
  }

  /** The threads that the yields of the next m steps dispatch, in order. */
  ghost function Dispatches(r: Run, i: nat, m: nat): (d: seq<Tid>)
    requires IsRun(r) && i + m < |r.states|
    ensures |d| <= m
  {
    if m == 0 then []
    else
      var d := Dispatches(r, i, m - 1);
      if YieldsAt(r, i + m - 1) then d + [r.states[i + m].current] else d
  }

  /** One step of a window. */
  lemma WindowStep(r: Run, l: nat, top: seq<nat>, p: u8)
    requires IsRun(r) && l < |r.events| && KeepsTops(r, l, top, p)
    ensures r.states[l + 1].ring == r.states[l].ring
    ensures !YieldsAt(r, l) ==> r.states[l + 1].current == r.states[l].current
    ensures YieldsAt(r, l) ==>
      WF(r.states[l]) && Enabled(r.states[l], r.events[l]) && Tops(Pre(r.states[l], r.events[l]), top, p)
    ensures YieldsAt(r, l) ==> var a := Pre(r.states[l], r.events[l]);
      a.ring == r.states[l].ring && a.current == r.states[l].current && r.states[l + 1].current == Next(a)
  {
    RunGoes(r, l);
    StepFrame(r.states[l], r.events[l]);
    PreFrame(r.states[l], r.events[l]);
    PreLinked(r.states[l], r.events[l]);
  }

  function Back(k: nat, j: nat, m: nat): (b: nat)
    requires j < k
    ensures b < k
  {
    if m == 0 then j else Before(k, Back(k, j, m - 1))
  }

  lemma {:induction false} BackIs(k: nat, j: nat, m: nat)
    requires j < k && m <= k
    ensures Back(k, j, m) == if m <= j then j - m else j - m + k
  {
    if m > 0 { BackIs(k, j, m - 1); }
  }

  lemma TurnNext(r: Run, l: nat, top: seq<nat>, p: u8, j: nat)
    requires IsRun(r) && l < |r.events| && KeepsTops(r, l, top, p) && |top| >= 2 && j < |top|
    requires top[j] < |r.states[l].ring| && r.states[l].current == r.states[l].ring[top[j]]
    ensures r.states[l + 1].ring == r.states[l].ring
    ensures if YieldsAt(r, l) then
        top[Before(|top|, j)] < |r.states[l].ring| && r.states[l + 1].current == r.states[l].ring[top[Before(|top|, j)]]
      else r.states[l + 1].current == r.states[l].current
  {
    WindowStep(r, l, top, p);
    if YieldsAt(r, l) {
      NextTurn(Pre(r.states[l], r.events[l]), top, p, j);
    }
  }

  /** The thread at top[j] is current at step i. */
  ghost predicate TurnOfTop(r: Run, i: nat, top: seq<nat>, j: nat) {
    && i < |r.states| && j < |top| && Increasing(top) && top[|top| - 1] < |r.states[i].ring|
    && top[j] < |r.states[i].ring| && r.states[i].current == r.states[i].ring[top[j]]
  }

  ghost predicate TurnsBack(d: seq<Tid>, ring: seq<Tid>, top: seq<nat>, j: nat) {
    j < |top| && forall q :: 0 <= q < |d| ==>
      var b := Back(|top|, j, q + 1); top[b] < |ring| && d[q] == ring[top[b]]
  }

  lemma OneMoreTurn(d: seq<Tid>, t: Tid, ring: seq<Tid>, top: seq<nat>, j: nat)
    requires TurnsBack(d, ring, top, j)
    requires var b := Before(|top|, Back(|top|, j, |d|)); top[b] < |ring| && t == ring[top[b]]
    ensures TurnsBack(d + [t], ring, top, j)
  {
    assert Back(|top|, j, |d| + 1) == Before(|top|, Back(|top|, j, |d|));
  }

  /** After any number of yields, with any other calls in between, the thread whose turn it
      is lies that many places back among the tops. */
  lemma {:induction false} Turns(r: Run, i: nat, m: nat, top: seq<nat>, p: u8, j: nat)
    requires Window(r, i, m, top, p) && |top| >= 2 && TurnOfTop(r, i, top, j)
    ensures r.states[i + m].ring == r.states[i].ring
    ensures TurnOfTop(r, i + m, top, Back(|top|, j, |Dispatches(r, i, m)|))
    ensures TurnsBack(Dispatches(r, i, m), r.states[i].ring, top, j)
  {
    if m > 0 {
      Turns(r, i, m - 1, top, p, j);
      TurnsNext(r, i, m - 1, top, p, j);
    }
  }

  lemma TurnsNext(r: Run, i: nat, m: nat, top: seq<nat>, p: u8, j: nat)
    requires Window(r, i, m + 1, top, p) && |top| >= 2 && TurnOfTop(r, i, top, j)
    requires r.states[i + m].ring == r.states[i].ring
    requires TurnOfTop(r, i + m, top, Back(|top|, j, |Dispatches(r, i, m)|))
    requires TurnsBack(Dispatches(r, i, m), r.states[i].ring, top, j)
    ensures r.states[i + m + 1].ring == r.states[i].ring
    ensures TurnOfTop(r, i + m + 1, top, Back(|top|, j, |Dispatches(r, i, m + 1)|))
    ensures TurnsBack(Dispatches(r, i, m + 1), r.states[i].ring, top, j)
  {
    assert KeepsTops(r, i + m, top, p);
    var d := Dispatches(r, i, m);
    TurnNext(r, i + m, top, p, Back(|top|, j, |d|));
    if YieldsAt(r, i + m) {
      OneMoreTurn(d, r.states[i + m + 1].current, r.states[i].ring, top, j);
    }
  }

  /** Which of the top threads has the m-th turn. */
  function TurnOf(k: nat, j: nat, m: nat): int {
    if m <= j then j - m else j - m + k
  }

  /** Every top thread has one turn, in reverse list order from top[j]'s predecessor on. */
  ghost predicate OneTurnEach(d: seq<Tid>, ring: seq<Tid>, top: seq<nat>, j: nat)
    requires |d| == |top| && j < |top| && forall q :: 0 <= q < |top| ==> top[q] < |ring|
  {
    && (forall m :: 0 <= m < |d| ==> d[m] == ring[top[TurnOf(|top|, j, m + 1)]])
    && (forall q :: 0 <= q < |top| ==> ring[top[q]] in d)
    && NoDuplicates(d)
    && d[|d| - 1] == ring[top[j]]
  }

  lemma TurnsMakeALap(d: seq<Tid>, ring: seq<Tid>, top: seq<nat>, j: nat)
    requires NoDuplicates(ring) && Increasing(top) && j < |top| == |d| && top[|top| - 1] < |ring|
    requires forall q :: 0 <= q < |top| ==> top[q] < |ring|
    requires forall m :: 0 <= m < |d| ==> d[m] == ring[top[TurnOf(|top|, j, m + 1)]]
    ensures OneTurnEach(d, ring, top, j)
  {
    forall q | 0 <= q < |top| ensures ring[top[q]] in d {
      assert d[if q < j then j - q - 1 else j - q + |top| - 1] == ring[top[q]];
    }
    forall a, b ensures Differ(d, a, b) {
      if 0 <= a < b < |d| {
        var x, y := top[TurnOf(|top|, j, a + 1)], top[TurnOf(|top|, j, b + 1)];
        assert Differ(ring, x, y) && Differ(ring, y, x);
      }
    }
  }

  /** Round robin: while k >= 2 threads share the top priority, above main's, and are ready
      and within budget whenever a step yields, any k yields in a row dispatch each of them
      exactly once, in reverse list order, and return to the first, whatever other calls
      are made between the yields. */
  lemma RoundRobin(r: Run, i: nat, m: nat, top: seq<nat>, p: u8, j: nat)
    requires Window(r, i, m, top, p) && |top| >= 2 && TurnOfTop(r, i, top, j)
    requires |Dispatches(r, i, m)| == |top|
    ensures forall q :: 0 <= q < |top| ==> top[q] < |r.states[i].ring|
    ensures OneTurnEach(Dispatches(r, i, m), r.states[i].ring, top, j)
    ensures r.states[i + m].current == r.states[i].current
  {
    Turns(r, i, m, top, p, j);
    var d, ring := Dispatches(r, i, m), r.states[i].ring;
    forall q | 0 <= q < |top| ensures top[q] < |ring| {
      assert q < |top| - 1 ==> top[q] < top[|top| - 1];
    }
    forall q | 0 <= q < |d| ensures d[q] == ring[top[TurnOf(|top|, j, q + 1)]] {
      BackIs(|top|, j, q + 1);
    }
    BackIs(|top|, j, |top|);
    RunWf(r, i);
    TurnsMakeALap(d, ring, top, j);
  }

  /** A lone top thread is dispatched whenever it is not current, and left when it is. */
  lemma LoneStep(r: Run, l: nat, top: seq<nat>, p: u8)
    requires |top| == 1 && IsRun(r) && l < |r.events| && KeepsTops(r, l, top, p)
    requires top[0] < |r.states[l].ring|
    ensures r.states[l + 1].ring == r.states[l].ring
    ensures var t := r.states[l].ring[top[0]];
      if YieldsAt(r, l) then r.states[l].current == t <==> r.states[l + 1].current != t
      else r.states[l + 1].current == r.states[l].current
  {
    WindowStep(r, l, top, p);
    if YieldsAt(r, l) {
      var a := Pre(r.states[l], r.events[l]);
      if a.current != a.ring[top[0]] {
        LoneTurn(a, top, p);
      } else {
        YieldFacts(a);
        TopIsNotMain(a, top, p);
      }
    }
  }

  function Predecessor(first: Tid, d: seq<Tid>, q: nat): Tid
    requires q <= |d|
  {
    if q == 0 then first else d[q - 1]
  }

  /** Of the threads dispatched, from the one current at first, every other one is t. */
  ghost predicate EveryOther(first: Tid, d: seq<Tid>, t: Tid) {
    forall q :: 0 <= q < |d| ==> (d[q] == t <==> Predecessor(first, d, q) != t)
  }

  lemma EveryOtherMore(first: Tid, d: seq<Tid>, t: Tid, c: Tid)
    requires EveryOther(first, d, t) && (c == t <==> Predecessor(first, d, |d|) != t)
    ensures EveryOther(first, d + [c], t)
  {
    forall q | 0 <= q <= |d| ensures Predecessor(first, d + [c], q) == Predecessor(first, d, q) {
    }
  }

  /** So of any two yields in a row one dispatches it, whatever is called between them. */
  lemma {:induction false} LoneThreadAlternates(r: Run, i: nat, m: nat, top: seq<nat>, p: u8)
    requires Window(r, i, m, top, p) && |top| == 1 && top[0] < |r.states[i].ring|
    ensures EveryOther(r.states[i].current, Dispatches(r, i, m), r.states[i].ring[top[0]])
    ensures r.states[i + m].ring == r.states[i].ring
    ensures var d := Dispatches(r, i, m); r.states[i + m].current == Predecessor(r.states[i].current, d, |d|)
  {
    if m > 0 {
      LoneThreadAlternates(r, i, m - 1, top, p);
      assert KeepsTops(r, i + m - 1, top, p);
      LoneStep(r, i + m - 1, top, p);
      if YieldsAt(r, i + m - 1) {
        EveryOtherMore(r.states[i].current, Dispatches(r, i, m - 1), r.states[i].ring[top[0]], r.states[i + m].current);
      }
    }
  }

  lemma TopIsNotMain(s: State, top: seq<nat>, p: u8)
    requires Tops(s, top, p)
    ensures s.ring[top[0]] != MAIN
  {
    ExactlyIn(s.ring, s.th.Keys);
    assert Ready(Scanned(s)[s.ring[top[0]]], p);
  }
}
