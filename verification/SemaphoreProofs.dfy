/** Counting semaphores with direct hand-off: no V is lost, and a semaphore initialised
    to n admits at most n threads. */
module SemaphoreProofs {
  import opened Words
  import opened KernelModel
  import opened KernelRuns

  ghost function Waiters(s: State, m: SemId): set<Tid> {
    set t | t in s.th && s.th[t].waitsOn == Some(m)
  }

  // ---------------------------------------------------------------- the hand-off

  ghost predicate WaitsAt(th: map<Tid, Thread>, order: seq<Tid>, m: SemId, k: int)
    requires Covers(th, order)
  {
    0 <= k < |order| && th[order[k]].waitsOn == Some(m)
  }

  /** order[k] is the waiting thread of highest priority, the first of these in the list. */
  ghost predicate FirstHighest(th: map<Tid, Thread>, order: seq<Tid>, m: SemId, k: int)
    requires Covers(th, order)
  {
    && WaitsAt(th, order, m, k)
    && forall j :: WaitsAt(th, order, m, j) ==>
         && th[order[j]].priority <= th[order[k]].priority
         && (j < k ==> th[order[j]].priority < th[order[k]].priority)
  }

  /** thread_semaphore_V finds nobody exactly when nobody waits, and else hands the
      semaphore to the first waiting thread of highest priority. */
  lemma {:induction false} HandOffChoice(th: map<Tid, Thread>, order: seq<Tid>, m: SemId)
    requires Covers(th, order)
    ensures HandOff(th, order, m).None? <==> forall k :: !WaitsAt(th, order, m, k)
    ensures HandOff(th, order, m).Some? ==>
      exists k :: FirstHighest(th, order, m, k) && order[k] == HandOff(th, order, m).value
  {
    if order != [] {
      var n := |order| - 1;
      var head := order[..n];
      HandOffChoice(th, head, m);
      assert forall k :: 0 <= k < n ==> (WaitsAt(th, order, m, k) <==> WaitsAt(th, head, m, k));
      if WaitsAt(th, order, m, n) {
        if HandOff(th, head, m).Some? {
          var k :| FirstHighest(th, head, m, k) && head[k] == HandOff(th, head, m).value;
          if th[order[k]].priority < th[order[n]].priority {
            assert FirstHighest(th, order, m, n);
          } else {
            assert FirstHighest(th, order, m, k);
          }
        } else {
          assert FirstHighest(th, order, m, n);
        }
      } else if HandOff(th, head, m).Some? {
        var k :| FirstHighest(th, head, m, k) && head[k] == HandOff(th, head, m).value;
        assert FirstHighest(th, order, m, k);
      }
    }
  }

  lemma NobodyWaits(s: State, m: SemId)
    requires WF(s) && SemTarget(s, m).None?
    ensures Waiters(s, m) == {}
  {
    if s.ring == [] {
      return;
    }
    ExactlyIn(s.ring, s.th.Keys);
    var order := s.ring[..|s.ring| - 1];
    HandOffChoice(s.th, order, m);
    assert ThreadOk(s, MAIN);
    forall t | t in s.th ensures s.th[t].waitsOn != Some(m) {
      var k := IndexOf(s.ring, t);
      assert !WaitsAt(s.th, order, m, k);
    }
  }

  // ---------------------------------------------------------------- who waits after a step

  lemma TouchWaits(x: Thread, e: Event, r: Role)
    ensures Touch(x, e, r).waitsOn ==
      if e.SemP? && r.current && r.blocks then Some(e.sem)
      else if e.SemV? && r.target then None
      else x.waitsOn
  {
  }

  lemma MoveWaits(x: Thread, e: Event, r: Role)
    ensures Move(x, e, r).waitsOn ==
      if e.SemP? && r.current && r.blocks then Some(e.sem)
      else if e.SemV? && r.target then None
      else x.waitsOn
  {
    TouchWaits(x, e, r);
    if r.resched { SettleKeepsWaiting(Touch(x, e, r), r); }
  }

  /** The semaphore t waits on after a call. */
  ghost function WaitsAfter(s: State, e: Event, t: Tid): Option<SemId>
    requires WF(s) && Enabled(s, e) && t in s.th
  {
    if e.SemP? && t == s.current && s.sems[e.sem] <= 0 then Some(e.sem)
    else if e.SemV? && SemTarget(s, e.sem) == Some(t) then None
    else s.th[t].waitsOn
  }

  lemma WaitsStep(s: State, e: Event, t: Tid)
    requires WF(s) && Enabled(s, e) && !Structural(e) && t in s.th
    ensures t in Step(s, e).th && Step(s, e).th[t].waitsOn == WaitsAfter(s, e, t)
  {
    ThreadStep(s, e, t);
    MoveWaits(s.th[t], e, RoleOf(s, e, t));
  }

  /** The waiting threads after a step. */
  ghost function WaitersAfter(s: State, e: Event, m: SemId): set<Tid>
    requires WF(s) && Enabled(s, e)
  {
    match e
    case SemP(k) => if k == m && s.sems[k] <= 0 then Waiters(s, m) + {s.current} else Waiters(s, m)
    case SemV(k) =>
      var c := SemTarget(s, k);
      if k == m && c.Some? then Waiters(s, m) - {c.value} else Waiters(s, m)
    case Remove(t) => if t != MAIN then Waiters(s, m) - {t} else Waiters(s, m)
    case _ => Waiters(s, m)
  }

  lemma WaiterAfter(s: State, e: Event, m: SemId, t: Tid)
    requires WF(s) && Enabled(s, e) && !Structural(e) && t in s.th
    ensures t in WaitersAfter(s, e, m) <==> WaitsAfter(s, e, t) == Some(m)
  {
    assert s.current in s.th ==> ThreadOk(s, s.current);
  }

  lemma Waits(n: State, m: SemId, t: Tid)
    requires t in n.th
    ensures t in Waiters(n, m) <==> n.th[t].waitsOn == Some(m)
  {
  }

  lemma WaiterCall(s: State, e: Event, m: SemId, t: Tid)
    requires WF(s) && Enabled(s, e) && !Structural(e) && t in s.th
    ensures t in Waiters(Step(s, e), m) <==> t in WaitersAfter(s, e, m)
  {
    WaitsStep(s, e, t);
    WaiterAfter(s, e, m, t);
    Waits(Step(s, e), m, t);
  }

  lemma WaitersCall(s: State, e: Event, m: SemId)
    requires WF(s) && Enabled(s, e) && !Structural(e)
    ensures Waiters(Step(s, e), m) == WaitersAfter(s, e, m)
  {
    StepFrame(s, e);
    var a, b := Waiters(Step(s, e), m), WaitersAfter(s, e, m);
    forall t ensures t in a <==> t in b {
      if t in s.th { WaiterCall(s, e, m, t); }
    }
  }

  lemma WaitersRestructured(s: State, e: Event, m: SemId)
    requires WF(s) && Enabled(s, e) && Structural(e)
    ensures Waiters(Step(s, e), m) == WaitersAfter(s, e, m)
  {
    var n := Step(s, e);
    assert MAIN in s.th ==> ThreadOk(s, MAIN);
    assert s.nextTid in s.th ==> ThreadOk(s, s.nextTid);
  }

  lemma WaitersStep(s: State, e: Event, m: SemId)
    requires WF(s) && Enabled(s, e)
    ensures Waiters(Step(s, e), m) == WaitersAfter(s, e, m)
  {
    if Structural(e) { WaitersRestructured(s, e, m); } else { WaitersCall(s, e, m); }
  }

  // ---------------------------------------------------------------- conservation

  /** What an observer of one semaphore counts: the initial value, the P and V calls, the
      waiting threads that were removed, the threads between their P and their V, and
      whether every thread so far bracketed its sections by P and V. */
  datatype Book = Book(initial: int, ps: nat, vs: nat, gone: nat, inside: set<Tid>, proper: bool)

  ghost function Enter(b: Book, s: State, e: Event, m: SemId): Book
    requires WF(s) && Enabled(s, e)
  {
    match e
    case SemCreate(k, n) => if k == m then Book(n, 0, 0, 0, {}, true) else b
    case SemP(k) =>
      if k != m then b
      else b.(ps := b.ps + 1, proper := b.proper && s.current !in b.inside,
              inside := if s.sems[m] <= 0 then b.inside else b.inside + {s.current})
    case SemV(k) =>
      if k != m then b
      else
        var c := SemTarget(s, m);
        b.(vs := b.vs + 1, proper := b.proper && s.current in b.inside,
           inside := b.inside - {s.current} + if c.Some? then {c.value} else {})
    case Remove(t) => if t in Waiters(s, m) then b.(gone := b.gone + 1) else b
    case _ => b
  }

  ghost function BookAt(r: Run, m: SemId, i: nat): Book
    requires IsRun(r) && i < |r.states|
  {
    if i == 0 then Book(0, 0, 0, 0, {}, true)
    else
      RunWf(r, i - 1);
      assert GoesAt(r, i - 1);
      Enter(BookAt(r, m, i - 1), r.states[i - 1], r.events[i - 1], m)
  }

  /** Completed V operations not yet used up. */
  function Surplus(b: Book, waiting: nat): int {
    b.initial + b.vs - b.ps + b.gone + waiting
  }

  ghost predicate Kept(value: i16, waiters: set<Tid>, b: Book) {
    var u := Surplus(b, |waiters|);
    && value == AsInt16(u)
    && (b.initial >= 0 ==> u >= 0)
    && (waiters != {} ==> value <= 0)
    && (b.proper ==> |b.inside| + u == b.initial && b.inside !! waiters)
  }

  lemma KeptP(value: i16, waiters: set<Tid>, b: Book, t: Tid)
    requires Kept(value, waiters, b) && t !in waiters
    ensures var c := b.(ps := b.ps + 1, proper := b.proper && t !in b.inside,
                        inside := if value <= 0 then b.inside else b.inside + {t});
      if value <= 0 then Kept(value, waiters + {t}, c) else Kept(value - 1, waiters, c)
  {
    Count16(Surplus(b, |waiters|));
    assert |waiters + {t}| == |waiters| + 1;
  }

  lemma KeptHandOff(value: i16, waiters: set<Tid>, b: Book, t: Tid, c: Tid)
    requires Kept(value, waiters, b) && t !in waiters && c in waiters
    ensures Kept(value, waiters - {c},
                 b.(vs := b.vs + 1, proper := b.proper && t in b.inside, inside := b.inside - {t} + {c}))
  {
    assert |waiters - {c}| == |waiters| - 1;
  }

  lemma KeptV(value: i16, b: Book, t: Tid)
    requires Kept(value, {}, b)
    ensures Kept(Inc16(value), {},
                 b.(vs := b.vs + 1, proper := b.proper && t in b.inside, inside := b.inside - {t} + {}))
  {
    Count16(Surplus(b, 0));
  }

  lemma KeptGone(value: i16, waiters: set<Tid>, b: Book, t: Tid)
    requires Kept(value, waiters, b) && t in waiters
    ensures Kept(value, waiters - {t}, b.(gone := b.gone + 1))
  {
    assert |waiters - {t}| == |waiters| - 1;
  }

  lemma SemsStep(s: State, e: Event)
    requires WF(s) && Enabled(s, e)
    ensures Step(s, e).sems == SemsAfter(s, e)
  {
    if !Structural(e) { StepFrame(s, e); }
  }

  /** The book and the semaphore after the step, as the observer and the call leave them. */
  ghost predicate KeptAfter(s: State, e: Event, m: SemId, b: Book)
    requires WF(s) && Enabled(s, e)
  {
    m in SemsAfter(s, e) && Kept(SemsAfter(s, e)[m], WaitersAfter(s, e, m), Enter(b, s, e, m))
  }

  lemma AfterP(s: State, m: SemId, b: Book)
    requires WF(s) && Enabled(s, SemP(m)) && Kept(s.sems[m], Waiters(s, m), b)
    ensures KeptAfter(s, SemP(m), m, b)
  {
    assert s.current in s.th ==> ThreadOk(s, s.current);
    KeptP(s.sems[m], Waiters(s, m), b, s.current);
  }

  lemma AfterHandOff(s: State, m: SemId, b: Book)
    requires WF(s) && Enabled(s, SemV(m)) && Kept(s.sems[m], Waiters(s, m), b) && SemTarget(s, m).Some?
    ensures KeptAfter(s, SemV(m), m, b)
  {
    assert ThreadOk(s, s.current);
    ExactlyIn(s.ring, s.th.Keys);
    KeptHandOff(s.sems[m], Waiters(s, m), b, s.current, SemTarget(s, m).value);
  }

  lemma AfterFreeV(s: State, m: SemId, b: Book)
    requires WF(s) && Enabled(s, SemV(m)) && Kept(s.sems[m], Waiters(s, m), b) && SemTarget(s, m).None?
    ensures KeptAfter(s, SemV(m), m, b)
  {
    NobodyWaits(s, m);
    KeptV(s.sems[m], b, s.current);
  }

  lemma AfterRemove(s: State, t: Tid, m: SemId, b: Book)
    requires WF(s) && Enabled(s, Remove(t)) && m in s.sems && Kept(s.sems[m], Waiters(s, m), b)
    ensures KeptAfter(s, Remove(t), m, b)
  {
    assert MAIN in s.th ==> ThreadOk(s, MAIN);
    if t in Waiters(s, m) {
      KeptGone(s.sems[m], Waiters(s, m), b, t);
    } else {
      assert Waiters(s, m) - {t} == Waiters(s, m);
    }
  }

  lemma AfterOther(s: State, e: Event, m: SemId, b: Book)
    requires WF(s) && Enabled(s, e) && m in s.sems && Kept(s.sems[m], Waiters(s, m), b)
    requires e != SemP(m) && e != SemV(m) && !e.Remove?
    ensures KeptAfter(s, e, m, b)
  {
  }

  lemma KeptStep(s: State, e: Event, m: SemId, b: Book)
    requires WF(s) && Enabled(s, e) && m in s.sems && Kept(s.sems[m], Waiters(s, m), b)
    ensures m in Step(s, e).sems && Kept(Step(s, e).sems[m], Waiters(Step(s, e), m), Enter(b, s, e, m))
  {
    WaitersStep(s, e, m);
    SemsStep(s, e);
    if e == SemP(m) { AfterP(s, m, b); }
    else if e == SemV(m) {
      if SemTarget(s, m).Some? { AfterHandOff(s, m, b); } else { AfterFreeV(s, m, b); }
    }
    else if e.Remove? { AfterRemove(s, e.target, m, b); }
    else { AfterOther(s, e, m, b); }
  }

  lemma KeptFirst(s: State, e: Event, m: SemId, b: Book)
    requires WF(s) && Enabled(s, e) && m !in s.sems && m in Step(s, e).sems
    ensures Kept(Step(s, e).sems[m], Waiters(Step(s, e), m), Enter(b, s, e, m))
    ensures e.SemCreate? && e.sem == m
  {
    SemsStep(s, e);
    WaitersStep(s, e, m);
    forall t | t in s.th ensures s.th[t].waitsOn != Some(m) {
      assert ThreadOk(s, t);
    }
    assert Waiters(s, m) == {};
    Count16(e.initial);
  }

  ghost predicate KeptAt(r: Run, m: SemId, i: nat)
    requires IsRun(r) && i < |r.states|
  {
    m in r.states[i].sems && Kept(r.states[i].sems[m], Waiters(r.states[i], m), BookAt(r, m, i))
  }

  lemma KeptNext(r: Run, m: SemId, i: nat)
    requires IsRun(r) && i < |r.events| && KeptAt(r, m, i)
    ensures KeptAt(r, m, i + 1)
  {
    assert GoesAt(r, i);
    KeptStep(r.states[i], r.events[i], m, BookAt(r, m, i));
  }

  lemma {:induction false} KeptRun(r: Run, m: SemId, i: nat)
    requires IsRun(r) && i < |r.states| && m in r.states[i].sems
    ensures KeptAt(r, m, i)
  {
    if i > 0 {
      if m in r.states[i - 1].sems {
        KeptRun(r, m, i - 1);
        KeptNext(r, m, i - 1);
      } else {
        assert GoesAt(r, i - 1);
        KeptFirst(r.states[i - 1], r.events[i - 1], m, BookAt(r, m, i - 1));
      }
    }
  }

  function Max(a: int, b: int): int {
    if a < b then b else a
  }

  /** For a semaphore initialised to n >= 0 the value is max(0, n + V - P) and
      max(0, P - n - V) threads wait, as long as the surplus of V over P fits the 16-bit
      value; beyond that the value is the surplus modulo 2^16. While somebody waits the
      value is not positive, so no V is lost. (A thread removed while it waited counts as
      one P less.) */
  ghost predicate Conserved(value: i16, waiting: nat, b: Book) {
    var net := b.initial + b.vs - (b.ps - b.gone);
    && value == AsInt16(net + waiting) && net + waiting >= 0
    && (value > 0 ==> waiting == 0)
    && (net + waiting < 0x8000 ==> value == Max(0, net) && waiting == Max(0, -net))
  }

  lemma KeptConserves(value: i16, waiters: set<Tid>, b: Book)
    requires Kept(value, waiters, b) && b.initial >= 0
    ensures Conserved(value, |waiters|, b)
  {
    Count16(Surplus(b, |waiters|));
    assert |waiters| > 0 ==> waiters != {};
  }

  /** Semaphore conservation, in every reachable state. */
  lemma SemaphoreConservation(r: Run, m: SemId, i: nat)
    requires IsRun(r) && i < |r.states| && m in r.states[i].sems && BookAt(r, m, i).initial >= 0
    ensures Conserved(r.states[i].sems[m], |Waiters(r.states[i], m)|, BookAt(r, m, i))
  {
    KeptRun(r, m, i);
    KeptConserves(r.states[i].sems[m], Waiters(r.states[i], m), BookAt(r, m, i));
  }

  /** A thread's status and the semaphore it refers to agree in every reachable state. */
  lemma WaitingIsBlocked(r: Run, i: nat, t: Tid)
    requires IsRun(r) && i < |r.states| && t in r.states[i].th
    ensures r.states[i].th[t].waitsOn.Some? <==> r.states[i].th[t].status == SemBlocked
  {
    RunWf(r, i);
    assert ThreadOk(r.states[i], t);
  }

  /** At most as many threads are inside as the semaphore was initialised to, under every
      interleaving of ticks, yields and other calls, if every thread brackets its section. */
  lemma AtMostInitialInside(r: Run, m: SemId, i: nat)
    requires IsRun(r) && i < |r.states| && m in r.states[i].sems
    requires BookAt(r, m, i).proper && BookAt(r, m, i).initial >= 0
    ensures |BookAt(r, m, i).inside| <= BookAt(r, m, i).initial
  {
    KeptRun(r, m, i);
  }

  /** Mutual exclusion: with initial value 1 no reachable state has two threads inside. */
  lemma MutualExclusion(r: Run, m: SemId, i: nat, t: Tid, u: Tid)
    requires IsRun(r) && i < |r.states| && m in r.states[i].sems
    requires BookAt(r, m, i).proper && BookAt(r, m, i).initial == 1
    requires t in BookAt(r, m, i).inside && u in BookAt(r, m, i).inside
    ensures t == u
  {
    AtMostInitialInside(r, m, i);
    OnlyOne(BookAt(r, m, i).inside, t, u);
  }

  lemma OnlyOne(inside: set<Tid>, t: Tid, u: Tid)
    requires |inside| <= 1 && t in inside && u in inside
    ensures t == u
  {
    assert |inside - {t}| == |inside| - 1;
  }
}
