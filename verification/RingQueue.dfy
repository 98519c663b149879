/** The non-blocking message queue: a ring buffer whose getter, as shipped, does not
    wrap its index. The reference is a bounded FIFO over sequences. Every call is one
    atomic section, so any interleaving of callers is a sequence of calls. */
module RingQueue {
  import opened Words

  type Pointer = nat

  const NULL: Pointer := 0

  datatype Ring = Ring(elements: seq<Pointer>, stored: i32, readIndex: i32, writeIndex: i32)

  /** `beyond` is what the memory behind the array holds, should the getter read there. */
  datatype Op = Put(element: Pointer) | Take(beyond: Pointer)

  datatype Answer = Code(code: int) | Value(pointer: Pointer)

  /** The sizes fit, and the setter's next write stays inside the array. */
  predicate Sound(r: Ring) {
    && 0 <= r.stored <= |r.elements| < 0x1_0000
    && (if r.elements == [] then r.writeIndex == 0 else 0 <= r.writeIndex < |r.elements|)
  }

  /** A queue of the given capacity as thread_queue_create leaves it. */
  predicate Created(r: Ring, capacity: nat) {
    Sound(r) && |r.elements| == capacity && r.stored == 0 && r.readIndex == 0 && r.writeIndex == 0
  }

  predicate Inside(r: Ring) {
    0 <= r.readIndex < |r.elements|
  }

  /** The read index after a read: as shipped, or with the modulo that is commented out. */
  function AfterRead(r: Ring, modulo: bool): i32
    requires Sound(r)
  {
    var next := Inc32(r.readIndex);
    if modulo then (if r.elements == [] then next else next % |r.elements|)
    else if next == 0 then |r.elements| else next
  }

  function Act(r: Ring, op: Op, modulo: bool): (after: (Ring, Answer))
    requires Sound(r)
    ensures Sound(after.0) && |after.0.elements| == |r.elements|
  {
    match op
    case Put(x) =>
      if r.stored == |r.elements| then (r, Code(-1))
      else
        var next := r.writeIndex + 1;
        (r.(elements := r.elements[r.writeIndex := x], stored := r.stored + 1,
            writeIndex := if next == |r.elements| then 0 else next), Code(0))
    case Take(beyond) =>
      if r.stored == 0 then (r, Value(NULL))
      else
        (r.(stored := r.stored - 1, readIndex := AfterRead(r, modulo)),
         Value(if Inside(r) then r.elements[r.readIndex] else beyond))
  }

  function Answers(r: Ring, ops: seq<Op>, modulo: bool): (answers: seq<Answer>)
    requires Sound(r)
    ensures |answers| == |ops|
    decreases |ops|
  {
    if ops == [] then []
    else var (next, answer) := Act(r, ops[0], modulo); [answer] + Answers(next, ops[1..], modulo)
  }

  /** Does every read of the run stay inside the array? */
  predicate ReadsInside(r: Ring, ops: seq<Op>, modulo: bool)
    requires Sound(r)
    decreases |ops|
  {
    ops == [] ||
    ((ops[0].Take? && r.stored != 0 ==> Inside(r)) && ReadsInside(Act(r, ops[0], modulo).0, ops[1..], modulo))
  }

  // ---------------------------------------------------------------- the reference

  function Fifo(capacity: nat, contents: seq<Pointer>, op: Op): (seq<Pointer>, Answer) {
    match op
    case Put(x) => if |contents| == capacity then (contents, Code(-1)) else (contents + [x], Code(0))
    case Take(_) => if contents == [] then (contents, Value(NULL)) else (contents[1..], Value(contents[0]))
  }

  function FifoAnswers(capacity: nat, contents: seq<Pointer>, ops: seq<Op>): (answers: seq<Answer>)
    ensures |answers| == |ops|
    decreases |ops|
  {
    if ops == [] then []
    else var (next, answer) := Fifo(capacity, contents, ops[0]); [answer] + FifoAnswers(capacity, next, ops[1..])
  }

  function FifoFinal(capacity: nat, contents: seq<Pointer>, ops: seq<Op>): seq<Pointer>
    decreases |ops|
  {
    if ops == [] then contents else FifoFinal(capacity, Fifo(capacity, contents, ops[0]).0, ops[1..])
  }

  /** The elements accepted, and the elements handed out, in order. */
  function Enqueued(capacity: nat, contents: seq<Pointer>, ops: seq<Op>): seq<Pointer>
    decreases |ops|
  {
    if ops == [] then []
    else
      (if ops[0].Put? && |contents| != capacity then [ops[0].element] else [])
      + Enqueued(capacity, Fifo(capacity, contents, ops[0]).0, ops[1..])
  }

  function Dequeued(capacity: nat, contents: seq<Pointer>, ops: seq<Op>): seq<Pointer>
    decreases |ops|
  {
    if ops == [] then []
    else
      (if ops[0].Take? && contents != [] then [contents[0]] else [])
      + Dequeued(capacity, Fifo(capacity, contents, ops[0]).0, ops[1..])
  }

  /** Nothing is lost, repeated or reordered: what was handed out is a prefix of what was
      accepted, and the rest is still stored, within the capacity. */
  lemma {:induction false} FifoConservation(capacity: nat, contents: seq<Pointer>, ops: seq<Op>)
    requires |contents| <= capacity
    ensures contents + Enqueued(capacity, contents, ops)
         == Dequeued(capacity, contents, ops) + FifoFinal(capacity, contents, ops)
    ensures |FifoFinal(capacity, contents, ops)| <= capacity
    decreases |ops|
  {
    if ops != [] {
      var next := Fifo(capacity, contents, ops[0]).0;
      FifoConservation(capacity, next, ops[1..]);
      var putHere := if ops[0].Put? && |contents| != capacity then [ops[0].element] else [];
      var takenHere := if ops[0].Take? && contents != [] then [contents[0]] else [];
      assert contents + putHere == takenHere + next;
      var puts, takes := Enqueued(capacity, next, ops[1..]), Dequeued(capacity, next, ops[1..]);
      var last := FifoFinal(capacity, next, ops[1..]);
      assert contents + (putHere + puts) == (contents + putHere) + puts;
      assert (takenHere + next) + puts == takenHere + (next + puts);
      assert takenHere + (takes + last) == (takenHere + takes) + last;
    }
  }

  // ---------------------------------------------------------------- refinement

  /** Index i of a ring of n places, for i less than two laps. */
  function Wrapped(n: nat, i: nat): nat {
    if i < n then i else i - n
  }

  /** The ring holds the contents, the oldest element at index first. */
  ghost predicate Holds(r: Ring, contents: seq<Pointer>, first: nat) {
    && Sound(r) && r.stored == |contents|
    && (r.elements != [] ==>
      && first < |r.elements|
      && r.writeIndex == Wrapped(|r.elements|, first + |contents|)
      && forall k :: 0 <= k < |contents| ==> r.elements[Wrapped(|r.elements|, first + k)] == contents[k])
  }

  function NextFirst(n: nat, contents: seq<Pointer>, first: nat, op: Op): nat {
    if op.Take? && contents != [] then Wrapped(n, first + 1) else first
  }

  /** One call, as long as the getter looks at the oldest element. */
  lemma ActIsFifo(r: Ring, contents: seq<Pointer>, first: nat, op: Op, modulo: bool)
    requires Holds(r, contents, first)
    requires op.Take? && contents != [] ==> r.readIndex == first
    ensures Act(r, op, modulo).1 == Fifo(|r.elements|, contents, op).1
    ensures Holds(Act(r, op, modulo).0, Fifo(|r.elements|, contents, op).0,
                  NextFirst(|r.elements|, contents, first, op))
  {
    if op.Take? && contents != [] {
      assert r.elements[Wrapped(|r.elements|, first + 0)] == contents[0];
      var next := Act(r, op, modulo).0;
      forall k | 0 <= k < |contents| - 1
        ensures next.elements[Wrapped(|r.elements|, Wrapped(|r.elements|, first + 1) + k)] == contents[1..][k]
      {
        assert r.elements[Wrapped(|r.elements|, first + (k + 1))] == contents[k + 1];
      }
    }
  }

  lemma ModuloWraps(n: nat, i: nat)
    requires 0 < n && i <= n
    ensures i % n == Wrapped(n, i)
  {
  }

  ghost predicate Wrapping(r: Ring, contents: seq<Pointer>, first: nat) {
    Holds(r, contents, first) && (r.elements != [] ==> r.readIndex == first)
  }

  lemma ModuloStep(r: Ring, contents: seq<Pointer>, first: nat, op: Op)
    requires Wrapping(r, contents, first)
    ensures Act(r, op, true).1 == Fifo(|r.elements|, contents, op).1
    ensures Wrapping(Act(r, op, true).0, Fifo(|r.elements|, contents, op).0,
                     NextFirst(|r.elements|, contents, first, op))
  {
    ActIsFifo(r, contents, first, op, true);
    if op.Take? && contents != [] {
      ModuloWraps(|r.elements|, first + 1);
    }
  }

  lemma {:induction false} ModuloRun(r: Ring, contents: seq<Pointer>, first: nat, ops: seq<Op>)
    requires Wrapping(r, contents, first)
    ensures Answers(r, ops, true) == FifoAnswers(|r.elements|, contents, ops)
    decreases |ops|
  {
    if ops != [] {
      ModuloStep(r, contents, first, ops[0]);
      ModuloRun(Act(r, ops[0], true).0, Fifo(|r.elements|, contents, ops[0]).0,
                NextFirst(|r.elements|, contents, first, ops[0]), ops[1..]);
    }
  }

  /** With the commented-out modulo the ring is the bounded FIFO in every run. */
  lemma ModuloIsFifo(r: Ring, capacity: nat, ops: seq<Op>)
    requires Created(r, capacity)
    ensures Answers(r, ops, true) == FifoAnswers(capacity, [], ops)
  {
    ModuloRun(r, [], 0, ops);
  }

  /** After `taken` successful reads of the shipped getter. */
  ghost predicate Shipped(r: Ring, contents: seq<Pointer>, taken: nat) {
    taken <= |r.elements| && r.readIndex == taken && Holds(r, contents, Wrapped(|r.elements|, taken))
  }

  lemma ShippedStep(r: Ring, contents: seq<Pointer>, taken: nat, op: Op)
    requires Shipped(r, contents, taken) && (op.Take? && contents != [] ==> taken < |r.elements|)
    ensures Act(r, op, false).1 == Fifo(|r.elements|, contents, op).1
    ensures Shipped(Act(r, op, false).0, Fifo(|r.elements|, contents, op).0,
                    if op.Take? && contents != [] then taken + 1 else taken)
  {
    ActIsFifo(r, contents, Wrapped(|r.elements|, taken), op, false);
  }

  /** The same calls with p in the memory behind the array. */
  function Behind(ops: seq<Op>, p: Pointer): (changed: seq<Op>)
    ensures |changed| == |ops|
    ensures forall i :: 0 <= i < |ops| ==> changed[i] == if ops[i].Take? then Take(p) else ops[i]
  {
    seq(|ops|, i requires 0 <= i < |ops| => if ops[i].Take? then Take(p) else ops[i])
  }

  /** Within the limit on reads nothing behind the array matters. */
  lemma {:induction false} ShippedRun(r: Ring, contents: seq<Pointer>, taken: nat, ops: seq<Op>, p: Pointer)
    requires Shipped(r, contents, taken)
    requires taken + |Dequeued(|r.elements|, contents, ops)| <= |r.elements|
    ensures ReadsInside(r, ops, false)
    ensures Answers(r, Behind(ops, p), false) == FifoAnswers(|r.elements|, contents, ops)
    decreases |ops|
  {
    if ops != [] {
      var op, tail := ops[0], Behind(ops, p)[1..];
      ShippedStep(r, contents, taken, op);
      ShippedStep(r, contents, taken, Behind(ops, p)[0]);
      assert tail == Behind(ops[1..], p);
      ShippedRun(Act(r, op, false).0, Fifo(|r.elements|, contents, op).0,
                 if op.Take? && contents != [] then taken + 1 else taken, ops[1..], p);
    }
  }

  /** Past the limit a read leaves the array, and what lies there is handed out. */
  lemma {:induction false} ShippedFails(r: Ring, contents: seq<Pointer>, taken: nat, ops: seq<Op>) returns (p: Pointer)
    requires Shipped(r, contents, taken)
    requires taken + |Dequeued(|r.elements|, contents, ops)| > |r.elements|
    ensures !ReadsInside(r, ops, false)
    ensures Answers(r, Behind(ops, p), false) != FifoAnswers(|r.elements|, contents, ops)
    decreases |ops|
  {
    var op := ops[0];
    if op.Take? && contents != [] && taken == |r.elements| {
      p := contents[0] + 1;
      assert Behind(ops, p)[0] == Take(p);
      assert Answers(r, Behind(ops, p), false)[0] == Value(p);
      assert FifoAnswers(|r.elements|, contents, ops)[0] == Value(contents[0]);
    } else {
      ShippedStep(r, contents, taken, op);
      var next, rest := Act(r, op, false).0, Fifo(|r.elements|, contents, op).0;
      p := ShippedFails(next, rest, if op.Take? && contents != [] then taken + 1 else taken, ops[1..]);
      ShippedStep(r, contents, taken, Behind(ops, p)[0]);
      assert Behind(ops, p)[1..] == Behind(ops[1..], p);
      assert Answers(r, Behind(ops, p), false)[1..] == Answers(next, Behind(ops[1..], p), false);
      assert FifoAnswers(|r.elements|, contents, ops)[1..] == FifoAnswers(|r.elements|, rest, ops[1..]);
    }
  }

  ghost predicate FifoWhateverLiesBehind(r: Ring, ops: seq<Op>)
    requires Sound(r)
  {
    forall p :: Answers(r, Behind(ops, p), false) == FifoAnswers(|r.elements|, [], ops)
  }

  /** The shipped queue is the bounded FIFO in exactly the runs with at most `capacity`
      successful reads; those are also the runs whose reads stay inside the array. */
  lemma ShippedIsFifo(r: Ring, capacity: nat, ops: seq<Op>)
    requires Created(r, capacity)
    ensures FifoWhateverLiesBehind(r, ops) <==> |Dequeued(capacity, [], ops)| <= capacity
    ensures ReadsInside(r, ops, false) <==> |Dequeued(capacity, [], ops)| <= capacity
  {
    if |Dequeued(capacity, [], ops)| <= capacity {
      forall p ensures Answers(r, Behind(ops, p), false) == FifoAnswers(capacity, [], ops) {
        ShippedRun(r, [], 0, ops, p);
      }
      ShippedRun(r, [], 0, ops, NULL);
    } else {
      var p := ShippedFails(r, [], 0, ops);
    }
  }

  /** A queue for one element fails at the second element already. */
  lemma SecondElementLost(r: Ring, beyond: Pointer)
    requires Created(r, 1)
    ensures Answers(r, [Put(1), Take(beyond), Put(2), Take(beyond)], false)
         == [Code(0), Value(1), Code(0), Value(beyond)]
    ensures FifoAnswers(1, [], [Put(1), Take(beyond), Put(2), Take(beyond)])
         == [Code(0), Value(1), Code(0), Value(2)]
  {
    var o, o', x := [Put(1), Take(beyond), Put(2), Take(beyond)], [Put(2), Take(beyond)], Take(beyond);
    var r1 := Act(r, Put(1), false).0;
    var r2 := Act(r1, x, false).0;
    var r3 := Act(r2, Put(2), false).0;
    assert o[1..] == [x] + o' && o[1..][1..] == o' && o'[1..] == [x];
    assert Answers(r3, [x], false) == [Value(beyond)];
    assert Answers(r2, o', false) == [Code(0), Value(beyond)];
    assert Answers(r1, o[1..], false) == [Value(1)] + Answers(r2, o', false);
    assert [] + [1] == [1] && [] + [2] == [2];
    assert FifoAnswers(1, [2], [x]) == [Value(2)];
    assert FifoAnswers(1, [], o') == [Code(0)] + FifoAnswers(1, [2], [x]);
    assert FifoAnswers(1, [1], o[1..]) == [Value(1)] + FifoAnswers(1, [], o');
  }

  // ---------------------------------------------------------------- the queue in memory

  class Queue {
    const elements: array<Pointer>
    var stored: i32
    const howmany: i32
    var readIndex: i32
    var writeIndex: i32

    ghost function View(): Ring
      reads this, elements
    {
      Ring(elements[..], stored, readIndex, writeIndex)
    }

    ghost predicate Valid()
      reads this, elements
    {
      howmany == elements.Length && Sound(View())
    }

    /** thread_queue_create; size_t has 16 bits. */
    constructor (howmany: nat)
      requires howmany < 0x1_0000
      ensures Valid() && fresh(elements) && Created(View(), howmany)
    {
      elements := new Pointer[howmany];
      this.howmany := howmany;
      stored, readIndex, writeIndex := 0, 0, 0;
    }

    method NbGetElement(beyond: Pointer) returns (result: Pointer)
      requires Valid()
      modifies this
      ensures Valid() && (View(), Value(result)) == Act(old(View()), Take(beyond), false)
    {
      if stored == 0 {
        result := NULL;
      } else {
        result := if 0 <= readIndex < elements.Length then elements[readIndex] else beyond;
        stored := stored - 1;
        readIndex := Inc32(readIndex);
        if readIndex == 0 {
          readIndex := howmany;
        }
      }
    }

    /** The getter with the modulo in place of the test. */
    method NbGetElementModulo(beyond: Pointer) returns (result: Pointer)
      requires Valid()
      modifies this
      ensures Valid() && (View(), Value(result)) == Act(old(View()), Take(beyond), true)
    {
      if stored == 0 {
        result := NULL;
      } else {
        result := if 0 <= readIndex < elements.Length then elements[readIndex] else beyond;
        stored := stored - 1;
        readIndex := Inc32(readIndex) % howmany;
      }
    }

    method NbSetElement(element: Pointer) returns (result: int)
      requires Valid()
      modifies this, elements
      ensures Valid() && (View(), Code(result)) == Act(old(View()), Put(element), false)
      ensures result == -1 <==> old(stored) == howmany
    {
      result := 0;
      if stored == howmany {
        result := -1;
      } else {
        elements[writeIndex] := element;
        stored := stored + 1;
        writeIndex := writeIndex + 1;
        if writeIndex == howmany {
          writeIndex := 0;
        }
      }
    }
  }
}
