/** do_switch and change_high on the AVR: 32 registers, a 16-bit stack pointer that the
    code handles as two bytes, and a memory that all stacks share. */
module ContextSwitch {
  import opened Words

  type u16 = x: int | 0 <= x < 0x1_0000
  type Tid = nat

  const MEMORY := 0x1_0000
  /** Return address, 32 registers, the status register and two filler bytes. */
  const FRAME := 37

  datatype Cpu = Cpu(reg: seq<u8>, sreg: u8, sp: u16, pc: u16, mem: seq<u8>)

  predicate Sized(c: Cpu) {
    |c.reg| == 32 && |c.mem| == MEMORY
  }

  // ---------------------------------------------------------------- instructions

  /** A push stores at the stack pointer and then moves it down. */
  function PushByte(c: Cpu, b: u8): (d: Cpu)
    requires Sized(c)
    ensures Sized(d)
  {
    c.(mem := c.mem[c.sp := b], sp := if c.sp == 0 then 0xFFFF else c.sp - 1)
  }

  function Up(sp: u16): u16 {
    if sp == 0xFFFF then 0 else sp + 1
  }

  function PopReg(c: Cpu, r: nat): (d: Cpu)
    requires Sized(c) && r < 32
    ensures Sized(d)
  {
    c.(sp := Up(c.sp), reg := c.reg[r := c.mem[Up(c.sp)]])
  }

  function Low(address: u16): u8 {
    address % 0x100
  }

  function High(address: u16): u8 {
    address / 0x100
  }

  function Join(high: u8, low: u8): u16 {
    high * 0x100 + low
  }

  /** call: the low byte of the return address first. */
  function Call(c: Cpu): (d: Cpu)
    requires Sized(c)
    ensures Sized(d)
  {
    PushByte(PushByte(c, Low(c.pc)), High(c.pc))
  }

  /** reti: the high byte comes off first. */
  function Return(c: Cpu): (d: Cpu)
    requires Sized(c)
    ensures Sized(d)
  {
    c.(sp := Up(Up(c.sp)), pc := Join(c.mem[Up(c.sp)], c.mem[Up(Up(c.sp))]))
  }

  /** push of the registers r..31 in this order. */
  function PushFrom(c: Cpu, r: nat): (d: Cpu)
    requires Sized(c) && r <= 32
    ensures Sized(d)
    decreases 32 - r
  {
    if r == 32 then c else PushFrom(PushByte(c, c.reg[r]), r + 1)
  }

  /** pop of the registers r-1..0 in this order. */
  function PopDown(c: Cpu, r: nat): (d: Cpu)
    requires Sized(c) && r <= 32
    ensures Sized(d)
    decreases r
  {
    if r == 0 then c else PopDown(PopReg(c, r - 1), r - 1)
  }

  /** do_switch up to the point where it stores the stack pointer. */
  function SaveContext(c: Cpu): (d: Cpu)
    requires Sized(c)
    ensures Sized(d)
  {
    var a := PushFrom(c, 0);
    var b := PushByte(a.(reg := a.reg[0 := a.sreg]), a.sreg);
    var e := b.(reg := b.reg[16 := 0xAB]);
    PushByte(PushByte(e, e.reg[16]), e.reg[16])
  }

  /** do_switch after it has loaded the stack pointer. */
  function RestoreContext(c: Cpu): (d: Cpu)
    requires Sized(c)
    ensures Sized(d)
  {
    var a := PopReg(PopReg(PopReg(c, 0), 16), 16);
    Return(PopDown(a.(sreg := a.reg[0]), 32))
  }

  // ---------------------------------------------------------------- the whole switch

  /** The processor, pxCurrentTCB_aux, current_thread, and each thread's sp field. */
  datatype World = World(cpu: Cpu, aux: (u8, u8), current: Tid, saved: map<Tid, u16>)

  /** What the compiled change_high leaves behind: registers, and the bytes it wrote below
      the stack pointer, its own return address among them. */
  datatype Clobber = Clobber(reg: seq<u8>, below: seq<u8>)

  /** The bytes written downwards from an address. */
  function Overlay(mem: seq<u8>, sp: u16, below: seq<u8>): (after: seq<u8>)
    requires |mem| == MEMORY && |below| <= sp
    ensures |after| == MEMORY
    ensures forall a :: 0 <= a < MEMORY ==>
      after[a] == if sp - |below| < a <= sp then below[sp - a] else mem[a]
  {
    seq(MEMORY, a requires 0 <= a < MEMORY => if sp - |below| < a <= sp then below[sp - a] else mem[a])
  }

  /** change_high: the stack pointer of the old thread out of the two bytes, that of the
      new one into them. */
  function ChangeHigh(w: World, next: Tid, junk: Clobber): (v: World)
    requires Sized(w.cpu) && |junk.reg| == 32 && |junk.below| <= w.cpu.sp && (next == w.current || next in w.saved)
    ensures Sized(v.cpu)
  {
    var saved := w.saved[w.current := Join(w.aux.1, w.aux.0)];
    w.(cpu := w.cpu.(reg := junk.reg, mem := Overlay(w.cpu.mem, w.cpu.sp, junk.below)),
       saved := saved,
       aux := if w.current != next then (Low(saved[next]), High(saved[next])) else w.aux,
       current := next)
  }

  /** The current thread calls do_switch. */
  function Saved(w: World): (v: World)
    requires Sized(w.cpu)
    ensures Sized(v.cpu)
  {
    var c := SaveContext(Call(w.cpu));
    w.(cpu := c, aux := (Low(c.sp), High(c.sp)))
  }

  function Resumed(w: World): (v: World)
    requires Sized(w.cpu)
    ensures Sized(v.cpu)
  {
    w.(cpu := RestoreContext(w.cpu.(sp := Join(w.aux.1, w.aux.0))))
  }

  function DoSwitch(w: World, next: Tid, junk: Clobber): (v: World)
    requires Sized(w.cpu) && |junk.reg| == 32 && |junk.below| <= Saved(w).cpu.sp
    requires next == w.current || next in w.saved
    ensures Sized(v.cpu)
  {
    Resumed(ChangeHigh(Saved(w), next, junk))
  }

  // ---------------------------------------------------------------- one frame

  /** The stack pointer survives its trip through two bytes. */
  lemma SplitSurvives(sp: u16)
    ensures Join(High(sp), Low(sp)) == sp
  {
  }

  lemma {:induction false} PushFromShape(c: Cpu, r: nat)
    requires Sized(c) && r <= 32 && c.sp >= 32 - r
    ensures var d := PushFrom(c, r);
      && d.sp == c.sp - (32 - r) && d.reg == c.reg && d.pc == c.pc && d.sreg == c.sreg
      && (forall k :: r <= k < 32 ==> d.mem[c.sp - (k - r)] == c.reg[k])
      && (forall a :: 0 <= a < MEMORY && !(d.sp < a <= c.sp) ==> d.mem[a] == c.mem[a])
    decreases 32 - r
  {
    if r < 32 {
      PushFromShape(PushByte(c, c.reg[r]), r + 1);
    }
  }

  lemma {:induction false} PopDownShape(c: Cpu, r: nat)
    requires Sized(c) && r <= 32 && c.sp + r < MEMORY
    ensures var d := PopDown(c, r);
      && d.sp == c.sp + r && d.mem == c.mem
      && (forall k :: 0 <= k < r ==> d.reg[k] == c.mem[c.sp + (r - k)])
      && (forall k :: r <= k < 32 ==> d.reg[k] == c.reg[k])
    decreases r
  {
    if r > 0 {
      PopDownShape(PopReg(c, r - 1), r - 1);
    }
  }

  /** The bytes a switched-out thread leaves below the address its stack pointer had. */
  ghost predicate Frame(mem: seq<u8>, c: Cpu) {
    && |mem| == MEMORY && Sized(c) && FRAME <= c.sp
    && mem[c.sp] == Low(c.pc) && mem[c.sp - 1] == High(c.pc)
    && forall k :: 0 <= k < 32 ==> mem[c.sp - 2 - k] == c.reg[k]
  }

  lemma SaveMakesFrame(c: Cpu)
    requires Sized(c) && FRAME <= c.sp
    ensures var d := SaveContext(Call(c));
      && d.sp == c.sp - FRAME && Frame(d.mem, c)
      && (forall a :: 0 <= a < MEMORY && !(c.sp - FRAME < a <= c.sp) ==> d.mem[a] == c.mem[a])
  {
    PushFromShape(Call(c), 0);
  }

  lemma RestoreReadsFrame(d: Cpu, c: Cpu)
    requires Sized(d) && Frame(d.mem, c) && d.sp == c.sp - FRAME
    ensures var e := RestoreContext(d);
      e.reg == c.reg && e.sp == c.sp && e.pc == c.pc && e.mem == d.mem
  {
    var a := PopReg(PopReg(PopReg(d, 0), 16), 16);
    PopDownShape(a.(sreg := a.reg[0]), 32);
    SplitSurvives(c.pc);
  }

  // ---------------------------------------------------------------- runs

  /** A stack: the addresses from low up to, not including, high. */
  datatype Stack = Stack(low: nat, high: nat)

  /** Compute: the current thread runs its own code. FirstDispatch: the switch to a thread
      that was never switched out, whose outcome is left open. */
  datatype Event =
    | Compute(after: Cpu)
    | Switch(next: Tid, junk: Clobber)
    | FirstDispatch(next: Tid, junk: Clobber, after: Cpu)

  ghost predicate Apart(stacks: map<Tid, Stack>, t: Tid, u: Tid)
    requires t in stacks && u in stacks
  {
    stacks[t].high <= stacks[u].low || stacks[u].high <= stacks[t].low
  }

  ghost predicate Disjoint(stacks: map<Tid, Stack>) {
    && (forall t :: t in stacks ==> stacks[t].high <= MEMORY)
    && (forall t, u {:trigger Apart(stacks, t, u)} :: t in stacks && u in stacks && t != u ==> Apart(stacks, t, u))
  }

  /** The stack of t holds the same bytes in both memories. */
  ghost predicate StackKept(stacks: map<Tid, Stack>, t: Tid, before: seq<u8>, after: seq<u8>)
    requires t in stacks && stacks[t].high <= MEMORY && |before| == |after| == MEMORY
  {
    forall a :: stacks[t].low <= a < stacks[t].high ==> after[a] == before[a]
  }

  /** No stack but that of t changes. */
  ghost predicate OthersKept(stacks: map<Tid, Stack>, t: Tid, before: seq<u8>, after: seq<u8>)
    requires Disjoint(stacks) && |before| == |after| == MEMORY
  {
    forall u :: u in stacks && u != t ==> StackKept(stacks, u, before, after)
  }

  /** Is there room for the frame and for change_high on the stack of the current thread? */
  ghost predicate Room(stacks: map<Tid, Stack>, w: World, junk: Clobber) {
    && w.current in stacks && |junk.reg| == 32
    && stacks[w.current].low + FRAME + |junk.below| <= w.cpu.sp < stacks[w.current].high
  }

  /** Code of a thread writes to no other thread's stack, and a switch finds room. */
  ghost predicate Allowed(stacks: map<Tid, Stack>, w: World, e: Event)
    requires Disjoint(stacks) && Sized(w.cpu)
  {
    match e
    case Compute(after) => Sized(after) && OthersKept(stacks, w.current, w.cpu.mem, after.mem)
    case Switch(next, junk) => Room(stacks, w, junk) && (next == w.current || next in w.saved)
    case FirstDispatch(next, junk, after) =>
      && Room(stacks, w, junk) && next in stacks && next !in w.saved && next != w.current
      && Sized(after) && |junk.below| <= Saved(w).cpu.sp
      && OthersKept(stacks, next, Overlay(Saved(w).cpu.mem, Saved(w).cpu.sp, junk.below), after.mem)
  }

  lemma RoomForSave(stacks: map<Tid, Stack>, w: World, junk: Clobber)
    requires Disjoint(stacks) && Sized(w.cpu) && Room(stacks, w, junk)
    ensures Saved(w).cpu.sp == w.cpu.sp - FRAME && |junk.below| <= Saved(w).cpu.sp
  {
    SaveMakesFrame(w.cpu);
  }

  ghost function Step(stacks: map<Tid, Stack>, w: World, e: Event): (v: World)
    requires Disjoint(stacks) && Sized(w.cpu) && Allowed(stacks, w, e)
    ensures Sized(v.cpu)
  {
    match e
    case Compute(after) => w.(cpu := after)
    case Switch(next, junk) =>
      RoomForSave(stacks, w, junk);
      DoSwitch(w, next, junk)
    case FirstDispatch(next, junk, after) =>
      w.(cpu := after, current := next, saved := w.saved[w.current := Saved(w).cpu.sp])
  }

  /** Thread t is switched out, and its context is c. */
  ghost predicate Parked(stacks: map<Tid, Stack>, w: World, t: Tid, c: Cpu)
    requires Disjoint(stacks) && t in stacks
  {
    && Sized(w.cpu) && t != w.current && t in w.saved && w.saved[t] == c.sp - FRAME
    && Frame(w.cpu.mem, c)
    && stacks[t].low + FRAME <= c.sp < stacks[t].high
    && (forall a :: c.sp < a < stacks[t].high ==> w.cpu.mem[a] == c.mem[a])
  }

  /** Registers, stack pointer, program counter and stack contents are those of c. */
  ghost predicate HasContext(stacks: map<Tid, Stack>, w: World, t: Tid, c: Cpu)
    requires Disjoint(stacks) && t in stacks && Sized(w.cpu) && Sized(c)
  {
    && w.current == t && w.cpu.reg == c.reg && w.cpu.sp == c.sp && w.cpu.pc == c.pc
    && (forall a :: c.sp < a < stacks[t].high ==> w.cpu.mem[a] == c.mem[a])
  }

  /** What change_high and the save wrote lies in the stack of the current thread. */
  lemma SaveStaysInside(stacks: map<Tid, Stack>, w: World, junk: Clobber)
    requires Disjoint(stacks) && Sized(w.cpu) && Room(stacks, w, junk)
    ensures |junk.below| <= Saved(w).cpu.sp == w.cpu.sp - FRAME
    ensures var mem := Overlay(Saved(w).cpu.mem, Saved(w).cpu.sp, junk.below);
      && OthersKept(stacks, w.current, w.cpu.mem, mem) && Frame(mem, w.cpu)
      && (forall a :: w.cpu.sp < a < MEMORY ==> mem[a] == w.cpu.mem[a])
  {
    SaveMakesFrame(w.cpu);
    var mem := Overlay(Saved(w).cpu.mem, Saved(w).cpu.sp, junk.below);
    forall u | u in stacks && u != w.current ensures StackKept(stacks, u, w.cpu.mem, mem) {
      assert Apart(stacks, u, w.current);
    }
  }

  /** The switch takes the current thread out, and keeps the others out. */
  lemma ParkedKept(stacks: map<Tid, Stack>, w: World, v: World, t: Tid, c: Cpu)
    requires Disjoint(stacks) && t in stacks && Parked(stacks, w, t, c) && Sized(v.cpu)
    requires StackKept(stacks, t, w.cpu.mem, v.cpu.mem)
    requires t != v.current && t in v.saved && v.saved[t] == w.saved[t]
    ensures Parked(stacks, v, t, c)
  {
  }

  /** The processor when do_switch begins to restore. */
  ghost function Loaded(stacks: map<Tid, Stack>, w: World, e: Event): (d: Cpu)
    requires Disjoint(stacks) && Sized(w.cpu) && Allowed(stacks, w, e) && e.Switch?
    ensures Sized(d)
  {
    RoomForSave(stacks, w, e.junk);
    Cpu(e.junk.reg, Saved(w).cpu.sreg,
        if e.next == w.current then w.cpu.sp - FRAME else w.saved[e.next],
        Saved(w).cpu.pc, Overlay(Saved(w).cpu.mem, w.cpu.sp - FRAME, e.junk.below))
  }

  lemma SwitchIs(stacks: map<Tid, Stack>, w: World, e: Event)
    requires Disjoint(stacks) && Sized(w.cpu) && Allowed(stacks, w, e) && e.Switch?
    ensures var v := Step(stacks, w, e);
      && v.current == e.next && v.saved == w.saved[w.current := w.cpu.sp - FRAME]
      && v.cpu == RestoreContext(Loaded(stacks, w, e))
  {
    RoomForSave(stacks, w, e.junk);
    SplitSurvives(w.cpu.sp - FRAME);
    if e.next != w.current {
      SplitSurvives(w.saved[e.next]);
    }
  }

  /** The thread that gives up the processor is switched out with its context. */
  lemma StepParks(stacks: map<Tid, Stack>, w: World, e: Event)
    requires Disjoint(stacks) && Sized(w.cpu) && Allowed(stacks, w, e) && !e.Compute? && e.next != w.current
    ensures Parked(stacks, Step(stacks, w, e), w.current, w.cpu)
  {
    SaveStaysInside(stacks, w, e.junk);
    if e.Switch? {
      ResumeKeepsMemory(stacks, w, e);
    } else {
      var mem := Overlay(Saved(w).cpu.mem, Saved(w).cpu.sp, e.junk.below);
      assert StackKept(stacks, w.current, mem, e.after.mem);
    }
  }

  /** Taking a frame off a stack writes nothing. */
  lemma RestoreKeepsMemory(c: Cpu)
    requires Sized(c)
    ensures RestoreContext(c).mem == c.mem
  {
    PopDownKeepsMemory(PopReg(PopReg(PopReg(c, 0), 16), 16), 32);
    var a := PopReg(PopReg(PopReg(c, 0), 16), 16);
    PopDownKeepsMemory(a.(sreg := a.reg[0]), 32);
  }

  lemma {:induction false} PopDownKeepsMemory(c: Cpu, r: nat)
    requires Sized(c) && r <= 32
    ensures PopDown(c, r).mem == c.mem
    decreases r
  {
    if r > 0 {
      PopDownKeepsMemory(PopReg(c, r - 1), r - 1);
    }
  }

  lemma ResumeKeepsMemory(stacks: map<Tid, Stack>, w: World, e: Event)
    requires Disjoint(stacks) && Sized(w.cpu) && Allowed(stacks, w, e) && e.Switch?
    ensures |e.junk.below| <= Saved(w).cpu.sp == w.cpu.sp - FRAME
    ensures var v := Step(stacks, w, e);
      && v.cpu.mem == Overlay(Saved(w).cpu.mem, Saved(w).cpu.sp, e.junk.below)
      && v.current == e.next && v.saved == w.saved[w.current := w.cpu.sp - FRAME]
  {
    SwitchIs(stacks, w, e);
    RoomForSave(stacks, w, e.junk);
    RestoreKeepsMemory(Loaded(stacks, w, e));
  }

  /** A thread that is switched out stays so, with the same context, whatever others do. */
  lemma StepKeepsParked(stacks: map<Tid, Stack>, w: World, e: Event, t: Tid, c: Cpu)
    requires Disjoint(stacks) && t in stacks && Parked(stacks, w, t, c) && Allowed(stacks, w, e)
    requires Step(stacks, w, e).current != t
    ensures Parked(stacks, Step(stacks, w, e), t, c)
  {
    var v := Step(stacks, w, e);
    if !e.Compute? {
      SaveStaysInside(stacks, w, e.junk);
      var mem := Overlay(Saved(w).cpu.mem, Saved(w).cpu.sp, e.junk.below);
      assert StackKept(stacks, t, w.cpu.mem, mem);
      if e.Switch? {
        ResumeKeepsMemory(stacks, w, e);
      } else {
        assert StackKept(stacks, t, mem, v.cpu.mem);
      }
    }
    assert StackKept(stacks, t, w.cpu.mem, v.cpu.mem);
    ParkedKept(stacks, w, v, t, c);
  }

  /** The switch to a thread whose frame is that of c. */
  lemma SwitchReads(stacks: map<Tid, Stack>, w: World, e: Event, c: Cpu)
    requires Disjoint(stacks) && Sized(w.cpu) && Allowed(stacks, w, e) && e.Switch?
    requires Frame(Loaded(stacks, w, e).mem, c) && Loaded(stacks, w, e).sp == c.sp - FRAME
    ensures var v := Step(stacks, w, e);
      && v.cpu.reg == c.reg && v.cpu.sp == c.sp && v.cpu.pc == c.pc
      && v.cpu.mem == Loaded(stacks, w, e).mem && v.current == e.next
  {
    SwitchIs(stacks, w, e);
    RestoreReadsFrame(Loaded(stacks, w, e), c);
  }

  /** The switch to it gives a switched-out thread its context back. */
  lemma StepResumes(stacks: map<Tid, Stack>, w: World, e: Event, t: Tid, c: Cpu)
    requires Disjoint(stacks) && t in stacks && Parked(stacks, w, t, c) && Allowed(stacks, w, e)
    requires Step(stacks, w, e).current == t
    ensures HasContext(stacks, Step(stacks, w, e), t, c)
  {
    SaveStaysInside(stacks, w, e.junk);
    assert StackKept(stacks, t, w.cpu.mem, Overlay(Saved(w).cpu.mem, Saved(w).cpu.sp, e.junk.below));
    SwitchReads(stacks, w, e, c);
  }

  /** A switch of a thread to itself changes nothing of its context. */
  lemma StepToItself(stacks: map<Tid, Stack>, w: World, e: Event)
    requires Disjoint(stacks) && Sized(w.cpu) && Allowed(stacks, w, e) && e.Switch? && e.next == w.current
    ensures HasContext(stacks, Step(stacks, w, e), w.current, w.cpu)
  {
    SaveStaysInside(stacks, w, e.junk);
    SwitchReads(stacks, w, e, w.cpu);
  }

  datatype Run = Run(worlds: seq<World>, events: seq<Event>)

  ghost predicate GoesAt(stacks: map<Tid, Stack>, r: Run, i: int)
    requires Disjoint(stacks) && |r.worlds| == |r.events| + 1
  {
    0 <= i < |r.events| ==>
      && Sized(r.worlds[i].cpu) && Allowed(stacks, r.worlds[i], r.events[i])
      && r.worlds[i + 1] == Step(stacks, r.worlds[i], r.events[i])
  }

  ghost predicate IsRun(stacks: map<Tid, Stack>, r: Run) {
    && Disjoint(stacks) && |r.worlds| == |r.events| + 1 && Sized(r.worlds[0].cpu)
    && forall i {:trigger GoesAt(stacks, r, i)} :: GoesAt(stacks, r, i)
  }

  /** One step of a run, for the thread t that is switched out with context c. */
  lemma RunKeepsParked(stacks: map<Tid, Stack>, r: Run, i: nat, t: Tid, c: Cpu)
    requires IsRun(stacks, r) && i < |r.events| && t in stacks && Parked(stacks, r.worlds[i], t, c)
    ensures Sized(r.worlds[i + 1].cpu) && Sized(c)
    ensures r.worlds[i + 1].current != t ==> Parked(stacks, r.worlds[i + 1], t, c)
    ensures r.worlds[i + 1].current == t ==> HasContext(stacks, r.worlds[i + 1], t, c)
  {
    assert GoesAt(stacks, r, i);
    if r.worlds[i + 1].current != t {
      StepKeepsParked(stacks, r.worlds[i], r.events[i], t, c);
    } else {
      StepResumes(stacks, r.worlds[i], r.events[i], t, c);
    }
  }

  /** A step of a run in which the current thread calls do_switch. */
  lemma RunParks(stacks: map<Tid, Stack>, r: Run, i: nat)
    requires IsRun(stacks, r) && i < |r.events| && !r.events[i].Compute?
    ensures r.worlds[i].current in stacks && Sized(r.worlds[i].cpu) && Sized(r.worlds[i + 1].cpu)
    ensures var t, c := r.worlds[i].current, r.worlds[i].cpu;
      && (r.worlds[i + 1].current != t ==> Parked(stacks, r.worlds[i + 1], t, c))
      && (r.worlds[i + 1].current == t ==> HasContext(stacks, r.worlds[i + 1], t, c))
  {
    assert GoesAt(stacks, r, i);
    if r.events[i].next != r.worlds[i].current {
      StepParks(stacks, r.worlds[i], r.events[i]);
    } else {
      StepToItself(stacks, r.worlds[i], r.events[i]);
    }
  }

  ghost predicate Away(r: Run, t: Tid, k: int) {
    0 <= k < |r.worlds| ==> r.worlds[k].current != t
  }

  lemma {:induction false} ParkedUntil(stacks: map<Tid, Stack>, r: Run, i: nat, j: nat)
    requires IsRun(stacks, r) && i < j < |r.worlds| && !r.events[i].Compute?
    requires forall k {:trigger Away(r, r.worlds[i].current, k)} :: i < k <= j ==> Away(r, r.worlds[i].current, k)
    ensures r.worlds[i].current in stacks && Parked(stacks, r.worlds[j], r.worlds[i].current, r.worlds[i].cpu)
  {
    assert Away(r, r.worlds[i].current, j);
    RunParks(stacks, r, i);
    if j > i + 1 {
      ParkedUntil(stacks, r, i, j - 1);
      RunKeepsParked(stacks, r, j - 1, r.worlds[i].current, r.worlds[i].cpu);
    }
  }

  /** Context switches are transparent: in every run, a thread that calls do_switch at step
      i finds, when it runs again at j, its registers, stack pointer, place in the program
      and stack contents as they were, whichever threads ran in between. */
  lemma SwitchesAreTransparent(stacks: map<Tid, Stack>, r: Run, i: nat, j: nat)
    requires IsRun(stacks, r) && i < j < |r.worlds| && !r.events[i].Compute?
    requires r.worlds[j].current == r.worlds[i].current
    requires forall k {:trigger Away(r, r.worlds[i].current, k)} :: i < k < j ==> Away(r, r.worlds[i].current, k)
    ensures r.worlds[i].current in stacks && Sized(r.worlds[i].cpu) && Sized(r.worlds[j].cpu)
    ensures HasContext(stacks, r.worlds[j], r.worlds[i].current, r.worlds[i].cpu)
  {
    RunParks(stacks, r, i);
    if j > i + 1 {
      ParkedUntil(stacks, r, i, j - 1);
      RunKeepsParked(stacks, r, j - 1, r.worlds[i].current, r.worlds[i].cpu);
    }
  }

  // ---------------------------------------------------------------- the code itself

  /** The machine as the instructions change it, and the two variables of the kernel that
      change_high reads and writes. */
  class Machine {
    var reg: seq<u8>
    var sreg: u8
    var sp: u16
    var pc: u16
    var mem: seq<u8>
    var aux0: u8
    var aux1: u8
    var currentThread: Tid
    var savedSp: map<Tid, u16>

    ghost function View(): World
      reads this
    {
      World(Cpu(reg, sreg, sp, pc, mem), (aux0, aux1), currentThread, savedSp)
    }

    ghost predicate Valid()
      reads this
    {
      Sized(View().cpu)
    }

    constructor (c: Cpu, thread: Tid)
      requires Sized(c)
      ensures Valid() && View() == World(c, (0, 0), thread, map[])
    {
      reg, sreg, sp, pc, mem := c.reg, c.sreg, c.sp, c.pc, c.mem;
      aux0, aux1, currentThread, savedSp := 0, 0, thread, map[];
    }

    method Push(r: nat)
      requires Valid() && r < 32
      modifies this`mem, this`sp
      ensures Valid() && View() == old(View()).(cpu := PushByte(old(View()).cpu, old(reg)[r]))
    {
      mem := mem[sp := reg[r]];
      sp := if sp == 0 then 0xFFFF else sp - 1;
    }

    method Pop(r: nat)
      requires Valid() && r < 32
      modifies this`reg, this`sp
      ensures Valid() && View() == old(View()).(cpu := PopReg(old(View()).cpu, r))
    {
      sp := if sp == 0xFFFF then 0 else sp + 1;
      reg := reg[r := mem[sp]];
    }

    /** push r0 to push r31, one after the other. */
    method PushRegisters()
      requires Valid()
      modifies this`mem, this`sp
      ensures Valid() && View() == old(View()).(cpu := PushFrom(old(View()).cpu, 0))
    {
      ghost var start := View();
      for r := 0 to 32
        invariant Valid() && View() == start.(cpu := View().cpu)
        invariant PushFrom(View().cpu, r) == PushFrom(start.cpu, 0)
      {
        Push(r);
      }
    }

    /** pop r31 to pop r0, one after the other. */
    method PopRegisters()
      requires Valid()
      modifies this`reg, this`sp
      ensures Valid() && View() == old(View()).(cpu := PopDown(old(View()).cpu, 32))
    {
      ghost var start := View();
      for r := 32 downto 0
        invariant Valid() && View() == start.(cpu := View().cpu)
        invariant PopDown(View().cpu, r) == PopDown(start.cpu, 32)
      {
        Pop(r);
      }
    }

    /** The compiled function, with what it leaves in registers and memory. */
    method CallChangeHigh(next: Tid, junk: Clobber)
      requires Valid() && |junk.reg| == 32 && |junk.below| <= sp && (next == currentThread || next in savedSp)
      modifies this
      ensures Valid() && View() == ChangeHigh(old(View()), next, junk)
    {
      mem := Overlay(mem, sp, junk.below);
      reg := junk.reg;
      savedSp := savedSp[currentThread := Join(aux1, aux0)];
      if currentThread != next {
        aux0 := Low(savedSp[next]);
        aux1 := High(savedSp[next]);
      }
      currentThread := next;
    }

    method SaveAll()
      requires Valid()
      modifies this
      ensures Valid() && View() == old(View()).(cpu := SaveContext(old(View()).cpu))
    {
      PushRegisters();
      reg := reg[0 := sreg];
      Push(0);
      reg := reg[16 := 0xAB];
      Push(16);
      Push(16);
    }

    method RestoreAll()
      requires Valid()
      modifies this
      ensures Valid() && View() == old(View()).(cpu := RestoreContext(old(View()).cpu))
    {
      Pop(0);
      Pop(16);
      Pop(16);
      sreg := reg[0];
      PopRegisters();
      // reti
      pc := Join(mem[Up(sp)], mem[Up(Up(sp))]);
      sp := Up(Up(sp));
    }

    /** The call instruction leaves the return address on the stack. */
    method PushReturn()
      requires Valid()
      modifies this`mem, this`sp
      ensures Valid() && View() == old(View()).(cpu := Call(old(View()).cpu))
    {
      mem := mem[sp := Low(pc)];
      sp := if sp == 0 then 0xFFFF else sp - 1;
      mem := mem[sp := High(pc)];
      sp := if sp == 0 then 0xFFFF else sp - 1;
    }

    /** do_switch, from its call by thread_start until it calls change_high. */
    method SaveCurrent()
      requires Valid()
      modifies this
      ensures Valid() && View() == Saved(old(View()))
    {
      PushReturn();
      SaveAll();
      aux0 := Low(sp);
      aux1 := High(sp);
    }

    /** do_switch, from its call by thread_start to its reti. */
    method CallDoSwitch(next: Tid, junk: Clobber)
      requires Valid() && |junk.reg| == 32 && |junk.below| <= Saved(View()).cpu.sp
      requires next == currentThread || next in savedSp
      modifies this
      ensures Valid() && View() == DoSwitch(old(View()), next, junk)
    {
      SaveCurrent();
      CallChangeHigh(next, junk);
      sp := Join(aux1, aux0);
      RestoreAll();
    }
  }
}
