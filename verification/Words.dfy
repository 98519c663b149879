/** The machine words of the kernel: the widths declared in rtthreads_internals.h,
    with the wrap-around of C's unsigned arithmetic and the two's complement wrap
    that the AVR gives to the signed counters. */
module Words {

  datatype Option<+T> = None | Some(value: T)

  type u8 = x: int | 0 <= x < 0x100
  type u32 = x: int | 0 <= x < 0x1_0000_0000
  type i16 = x: int | -0x8000 <= x < 0x8000
  type i32 = x: int | -0x8000_0000 <= x < 0x8000_0000

  /** An unbounded tick count as the 32-bit counter shows it. */
  function Word(ticks: int): u32 {
    ticks % 0x1_0000_0000
  }

  /** How many times the 32-bit counter has wrapped by then. */
  function Lap(ticks: int): int {
    ticks / 0x1_0000_0000
  }

  function Add32(a: u32, b: u32): u32 {
    if a + b < 0x1_0000_0000 then a + b else a + b - 0x1_0000_0000
  }

  function Sub32(a: u32, b: u32): u32 {
    if b <= a then a - b else a - b + 0x1_0000_0000
  }

  /** The two's complement reading of an unbounded count. */
  function AsInt32(x: int): i32 {
    (x + 0x8000_0000) % 0x1_0000_0000 - 0x8000_0000
  }

  function Inc32(x: i32): i32 {
    if x == 0x7FFF_FFFF then -0x8000_0000 else x + 1
  }

  function Dec32(x: i32): i32 {
    if x == -0x8000_0000 then 0x7FFF_FFFF else x - 1
  }

  function AsInt16(x: int): i16 {
    (x + 0x8000) % 0x1_0000 - 0x8000
  }

  function Inc16(x: i16): i16 {
    if x == 0x7FFF then -0x8000 else x + 1
  }

  /** Word arithmetic is arithmetic on ticks seen through a 32-bit window. */
  lemma WordAdd(a: int, b: int)
    ensures Word(a + b) == Add32(Word(a), Word(b))
  {
  }

  lemma WordSub(a: int, b: int)
    ensures Word(a - b) == Sub32(Word(a), Word(b))
  {
  }

  /** Two ticks less than a wrap apart look the same only when they are the same. */
  lemma WordInjective(a: int, b: int)
    requires a <= b < a + 0x1_0000_0000
    ensures Word(a) == Word(b) <==> a == b
    ensures Sub32(Word(b), Word(a)) == b - a
  {
  }

  lemma WordSmall(x: int)
    requires x >= 0
    ensures Word(x) <= x && (x < 0x1_0000_0000 ==> Word(x) == x)
  {
  }

  lemma Count32(x: int)
    ensures AsInt32(x + 1) == Inc32(AsInt32(x))
    ensures AsInt32(x - 1) == Dec32(AsInt32(x))
    ensures -0x8000_0000 <= x < 0x8000_0000 ==> AsInt32(x) == x
  {
  }

  lemma Count16(x: int)
    ensures AsInt16(x + 1) == Inc16(AsInt16(x))
    ensures AsInt16(x) > -0x8000 ==> AsInt16(x - 1) == AsInt16(x) - 1
    ensures -0x8000 <= x < 0x8000 ==> AsInt16(x) == x
  {
  }
}
