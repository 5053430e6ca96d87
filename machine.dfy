/** Fixed-width machine arithmetic used by the occupancy collector:
    C's `uint32_t`/`uint64_t` wrap-around, the bit composition of the
    time-stamp counter, the core-number mask and the uncore MSR addresses. */
module Machine {

  const TWO_32: int := 0x1_0000_0000
  const TWO_64: int := 0x1_0000_0000_0000_0000

  /** C `uint32_t` */
  type U32 = x: int | 0 <= x < 0x1_0000_0000
  /** C `uint64_t` (and `unsigned long` on the x86-64 target) */
  type U64 = x: int | 0 <= x < 0x1_0000_0000_0000_0000
  /** C `int` */
  type Int32 = x: int | -0x8000_0000 <= x < 0x8000_0000

  /** Unsigned 64-bit subtraction `a - b`: wraps modulo 2^64. */
  function Sub64(a: U64, b: U64): (r: U64)
    ensures (r + b) % TWO_64 == a
    ensures b <= a ==> r == a - b
    ensures a < b ==> r == TWO_64 - (b - a)
  {
    (a - b) % TWO_64
  }

  /** Unsigned 64-bit multiplication `a * b`: wraps modulo 2^64. */
  function Mul64(a: U64, b: U64): (r: U64)
    ensures a * b < TWO_64 ==> r == a * b
    ensures (a * b - r) % TWO_64 == 0
  {
    (a * b) % TWO_64
  }

  /** Unsigned 32-bit pre-increment `++i`: wraps from 2^32 - 1 to 0. */
  function Inc32(i: U32): (r: U32)
    ensures i < TWO_32 - 1 ==> r == i + 1
    ensures i == TWO_32 - 1 ==> r == 0
  {
    (i + 1) % TWO_32
  }

  /** `rdtsc`/`rdtscp` return `a | (d << 32)`, where `a` and `d` are the
      zero-extended EAX and EDX halves of the counter. */
  function Rdtsc(a: bv64, d: bv64): (r: bv64)
    requires a < 0x1_0000_0000 && d < 0x1_0000_0000
    ensures r & 0xFFFF_FFFF == a
    ensures r >> 32 == d
  {
    a | (d << 32)
  }

  /** `get_core_number` keeps the low twelve bits of ECX as set by `rdtscp`
      (the processor id the operating system stores in IA32_TSC_AUX). */
  function CoreNumber(c: bv64): (r: Int32)
    ensures 0 <= r < 0x1000
    ensures r == (c % 0x1000) as int
  {
    var low: bv12 := (c & 0xFFF) as bv12;
    low as int
  }

  const IRP_MSR_PMON_CTL_BASE: int := 0x0A5B
  const IRP_MSR_PMON_CTR_BASE: int := 0x0A59
  /** The event selector written to the control register. */
  const IRP_OCC_VAL: U64 := 0x0040040F

  /** The range of stacks for which `0x20 * stack` does not overflow a C `int`. */
  predicate StackInRange(stack: Int32)
  {
    -0x400_0000 <= stack < 0x400_0000
  }

  /** Address of the IRP occupancy control register of an IIO stack:
      `IRP_MSR_PMON_CTL_BASE + 0x20 * stack`, converted to `uint64_t`. */
  function CtlAddress(stack: Int32): (r: U64)
    requires StackInRange(stack)
    ensures stack >= 0 ==> r == 0x0A5B + 0x20 * stack
    ensures r == 0x0A5B + 0x20 * stack || r == TWO_64 + 0x0A5B + 0x20 * stack
    ensures r % 0x20 == 0x1B
  {
    (IRP_MSR_PMON_CTL_BASE + 0x20 * stack) % TWO_64
  }

  /** Address of the IRP occupancy counter register of an IIO stack:
      `IRP_MSR_PMON_CTR_BASE + 0x20 * stack`, converted to `uint64_t`. */
  function CtrAddress(stack: Int32): (r: U64)
    requires StackInRange(stack)
    ensures stack >= 0 ==> r == 0x0A59 + 0x20 * stack
    ensures r == 0x0A59 + 0x20 * stack || r == TWO_64 + 0x0A59 + 0x20 * stack
    ensures r % 0x20 == 0x19
  {
    (IRP_MSR_PMON_CTR_BASE + 0x20 * stack) % TWO_64
  }

  /** The counter register of a stack sits two below its control register. */
  lemma CounterBelowControl(stack: Int32)
    requires StackInRange(stack)
    ensures CtrAddress(stack) == Sub64(CtlAddress(stack), 2)
  {
  }

  /** Distinct stacks are programmed through distinct registers, and no
      control register of one stack is the counter register of another. */
  lemma AddressesDistinct(s: Int32, t: Int32)
    requires StackInRange(s) && StackInRange(t)
    ensures s != t ==> CtlAddress(s) != CtlAddress(t) && CtrAddress(s) != CtrAddress(t)
    ensures CtlAddress(s) != CtrAddress(t)
  {
  }
}
