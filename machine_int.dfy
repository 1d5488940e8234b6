/**
 * The fixed-width C integers used by the magnetometer code, and the
 * C operations on them whose meaning differs from Dafny's unbounded
 * integers: two's-complement narrowing, wrapping 32-bit subtraction,
 * division that truncates toward zero, and unsigned 32-bit time
 * differences.
 */
module MachineInt {

  const TWO_15: int := 0x8000
  const TWO_16: int := 0x1_0000
  const TWO_31: int := 0x8000_0000
  const TWO_32: int := 0x1_0000_0000

  /** C `int16_t`. */
  type int16 = x: int | -0x8000 <= x < 0x8000

  /** C `int32_t`. */
  type int32 = x: int | -0x8000_0000 <= x < 0x8000_0000

  /** C `uint32_t`, the microsecond clock `currentTime`. */
  type uint32 = x: int | 0 <= x < 0x1_0000_0000

  predicate Fits16(x: int) {
    -TWO_15 <= x < TWO_15
  }

  predicate Fits32(x: int) {
    -TWO_31 <= x < TWO_31
  }

  /**
   * Conversion of an `int32_t` to `int16_t` as the target compiler does it:
   * the value is reduced modulo 2^16 into the signed range.
   */
  function Narrow16(x: int): (r: int16)
    ensures Fits16(x) ==> r == x
    ensures (x - r) % TWO_16 == 0
  {
    (x + TWO_15) % TWO_16 - TWO_15
  }

  /**
   * Signed 32-bit arithmetic as the target executes it: the mathematical
   * result reduced modulo 2^32 into the signed range.
   */
  function Wrap32(x: int): (r: int32)
    ensures Fits32(x) ==> r == x
    ensures (x - r) % TWO_32 == 0
  {
    (x + TWO_31) % TWO_32 - TWO_31
  }

  /** C `a / d` for a positive divisor: the quotient truncated toward zero. */
  function CDiv(a: int, d: int): (q: int)
    requires d > 0
    ensures -d < a - d * q < d
    ensures a >= 0 ==> 0 <= a - d * q
    ensures a <= 0 ==> a - d * q <= 0
  {
    if a >= 0 then a / d else -((-a) / d)
  }

  /** C `a % d` for a positive divisor: the remainder takes the sign of `a`. */
  function CRem(a: int, d: int): (r: int)
    requires d > 0
    ensures d * CDiv(a, d) + r == a
    ensures -d < r < d
    ensures a >= 0 ==> r >= 0
    ensures a <= 0 ==> r <= 0
  {
    a - d * CDiv(a, d)
  }

  /** Unsigned 32-bit subtraction `now - start`, as used for elapsed time. */
  function Elapsed(now: uint32, start: uint32): (e: uint32)
    ensures now >= start ==> e == now - start
    ensures now < start ==> e == now - start + TWO_32
  {
    (now - start) % TWO_32
  }

  /** The value a free-running 32-bit clock shows at true time `t`. */
  function Clock(t: nat): uint32 {
    t % TWO_32
  }

  /**
   * Wrap safety: however many times the clock has wrapped, the unsigned
   * difference of two clock readings is the true elapsed time, as long as
   * that time is below 2^32.
   */
  lemma ElapsedIsTrueTime(start: nat, elapsed: nat)
    requires elapsed < TWO_32
    ensures Elapsed(Clock(start + elapsed), Clock(start)) == elapsed
  {
  }
}
