/**
 * Fixed-width integers of the 32-bit ARM target and the C arithmetic the
 * stager does on them: unsigned addition and subtraction wrap modulo 2^32,
 * and `ROUNDUP(v, PAGE_SIZE)` rounds up to a page boundary in that width.
 */
module Uint32 {

  const TWO_32: int := 0x1_0000_0000

  type uint8 = x: int | 0 <= x < 0x100
  type uint16 = x: int | 0 <= x < 0x1_0000
  type uint32 = x: int | 0 <= x < TWO_32
  /** `int` and `long` are both 32 bits wide on the target. */
  type int32 = x: int | -0x8000_0000 <= x < 0x8000_0000

  const PAGE_SIZE: uint32 := 4096

  /** Unsigned `a + b` on uint32_t: the true sum, less 2^32 when it does not fit. */
  function Add32(a: uint32, b: uint32): (r: uint32)
    ensures a + b < TWO_32 ==> r == a + b
    ensures a + b >= TWO_32 ==> r == a + b - TWO_32
  {
    (a + b) % TWO_32
  }

  /** Unsigned `a - b` on uint32_t: the true difference, plus 2^32 when it is negative. */
  function Sub32(a: uint32, b: uint32): (r: uint32)
    ensures b <= a ==> r == a - b
    ensures a < b ==> r == a - b + TWO_32
    ensures Add32(r, b) == a
  {
    (a - b) % TWO_32
  }

  /**
   * `x & ~(PAGE_SIZE - 1)`: PAGE_SIZE is a power of two, so the mask clears
   * the bits below it, which is rounding down to a multiple of PAGE_SIZE.
   */
  function PageMask(x: uint32): (r: uint32)
    ensures r % PAGE_SIZE == 0
    ensures r <= x < r + PAGE_SIZE
  {
    x - x % PAGE_SIZE
  }

  /** 2^32 is a multiple of PAGE_SIZE, so a wrapped sum of page-aligned values stays page aligned. */
  lemma Add32Aligned(a: uint32, b: uint32)
    requires a % PAGE_SIZE == 0 && b % PAGE_SIZE == 0
    ensures Add32(a, b) % PAGE_SIZE == 0
  {
    var ka, kb := a / PAGE_SIZE, b / PAGE_SIZE;
    assert a + b == PAGE_SIZE * (ka + kb);
    if a + b >= TWO_32 {
      assert Add32(a, b) == PAGE_SIZE * (ka + kb - 0x10_0000);
    }
  }

  /**
   * `ROUNDUP(v, PAGE_SIZE)`, which is `(v + (PAGE_SIZE - 1)) & ~(PAGE_SIZE - 1)`
   * in uint32_t. The result is always page aligned. Unless `v + PAGE_SIZE - 1`
   * wraps, it is the least page-aligned value at or above `v` (so it leaves an
   * aligned value alone); the few values above the last page boundary wrap to 0.
   */
  function RoundUp(v: uint32): (r: uint32)
    ensures r % PAGE_SIZE == 0
    ensures v <= TWO_32 - PAGE_SIZE ==> v <= r < v + PAGE_SIZE
    ensures v % PAGE_SIZE == 0 ==> r == v
    ensures v > TWO_32 - PAGE_SIZE ==> r == 0
  {
    PageMask(Add32(v, PAGE_SIZE - 1))
  }
}
