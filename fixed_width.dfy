/** The fixed-width integer types of <stdint.h> that the buffer code uses. */
module FixedWidth {
  const INT32_MIN: int := -0x8000_0000
  const INT32_MAX: int := 0x7FFF_FFFF

  type uint8 = i: int | 0 <= i < 0x100
  type uint32 = i: int | 0 <= i < 0x1_0000_0000

  /** A value representable as int32_t; signed overflow is undefined in C, so operands must stay in range. */
  predicate IsInt32(i: int) {
    INT32_MIN <= i <= INT32_MAX
  }
}
