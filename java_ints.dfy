/** Java's primitive `int`, as both classes store it. */
module JavaInts {

  /** A Java `int`: a two's-complement 32-bit value. */
  newtype int32 = x: int | -0x8000_0000 <= x < 0x8000_0000

  /** `Integer.MIN_VALUE`, which the stack uses as its "nothing there" sentinel. */
  const MinValue: int32 := -0x8000_0000
}
