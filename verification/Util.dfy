module Util {
  /** 64-bit arithmetic wraps: the kernel is built without overflow checks. */
  const WORD: nat := 0x1_0000_0000_0000_0000

  type Word = n: nat | n < WORD

  /** `round_up_divide`. */
  function RoundUpDivide(x: nat, y: nat): nat
    requires y > 0
  {
    (x + y - 1) / y
  }
}
