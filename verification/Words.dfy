/** The numbers that 64-bit words stand for, digit by digit. */
module Words {
  function Bit(x: bv64, mask: bv64): nat {
    if x & mask != 0 then 1 else 0
  }

  /** The number in the lowest nine bits, which is one table index. */
  function Low9(x: bv64): (r: nat)
    ensures r < 512
  {
    Bit(x, 1) + 2 * Bit(x, 2) + 4 * Bit(x, 4) + 8 * Bit(x, 8) + 16 * Bit(x, 16) + 32 * Bit(x, 32) +
    64 * Bit(x, 64) + 128 * Bit(x, 128) + 256 * Bit(x, 256)
  }

  /** A number from its digits, six of base 512. */
  function Digits(d1: nat, d2: nat, d3: nat, d4: nat, d5: nat, d6: nat): nat {
    d1 + 0x200 * d2 + 0x4_0000 * d3 + 0x800_0000 * d4 + 0x10_0000_0000 * (d5 + 0x200 * d6)
  }

  /** The page a word points into: its bits from 12 up, as one number. */
  function PageNumber(a: bv64): nat {
    Digits(Low9((a >> 12) & 511), Low9((a >> 21) & 511), Low9((a >> 30) & 511), Low9((a >> 39) & 511),
           Low9((a >> 48) & 511), Low9((a >> 57) & 127))
  }

  /** The number a word stands for. */
  function Value(a: bv64): nat {
    Low9(a & 511) + 512 * Low9((a >> 9) & 7) + 4096 * PageNumber(a)
  }

  lemma {:induction false} SmallDigit(x: bv64)
    requires x < 8
    ensures Low9(x) < 8
  {
    assert x & 8 == 0 && x & 16 == 0 && x & 32 == 0 && x & 64 == 0 && x & 128 == 0 && x & 256 == 0;
  }

  /** Dividing by the page size leaves the page number. */
  lemma ValuePage(a: bv64)
    ensures Value(a) / 4096 == PageNumber(a)
  {
    assert (a >> 9) & 7 < 8;
    SmallDigit((a >> 9) & 7);
  }
}
