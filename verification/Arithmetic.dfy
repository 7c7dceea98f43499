/** Machine words and the integer arithmetic that several models share. */
module Arithmetic {
  const INT_MAX := 0x7FFF_FFFF
  const TWO32 := 0x1_0000_0000
  const TWO64 := 0x1_0000_0000_0000_0000

  lemma AddMod32(x: int, y: int)
    ensures (x % TWO32 + y) % TWO32 == (x + y) % TWO32
  {
  }

  lemma AddMod64(x: int, y: int)
    ensures (x % TWO64 + y) % TWO64 == (x + y) % TWO64
  {
  }

  /** A sum as 32-bit arithmetic leaves it. */
  function Wrap32(x: int): int {
    (x + 0x8000_0000) % 0x1_0000_0000 - 0x8000_0000
  }

  /** Integer division of C++, which rounds toward zero. */
  function TruncDiv(a: int, b: int): int
    requires b > 0
  {
    if a >= 0 then a / b else -(-a / b)
  }

  lemma SameSplit(g: nat, k: nat, h: nat, m: nat, stride: nat)
    requires g < stride && h < stride && g + k * stride == h + m * stride
    ensures g == h && k == m
  {
    if k < m {
      Grows(k + 1, m, stride);
    } else if m < k {
      Grows(m + 1, k, stride);
    }
  }

  lemma Grows(k: nat, m: nat, stride: nat)
    requires k <= m
    ensures k * stride <= m * stride && k * stride == (k - 1) * stride + stride
  {
  }
}
