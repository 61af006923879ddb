/** Machine-word arithmetic: the source computes sequence numbers, buffer positions
    and timestamps in unsigned 32-bit words, trim lengths in unsigned 16-bit words. */
module Arith {
  const W32: int := 0x1_0000_0000
  const W16: int := 0x1_0000
  const HALF32: int := 0x8000_0000

  newtype Byte = b: int | 0 <= b < 256

  /** Truncation to an unsigned 32-bit word. */
  function U32(x: int): (r: nat)
    ensures r < W32
  {
    x % W32
  }

  /** Truncation to an unsigned 16-bit word. */
  function U16(x: int): (r: nat)
    ensures r < W16
    ensures 0 <= x ==> r <= x
    ensures 0 <= x < W16 ==> r == x
  {
    x % W16
  }

  lemma U32Near(x: int)
    requires -W32 <= x < 2 * W32
    ensures U32(x) == if x < 0 then x + W32 else if x < W32 then x else x - W32
  {
  }

  lemma U32Absorb(x: int, d: int)
    ensures U32(U32(x) + d) == U32(x + d)
  {
  }

  /** Offsets less than 2^32 apart are equal once truncated only if they are equal. */
  lemma U32Injective(x: int, y: int)
    requires -W32 < x - y < W32 && U32(x) == U32(y)
    ensures x == y
  {
    U32Absorb(y, x - y);
    U32Near(U32(y) + (x - y));
  }

  function Min(x: int, y: int): int {
    if x <= y then x else y
  }

  function Max(x: int, y: int): int {
    if x <= y then y else x
  }
}
