/**
The machine's integers, and places on a ring.
*/
module Basics {

  const TWO32 := 0x1_0000_0000

  type Byte = x: int | 0 <= x < 256
  type Uint = x: int | 0 <= x < TWO32

  /** The place after k on a ring of n. */
  function Succ(k: nat, n: nat): nat
    requires k < n
  {
    if k + 1 == n then 0 else k + 1
  }
}
