/** Arithmetic on machine integers that several modules share. */
module Numbers {
  /** One more than the largest 32-bit and 64-bit value. */
  const U32 := 0x1_0000_0000
  const U64 := 0x1_0000_0000_0000_0000

  function Min(x: nat, y: nat): nat {
    if x <= y then x else y
  }

  function Max(x: nat, y: nat): nat {
    if x >= y then x else y
  }

  /** `saturating_sub` of unsigned integers. */
  function Monus(x: nat, y: nat): nat {
    if x >= y then x - y else 0
  }
}
