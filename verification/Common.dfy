/** Types the modules share. */
module Common {

  datatype Option<+T> = None | Some(value: T)

  function Min(a: int, b: int): int {
    if a < b then a else b
  }

  function Max(a: int, b: int): int {
    if a < b then b else a
  }

  /** A source address, by family and numeric value. */
  datatype IpAddr = V4(address: nat) | V6(address: nat)

  /** The modulus of the 32-bit counters. */
  const U32_MODULUS := 0x1_0000_0000

  type U32 = n: nat | n < U32_MODULUS

  type Byte = n: nat | n < 256
}
