/** Network addresses as their numeric value. */
module Addresses {

  type U32Bits = x: nat | x < 0x1_0000_0000
  type U128Bits = x: nat | x < 0x1_0000_0000_0000_0000_0000_0000_0000_0000

  datatype IpAddr = V4(bits: U32Bits) | V6(wide: U128Bits)
}
