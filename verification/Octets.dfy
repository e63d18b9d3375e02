/** Bytes, and their values as numbers. */
module Octets {
  type Byte = bv8

  lemma ByteValue(n: int)
    requires 0 <= n < 0x100
    ensures (n as Byte) as int == n
  {
  }
}
