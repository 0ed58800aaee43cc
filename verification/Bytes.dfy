/** Bytes as bit vectors, and the numbers they stand for. */
module Bytes {
  type Byte = bv8

  function ToByte(n: nat): Byte
    requires n < 256
  {
    n as bv8
  }

  function ToNat(b: Byte): (n: nat)
    ensures n < 256
  {
    b as nat
  }
}
