/** Bit operations that several parts of the model share. */
module Bits {

  function Xor32(a: bv32, b: bv32): bv32 { a ^ b }
}
