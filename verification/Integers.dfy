/** Machine integers. They are types of their own, so that values which are only stored, moved and
    compared stay whole; the bits are taken out where the code computes with them. */
module Integers {
  datatype U8 = U8(bits: bv8)
  datatype U32 = U32(bits: bv32)
}
