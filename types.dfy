/**
 * Machine integer types used by the frame callback and by the tracker glue.
 * Rust's `u8` and `u32` and C++'s `int32_t` are unbounded integers restricted
 * to their ranges, so every arithmetic step that could overflow in the program
 * has to be shown to stay in range.
 */
module MachineWords {

  const U32Limit: int := 0x1_0000_0000

  newtype u8 = x: int | 0 <= x < 0x100
  newtype u32 = x: int | 0 <= x < 0x1_0000_0000
  newtype i32 = x: int | -0x8000_0000 <= x < 0x8000_0000

  /** The `u32` a 32-bit two's-complement `int32_t` reads as when the same
      four bytes are seen through a `u32` pointer. */
  function AsU32(v: i32): (w: u32)
    ensures 0 <= v ==> w as int == v as int
    ensures v < 0 ==> w as int == v as int + U32Limit
    ensures (w as int - v as int) % U32Limit == 0
  {
    if v < 0 then (v as int + U32Limit) as u32 else v as int as u32
  }

  /** The `u32` whose bits are read back as the given `int32_t`; the inverse of AsU32. */
  function AsI32(w: u32): (v: i32)
    ensures w as int < 0x8000_0000 ==> v as int == w as int
  {
    if w as int < 0x8000_0000 then w as int as i32 else (w as int - U32Limit) as i32
  }

  lemma AsU32RoundTrip(v: i32, w: u32)
    ensures AsI32(AsU32(v)) == v
    ensures AsU32(AsI32(w)) == w
  {
  }
}
