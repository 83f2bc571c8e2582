/** Fixed-width integer types of the CoIoT layer, as ranges of `int`. */
module Types {
  /** One octet of a CoAP option value (`u8`). */
  type byte = b: int | 0 <= b < 0x100

  /** A CoAP option number or a 16-bit option field (`u16`). */
  type u16 = n: int | 0 <= n < 0x1_0000

  /** Block ids, sensor ids and channels (`u32`). */
  type u32 = n: int | 0 <= n < 0x1_0000_0000
}
