/** The unsigned integer widths of the binary font format. Arithmetic on them
    is unbounded in Dafny; where the source could overflow, the model says so
    explicitly. */
module FixedWidth {

  type u8 = x: int | 0 <= x < 0x100

  type u16 = x: int | 0 <= x < 0x1_0000

  type u32 = x: int | 0 <= x < 0x1_0000_0000

  const U16_MAX: int := 0xFFFF
}
