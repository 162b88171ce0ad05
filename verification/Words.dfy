/** Machine integers of the source, as ranges of the integers. */
module Words {
  type UInt64 = x: int | 0 <= x < 0x1_0000_0000_0000_0000
  type Int64 = x: int | -0x8000_0000_0000_0000 <= x < 0x8000_0000_0000_0000
}
