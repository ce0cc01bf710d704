/** The widths of the program's numbers. */
module Words {
  type Byte = b: int | 0 <= b < 256

  const TWO_32: nat := 0x1_0000_0000
  const TWO_64: nat := 0x1_0000_0000_0000_0000
}
