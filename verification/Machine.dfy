/** Unsigned machine integers. */
module Machine {
  type Word16 = w: int | 0 <= w < 0x1_0000
  type Word32 = w: int | 0 <= w < 0x1_0000_0000
  type Word64 = w: int | 0 <= w < TWO_64

  const TWO_64: int := 0x1_0000_0000_0000_0000
}
