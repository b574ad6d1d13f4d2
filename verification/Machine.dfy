/** The width of the processor's registers. */
module Machine {
  const WORD: nat := 0x1_0000_0000    // 2^32
}
