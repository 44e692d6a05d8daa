module Numbers {
  /** Unsigned 64-bit numbers are below this. */
  const UINT64_LIMIT := 0x1_0000_0000_0000_0000
}
