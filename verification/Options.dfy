/** What the components share: a value that may be absent (a Go nil pointer, a missing map key, a
    failed lookup), and the range of an unsigned 64-bit word. */
module Options {
  const U64: int := 0x1_0000_0000_0000_0000

  datatype Option<+T> = None | Some(value: T)
}
