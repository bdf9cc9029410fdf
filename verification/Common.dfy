/** What several modules share: optional values, and the ranges of the C integer types. */
module Common {

  datatype Option<T> = None | Some(value: T)

  const U8: nat := 0x100
  const U16: nat := 0x1_0000
  const U32: nat := 0x1_0000_0000
}
