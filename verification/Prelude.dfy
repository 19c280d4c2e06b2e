/** Types shared by every module of the model. */
module Prelude {

  /** One byte of memory, of a container file or of a quantised tensor. */
  type Byte = bv8

  /** 2^32: the range of the source's `u32`. */
  const TWO32: nat := 0x1_0000_0000

  /** 2^64: the range of the source's `usize` and `u64`. */
  const TWO64: nat := 0x1_0000_0000_0000_0000

  datatype Option<+T> = None | Some(value: T)

  /** A value, or the reason an operation refused. */
  datatype Result<+T, +E> = Ok(value: T) | Err(error: E)
}
