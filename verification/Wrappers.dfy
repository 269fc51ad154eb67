/** Small datatypes and types shared by every module. */
module Wrappers {

  datatype Option<+T> = None | Some(value: T)

  datatype Result<+T, +E> = Ok(value: T) | Err(error: E)

  type byte = x: int | 0 <= x < 256

  type Bytes = seq<byte>

  type u64 = x: int | 0 <= x < 0x1_0000_0000_0000_0000
}
