/** Small shared vocabulary: optional values and bytes. */
module Basics {

  datatype Option<T> = None | Some(value: T)

  type uint8 = x: int | 0 <= x < 256

  type Bytes = seq<uint8>
}
