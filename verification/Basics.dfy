/** Small definitions that several modules share. */
module Basics {

  datatype Option<T> = None | Some(value: T)

  type byte = b: int | 0 <= b < 0x100

  const NANOS_PER_SECOND := 1_000_000_000
}
