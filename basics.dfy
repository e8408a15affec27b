/** Small building blocks shared by every module of the model. */
module Basics {

  /** The conventional Some/None wrapper for an operation that can fail. */
  datatype Option<+T> = None | Some(value: T)

  /** Bounds of Go's 64-bit signed integers (`int64`, and `int` on 64-bit targets). */
  const MinInt64: int := -0x8000_0000_0000_0000
  const MaxInt64: int := 0x7fff_ffff_ffff_ffff

  type int64 = x: int | MinInt64 <= x <= MaxInt64

  /** A byte of a Go `[]byte`. */
  type byte = x: int | 0 <= x < 256
}
