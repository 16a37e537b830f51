/** Small shared vocabulary: optional values, Go's fixed-width integers, errors. */
module Common {

  /** Go's `nil`-or-value, as used for optional responses and errors. */
  datatype Option<+T> = None | Some(value: T)

  /** The largest value of Go's `uint32`. */
  const UINT32_MAX: nat := 0xFFFF_FFFF

  /** Go's `uint32`: unbounded integers restricted to the 32-bit range. */
  type uint32 = x: int | 0 <= x <= UINT32_MAX

  /** Go's `byte`. */
  type byte = x: int | 0 <= x < 256

  /** A Go `error` value; only its message is observable. */
  datatype Error = Error(message: string)
}
