/** Fixed-width integer ranges and the failure-carrying datatypes shared by every module. */
module Base {

  type uint8 = x: int | 0 <= x < 0x100
  type uint16 = x: int | 0 <= x < 0x1_0000
  type uint32 = x: int | 0 <= x < 0x1_0000_0000
  type uint64 = x: int | 0 <= x < 0x1_0000_0000_0000_0000

  /** Rust's `Option<T>`. */
  datatype Option<+T> = None | Some(value: T) {
    function GetOr(default: T): T {
      match this
      case Some(v) => v
      case None => default
    }
  }

  /** Rust's `Result<T, E>`. */
  datatype Result<+T, +E> = Success(value: T) | Failure(error: E)

  /** Rust's `Result<(), E>`. */
  datatype Outcome<+E> = Pass | Fail(error: E)

  /** An `std::io::Error`, by its message. */
  datatype IoError = IoError(message: string)
}
