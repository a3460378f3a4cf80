/** Shared value types. */
module Basics {
  datatype Option<+T> = None | Some(value: T) {
    function GetOr(default: T): T {
      if Some? then value else default
    }
  }

  /** One octet, as a mathematical integer. */
  type byte = b: int | 0 <= b < 256
}
