/** The result types shared by every component: a value that may be absent, and a value or the reason there is none. */
module Basics {

  datatype Option<+T> = None | Some(value: T) {
    function Or(default: T): T {
      if Some? then value else default
    }
  }

  datatype Result<+T, +E> = Ok(value: T) | Err(error: E)
}
