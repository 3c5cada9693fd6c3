/** Optional values and error results, used wherever the notebooks either
    return Python's None or abort the cell with an exception. */
module Wrappers {

  datatype Option<+T> = None | Some(value: T) {
    function GetOr(default: T): (v: T) {
      match this
      case Some(v) => v
      case None => default
    }
  }

  /** The exception a notebook cell would raise, or the value it computes. */
  datatype Result<+T> = Ok(value: T) | Err(error: Error)

  datatype Error =
    | UnboundName(name: string)   // NameError / UnboundLocalError
    | IndexOutOfRange             // IndexError on `xs[-1]` of an empty list
    | ZeroRangeStep               // ValueError: range() arg 3 must not be zero
    | InvalidLiteral              // ValueError from int(s, 16)
}
