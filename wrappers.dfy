/** Option and Result, the two wrappers the model uses for nullable columns and error paths. */
module Wrappers {

  /** A nullable value: `None` stands for SQL NULL, JavaScript `null` or `undefined`. */
  datatype Option<+T> = None | Some(value: T) {
    function GetOr(default: T): T {
      match this
      case Some(v) => v
      case None => default
    }
  }

  /** Either a value or the error that stopped the computation. */
  datatype Result<+R, +E> = Success(value: R) | Failure(error: E)
}
