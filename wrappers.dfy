/** Option and Result, the shapes every service below uses for Java's
    nullable references and thrown RuntimeExceptions. */
module Wrappers {

  datatype Option<+T> = None | Some(value: T) {
    function GetOr(default: T): T {
      match this
      case Some(v) => v
      case None => default
    }
  }

  /** `Err` stands for the RuntimeException a service throws; the whole
      transaction is then rolled back. */
  datatype Result<+T, +E> = Ok(value: T) | Err(error: E)
}
