/** The optional value used wherever the Python code returns `None` or a value. */
module Opt {

  datatype Option<+T> = None | Some(value: T) {
    function GetOr(default: T): T {
      match this
      case Some(v) => v
      case None => default
    }
  }
}
