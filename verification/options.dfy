/** The optional-value wrapper used wherever the original code either returns
    `null`, catches an exception or reports failure through a `Try…` method. */
module Options {

  datatype Option<+T> = None | Some(value: T) {

    /** The wrapped value, or `default` when there is none. */
    function GetOr(default: T): T {
      match this
      case Some(v) => v
      case None => default
    }
  }
}
