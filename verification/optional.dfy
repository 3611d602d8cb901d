/** A nullable value: `None` plays the part of JavaScript's `null`/`undefined`
    in the tracker, and of `NaN` where a number computation has no value. */
module Optional {

  datatype Option<+T> = None | Some(value: T) {

    /** The value, or `default` when there is none. */
    function GetOr(default: T): T {
      match this
      case Some(v) => v
      case None => default
    }
  }
}
