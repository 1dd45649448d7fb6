/** The optional-value wrapper used for JavaScript's `undefined`/`null` and for absent fields. */
module Options {

  datatype Option<+T> = None | Some(value: T) {

    /** Returns the wrapped value, or `default` when there is none. */
    function GetOr(default: T): T {
      match this
      case Some(v) => v
      case None => default
    }
  }
}
