/**
 The optional values of the application: a JavaScript `undefined` or `null`
 becomes `None`, a present value `Some(v)`.
 */
module Options {

  datatype Option<+T> = None | Some(value: T) {

    /** The value if present, otherwise `default` (JavaScript's `x ?? default`). */
    function GetOr(default: T): T {
      match this
      case Some(v) => v
      case None => default
    }
  }
}
