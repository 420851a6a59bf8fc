/** Small shared datatypes: an optional value, as the sources use `undefined`/`None`/`null`. */
module Common {

  datatype Option<+T> = None | Some(value: T) {
    function GetOr(default: T): T {
      match this
      case Some(v) => v
      case None => default
    }
  }
}
