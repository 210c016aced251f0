/** The "maybe absent" value that the TypeScript code expresses with
    `undefined` (a failed `find`, a missing record key, `NaN` from parsing). */
module Opt {

  datatype Option<+T> = None | Some(value: T) {

    /** The wrapped value, or `default` when absent (the `x || default` idiom). */
    function GetOr(default: T): T {
      match this
      case Some(v) => v
      case None => default
    }
  }
}
