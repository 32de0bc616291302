/** The Option datatype used for the calculator's "no value" results: the rate the
    solver could not find and the undefined compound-equivalent rate. */
module Wrappers {

  datatype Option<+T> = None | Some(value: T) {

    /** Returns the value encapsulated in Some or a default value if None */
    function GetOr(default: T): T {
      match this
      case Some(v) => v
      case None() => default
    }
  }
}
