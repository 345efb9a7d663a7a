/** JavaScript value conventions the handlers and schemas rely on. */
module Js {

  /** An optional value: None stands for `undefined` or `null`. */
  datatype Option<+T> = None | Some(value: T) {

    /** The value, or `default` when absent (`x || default`, a schema default). */
    function GetOr(default: T): T {
      match this
      case Some(v) => v
      case None => default
    }
  }

  /** A string is truthy when it is present and non-empty. Mongoose's `required`
      check on a String path is the same test. */
  predicate Truthy(v: Option<string>) {
    v.Some? && v.value != ""
  }

  /** A number (a millisecond timestamp here) is truthy when present and non-zero. */
  predicate TruthyNumber(v: Option<int>) {
    v.Some? && v.value != 0
  }
}
