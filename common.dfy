/** Small shared vocabulary: the `Option` type that Rust's `Option<T>` maps onto,
    and the string type used for paths, URIs and messages. */
module Common {

  /** Strings are sequences of characters; no encoding is modelled. */
  type Str = seq<char>

  datatype Option<+T> = None | Some(value: T) {

    /** Rust's `Option::and_then`. */
    function AndThen<U>(f: T -> Option<U>): Option<U> {
      match this
      case None => None
      case Some(v) => f(v)
    }

    /** Rust's `Option::unwrap_or`. */
    function UnwrapOr(default: T): T {
      match this
      case None => default
      case Some(v) => v
    }
  }
}
