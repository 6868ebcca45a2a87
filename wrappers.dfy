/**
 * Option: a value that may be absent (JavaScript's `undefined`, or NaN for
 * numbers); and the re-bracketing of sequence concatenation that loops
 * appending to a log need.
 */
module Wrappers {

  datatype Option<+T> = None | Some(value: T) {

    /** The value, or `default` when absent. */
    function GetOr(default: T): T {
      match this
      case Some(v) => v
      case None => default
    }
  }

  /** Concatenation is associative; the solver does not always re-bracket on its own. */
  lemma AppendAssoc<T>(a: seq<T>, b: seq<T>, c: seq<T>)
    ensures (a + b) + c == a + (b + c)
  {
  }
}
