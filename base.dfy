/** Shared wrappers: optional values, results, and the Python exceptions the
    modelled code can raise. */
module Base {

  datatype Option<+T> = None | Some(value: T)

  /** The exceptions raised by the modelled code. A Python exception that
      escapes a call becomes an `Err` result carrying its kind. */
  datatype Error =
    | ValueError       // explicit `raise ValueError`, or a failed unpacking / conversion
    | IndexError       // indexing past the end of a list or string
    | KeyError         // missing dictionary key
    | TypeError        // subscripting a relationship mapping that was never set (None)
    | AttributeError   // attribute read on a missing relationship (None)
    | StopIteration    // `next` on an exhausted iterator
    | UniqueViolation  // a uniqueness constraint violated on a plain `save()`

  datatype Result<+T> = Ok(value: T) | Err(error: Error)

  /** Concatenation regrouped, stated once for the solver. */
  lemma Regroup<T>(a: seq<T>, b: seq<T>, c: seq<T>)
    ensures a + b + c == a + (b + c)
  {
  }

  /** A non-empty sequence is its prefix and its last element. */
  lemma Snoc<T>(s: seq<T>)
    requires |s| > 0
    ensures s == s[..|s| - 1] + [s[|s| - 1]]
  {
  }
}
