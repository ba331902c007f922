/** Values shared by every part of the model. */
module Common {

  datatype Option<+T> = None | Some(value: T)

  datatype Result<+T> = Ok(value: T) | Err(error: Error)

  /** Go's error values, as far as the code tells them apart. */
  datatype Error =
    | Internal(what: string)                  // a precondition of the code itself was not met
    | Remote(what: string)                    // a call outside the process failed
    | Canceled                                // context.Canceled
    | Wrapped(context: string, cause: Error)  // fmt.Errorf("context: %w", cause)

  /** The innermost cause is one of the code's own precondition errors. */
  predicate IsInternal(e: Error) {
    match e
    case Internal(_) => true
    case Wrapped(_, cause) => IsInternal(cause)
    case _ => false
  }

  /** The last element of the second part set apart. */
  lemma LastApart<T>(a: seq<T>, b: seq<T>)
    requires b != []
    ensures b == b[..|b| - 1] + [b[|b| - 1]] && a + b == (a + b[..|b| - 1]) + [b[|b| - 1]]
  {
  }

  lemma Reassociate<T>(a: seq<T>, b: seq<T>, c: seq<T>)
    ensures (a + b) + c == a + (b + c)
  {
  }

  /** The first of four parts set apart. */
  lemma Regroup<T>(a: seq<T>, b: seq<T>, c: seq<T>, d: seq<T>)
    ensures a + b + c + d == a + (b + c + d)
  {
  }
}
