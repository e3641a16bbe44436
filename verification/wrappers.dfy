/** Option and Result values for the model, and the Python exceptions that the
    modelled code raises or catches. */
module Wrappers {

  /** Python's `None` versus a present value. */
  datatype Option<+T> = None | Some(value: T)

  /** The Python exception classes that the modelled code can raise. */
  datatype PyError =
    | ValueError          // a two-way unpack that gets too many or too few values
    | IndexError          // `pop()` on an empty list, or a tuple index out of range
    | AttributeError      // a method called on `None`
    | TypeError           // `None[0]`
    | UnboundLocalError   // a local read before any assignment
    | OSError             // a failed file copy

  /** A computation that either returns a value or raises. */
  datatype Result<+T> = Success(value: T) | Failure(error: PyError)

  /** A value placed in a recipe dictionary that is written out as a CSV row:
      a string, Python's `None`, or `repr` of a string (left unevaluated,
      because it depends on Python's literal escaping). */
  datatype Cell = Str(s: string) | NoneValue | ReprOf(of: string)
}
