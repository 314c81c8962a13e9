/** Failure-carrying results for the engine: every exception the interpreter can raise
    becomes an `Err` with the kind of error the source raises. */
module Results {

  /** The exceptions the engine can raise, by kind. */
  datatype Error =
    | AssertionFailed      // `assert self.can_compare(other)` in ValueClass.__lt__
    | OrderOnString        // `__lt__` on two strings
    | UnsupportedOperator  // `comp` with an operator outside {=, !=, <, >}
    | ParseFailure         // int(...), float(...) or datetime.date(...) rejected the text
    | MissingKeyAndType    // `_parse_key_value` called with neither key nor type
    | KeyNotFound          // a plain dict lookup (`key_type[k]`, `entities[id]`) failed
    | IndexOutOfRange      // a list index (`branch_stack[-1]`, `most_common()[0]`, `sort[0]`) failed
    | UnknownOperation     // `getattr(self, p)` found no operation of that name
    | ArityMismatch        // the operation was called with the wrong number of arguments
    | WrongRegisterKind    // an operation received a register of the wrong shape

  datatype Result<+T> = Ok(value: T) | Err(error: Error) {

    predicate IsFailure() {
      Err?
    }

    function PropagateFailure<U>(): Result<U>
      requires Err?
    {
      Err(error)
    }

    function Extract(): T
      requires Ok?
    {
      value
    }
  }

  datatype Option<+T> = None | Some(value: T)
}
