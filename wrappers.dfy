/** Option and Result values shared by every module of the model.
    A Python function that raises is modelled as returning `Err` with the
    class of the exception it raises. */
module Wrappers {

  datatype Option<+T> = None | Some(value: T)

  /** The Python exception classes that the modelled code can raise. */
  datatype PyError =
    | TypeError
    | ValueError
    | KeyError
    | IndexError
    | ZeroDivisionError
    | NameError
    | AttributeError
    | OverflowError
    | Exception

  datatype Result<+T> = Ok(value: T) | Err(error: PyError) {
    predicate IsFailure() {
      Err?
    }

    function PropagateFailure<U>(): Result<U>
      requires Err?
    {
      Err(error)
    }

    function Extract(): T
      requires Ok?
    {
      value
    }
  }
}
