/** Optional values and the one error the script can raise on the table:
    a lookup of a column that is not there (pandas' `KeyError`). */
module Wrappers {

  datatype Option<+T> = None | Some(value: T)

  datatype Result<+T> = Ok(value: T) | KeyError(column: string) {

    predicate IsFailure()
    {
      KeyError?
    }

    function PropagateFailure<U>(): Result<U>
      requires KeyError?
    {
      KeyError(column)
    }

    function Extract(): T
      requires Ok?
    {
      value
    }
  }
}
