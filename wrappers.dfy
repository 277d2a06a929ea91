/** Optional values and results with an error, used for the C# nulls and thrown exceptions. */
module Wrappers {

  /** `None` stands for C#'s null (or, in a result row, for DBNull). */
  datatype Option<+T> = None | Some(value: T)

  /** The normal return of an operation, or the exception it throws. */
  datatype Result<+T, +E> = Success(value: T) | Failure(error: E)

  /** A `void` operation that returns normally or throws. */
  datatype Outcome<+E> = Pass | Fail(error: E)
}

/** The exceptions the modelled code throws or collects. */
module Faults {

  datatype Fault =
    | TransactionExists          // "transaction exists!" thrown by TransactionBegin
    | NoTransaction              // "transaction doesnt exist!" thrown by commit and rollback
    | IndexOutOfRange            // an ordinal column or a parameter index that is not there
    | ColumnNotFound(name: string) // a reader indexed by a column name it does not have
    | NotAssignable(field: string) // a property setter that rejects the column's value
    | InvalidCast                // a DBNull cell unboxed to a value type
    | ActionThrew                // the caller's action inside DoInTransaction threw
}
