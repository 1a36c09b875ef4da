// Optional values, results and row identifiers, as every module here uses them.
module Wrappers {

  datatype Option<+T> = None | Some(value: T)

  // The exceptions the operations raise.
  datatype Error =
    | StorageError
    | PageFull
    | RecordNotFound
    | DuplicateKey
    | KeyNotFound
    | KeyTooLong
    | ParseError
    | LogicalError
    | TypeError

  // A row's page and slot in its table's heap file.
  datatype Rid = Rid(page: nat, slot: nat)

  // A column value: an int, a string or null.
  datatype Value = IntValue(i: int) | TextValue(s: string) | NullValue

  datatype Result<+T> = Ok(value: T) | Err(error: Error) {
    predicate IsFailure() {
      Err?
    }

    function PropagateFailure<U>(): Result<U>
      requires IsFailure()
    {
      Err(error)
    }

    function Extract(): T
      requires !IsFailure()
    {
      value
    }
  }
}
