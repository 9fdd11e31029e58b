module Wrappers {
  datatype Option<+T> = None | Some(value: T)

  /** The .NET exceptions the modelled code lets escape. */
  datatype Exception = IndexOutOfRange | ArgumentError | FormatError | Overflow | NullReference

  datatype Result<+T> = Ok(value: T) | Throws(error: Exception) {
    predicate IsFailure() { Throws? }
    function PropagateFailure<U>(): Result<U>
      requires Throws?
    {
      Throws(error)
    }
    function Extract(): T
      requires Ok?
    {
      value
    }
  }
}
