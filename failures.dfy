/** The exceptions the modelled code throws, and the value-or-exception type
    that stands for a C# call that either returns or throws. */
module Failures {

  datatype Exception =
    | ArgumentException        // an argument outside the documented range
    | NotImplementedException  // Color.FromName
    | IndexOutOfRangeException // an array index outside its bounds

  datatype Option<+T> = None | Some(value: T)

  datatype Result<+T> = Ok(value: T) | Err(error: Exception) {
    predicate IsFailure() { Err? }

    function PropagateFailure<U>(): Result<U>
      requires Err?
    {
      Err(error)
    }

    function Extract(): T
      requires Ok?
    {
      value
    }
  }
}
