/** Result shapes shared by the model: a lookup that may find nothing, and an
    operation that may fail instead of producing a value. */
module Wrappers {

  /** A value or its absence; `None` plays the part of a null reference. */
  datatype Option<+T> = None | Some(value: T)

  /** The exceptions the modelled operations can raise. */
  datatype Error =
    /** A LINQ operator was applied to a null source sequence. */
    | ArgumentNull

  /** Either the value an operation returns or the exception it raises. */
  datatype Result<+T> = Success(value: T) | Failure(error: Error)
}
