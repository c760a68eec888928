/** Option and Result, plus the .NET exceptions the modelled code can raise. */
module Wrappers {

  datatype Option<+T> = None | Some(value: T) {
    function GetOr(default: T): T {
      match this
      case Some(v) => v
      case None => default
    }
  }

  /** The exceptions thrown by the modelled members, as values. */
  datatype Error =
    | ArgumentNull(paramName: string)   // System.ArgumentNullException
    | NotImplemented                    // System.NotImplementedException
    | NotSupported                      // System.NotSupportedException
    | NullReference                     // dereferencing a null reference
    | NoSuchAttribute                   // reading an attribute slot the element does not have

  datatype Result<+T> = Success(value: T) | Failure(error: Error)
}
