/** Failure-carrying values shared by the router and the relocator: optional values,
    results of reading a JSON field, the faults an SDK call can end with, and the
    exceptions the function can let escape. */
module Outcomes {

  datatype Option<+T> = None | Some(value: T)

  /** The outcome of a step that may throw: a value, or the exception it throws. */
  datatype Result<+T> = Ok(value: T) | Err(error: Exn)

  /** How one call into the storage SDK ends. The model does not simulate the
      storage service: whether a call fails is an input. */
  datatype Fault = NoFault | RequestFailure | OtherFailure

  /** The exceptions the function can raise, by .NET type. */
  datatype Exn =
    | RequestFailed       // Azure.RequestFailedException, raised by a storage call
    | OtherSdkError       // any other exception out of the SDK (credential, cancellation, ...)
    | JsonError           // System.Text.Json.JsonException while decoding the event data
    | KeyNotFound         // JsonElement.GetProperty on a missing property
    | InvalidOperation    // JsonElement.GetString on a value that is neither a string nor null
    | ArgumentError       // the ArgumentException thrown when a field is null
    | UriFormatError      // System.UriFormatException from new Uri(...)

  /** The exception a failing SDK call raises. */
  function Thrown(f: Fault): Exn
    requires f != NoFault
  {
    if f == RequestFailure then RequestFailed else OtherSdkError
  }

  /** How a block of code ends: it returns normally or raises an exception. */
  datatype Completion = Returned | Raised(error: Exn)
}
