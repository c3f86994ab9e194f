/** Small failure-carrying datatypes shared by the whole model. */
module Wrappers {

  datatype Option<+T> = None | Some(value: T)

  datatype Result<+T, +E> = Success(value: T) | Failure(error: E)

  /** Why a Go panic was raised. */
  datatype PanicReason =
    | CannotFind(wanted: string, list: seq<string>)  // `find` in main.go
    | IndexOutOfRange                                 // `elem.Value[0]` on an empty value list
    | FailedTypeAssertion                             // `elem.Value[0].(dicom.PixelDataInfo)` on another value

  /** A Go call that either returns a value or panics. */
  datatype Outcome<+T> = Returned(value: T) | Panicked(reason: PanicReason)
}
