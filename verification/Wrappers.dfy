/** Failure-aware result types used throughout, and the errors the client can return. */
module Wrappers {
  datatype Option<+T> = None | Some(value: T)

  datatype Result<+T> = Success(value: T) | Failure(error: Error)

  /** The error values of the Go client, named after the call that produces them. */
  datatype Error =
    | CorruptedData          // store.ErrCorruptedData
    | UnsupportedTxVersion   // store.EntrySpecDigestFor
    | KeyNotFound            // tx.Proof
    | InvalidArgument        // errors.New at the head of an operation
    | InvalidHex             // hex.DecodeString
    | CountMismatch          // fmt.Errorf in the batch read
    | LockFailed             // CacheLock
    | StateUnavailable       // GetState
    | SetStateFailed         // SetState
    | SignatureMismatch      // CheckSignature
    | ReadFailed             // io.Reader.Read
    | Remote(code: int)      // any gRPC failure
}
