/** A Go error as the program sees it: the sentinels and error types that errors.Is and errors.As find
    somewhere in its chain. Wrapping an error adds marks and never removes one. */
module Errors {

  datatype Mark =
    | Unauthorized
    | ReservedIdentity
    | NoName
    | NoImpersonationConfig
    | NoImpersonationUser
    | TooManyImpersonationValues
    | ImpersonationNotAllowed
    | CreateReview
    | ContextCanceled
    | DeadlineExceeded
    | NetError
    | NetTimeout
    | EndOfStream
    | ConnectionReset
    | OtherTransport

  type Error = set<Mark>

  /** What a finished context says of its end: it was cancelled, or its deadline passed. */
  type ContextMark = m: Mark | m.ContextCanceled? || m.DeadlineExceeded? witness ContextCanceled

  /** The error a context reports once it is finished. */
  predicate IsContextError(e: Error) {
    ContextCanceled in e || DeadlineExceeded in e
  }
}
