/** Results and failures shared by every layer of the cache.

    Kotlin signals a backend problem by throwing; the model returns an
    `Outcome` instead, so that every exception the source can raise is an
    explicit value the callers must handle. */
module Outcomes {

  datatype Option<+T> = None | Some(value: T)

  /** The exception kinds the cache layers can meet. */
  datatype ErrorKind =
    | ConnectionFailure    // RedisConnectionFailureException
    | QueryTimeout         // QueryTimeoutException
    | DecodeFailure        // Jackson could not read the stored text back
    | EmptyRandomRange     // `(1..0).random()` with no configured node
    | NoSuchNode           // the facade's RuntimeException for a node index >= 3
    | SliceOutOfRange      // `List.slice` outside the list's indices
    | OtherBackendFailure  // any other exception raised by the Redis client

  datatype Outcome<+T> = Done(value: T) | Thrown(error: ErrorKind)

  /** The two exception kinds that the repository and service layers catch. */
  predicate Absorbed(k: ErrorKind) {
    k == ConnectionFailure || k == QueryTimeout
  }

  /** A backend call that either succeeded or failed with a kind that is caught. */
  predicate Swallowed(fault: Option<ErrorKind>) {
    fault.None? || Absorbed(fault.value)
  }
}
