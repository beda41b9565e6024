// Which failures are worth another attempt (src/retry.rs).
module Retry {
  import opened Wrappers

  datatype ErrorKind = NetworkTimeoutKind | ServerErrorKind | RateLimitedKind | ConnectionKind | OtherKind

  datatype RetryConfig = RetryConfig(maxAttempts: nat, retryOn: seq<ErrorKind>)

  const DEFAULT_RETRY := RetryConfig(3, [NetworkTimeoutKind, ServerErrorKind, RateLimitedKind])

  function ClassifyError(error: Error): ErrorKind {
    match error
    case NetworkTimeout => NetworkTimeoutKind
    case ServerError(_) => ServerErrorKind
    case RateLimited => RateLimitedKind
    case RequestFailed => ConnectionKind
    case _ => OtherKind
  }

  predicate ShouldRetry(config: RetryConfig, error: Error) {
    ClassifyError(error) in config.retryOn
  }

  predicate ShouldRetryStatus(config: RetryConfig, status: nat) {
    if status == 429 then RateLimitedKind in config.retryOn
    else if 500 <= status < 600 then ServerErrorKind in config.retryOn
    else false
  }

  // The error a final status is reported as.
  function StatusError(status: nat): Option<Error> {
    if status == 429 then Some(RateLimited)
    else if 500 <= status < 600 then Some(ServerError(status))
    else None
  }

  // Listing the connection kind adds failed requests; only the last kind would
  // add anything permanent.
  lemma OnlyOtherRetriesPermanentErrors(config: RetryConfig, error: Error)
    requires ShouldRetry(config, error) && OtherKind !in config.retryOn
    ensures error.NetworkTimeout? || error.ServerError? || error.RateLimited? || error.RequestFailed?
    ensures error.RequestFailed? ==> ConnectionKind in config.retryOn
  {}
}
