// Optional values, and the errors of src/error_handling_impl.rs without their
// message texts.
module Wrappers {
  datatype Option<+T> = None | Some(value: T)

  datatype Error =
    | UrlError
    | InvalidScheme
    | PrivateNetworkAccess
    | InvalidHost
    | HeaderError
    | HeaderInjectionDetected
    | RedirectBlocked
    | TooManyRedirects(max: nat)
    | NoHost
    | HostNotAllowed
    | InvalidPort
    | RequestFailed
    | NetworkTimeout
    | ServerError(status: nat)
    | RateLimited
    | MissingConfig
    | InvalidConfiguration
    | InternalError
    | RequestAborted
    | CertificatePinningFailed
    | WebSocketError
    | StreamingError

  datatype Result<+T> = Ok(value: T) | Err(error: Error)
}
