/** Failure-carrying values shared by the rest of the model. */
module Results {

  datatype Option<+T> = None | Some(value: T)

  /** The `Result<T, E>` of the Rust source: a value, or the error that stopped the computation. */
  datatype Result<+T, +E> = Ok(value: T) | Err(error: E)

  /** Why a `reqwest` GET plus `.json()` decode failed: the request never got a
      response, or the body did not have the expected JSON shape. */
  datatype FetchError = TransportError | DecodeError
}
