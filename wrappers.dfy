/** Option and Result, the two wrappers the rest of the model uses for values that may be
    absent (a nullable field, a missing header) and for calls that may throw. */
module Wrappers {

  datatype Option<+T> = None | Some(value: T)

  /** Why a call into the data source failed; the model only needs to know that it did. */
  datatype ApiError = NoToken | HttpError | GraphQLErrors | MalformedResponse | NetworkError

  datatype Result<+T> = Ok(value: T) | Err(error: ApiError)
}
