/** The outcome of an operation (util/Result.kt). */
module Results {
  import opened Options
  import opened Messages

  /** `java.lang.Exception`, reduced to its (nullable) message. */
  datatype Exception = Exception(message: Option<Message>)

  /** The sealed class `Result<T>`: exactly one of three states. */
  datatype Result<+T> =
    | Success(data: T)
    | Error(exception: Exception)
    | Loading

  /** `Result.success(data)`. */
  function SuccessResult<T>(data: T): (r: Result<T>)
    ensures r.Success? && r.data == data
  {
    Success(data)
  }

  /** `Result.error(exception)`. */
  function ErrorResult<T>(exception: Exception): (r: Result<T>)
    ensures r.Error? && r.exception == exception
  {
    Error(exception)
  }

  /** `Result.loading()`: the single Loading object. */
  function LoadingResult<T>(): (r: Result<T>)
    ensures r.Loading?
  {
    Loading
  }
}
