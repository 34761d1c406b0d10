/** Shared vocabulary: optional values, results, error codes, currencies and the millisecond clock. */
module Base {
  datatype Option<+T> = None | Some(value: T)

  /** The error kinds that `AppError` distinguishes. */
  datatype Error = BadRequest | Forbidden | NotFound | PreconditionFailed | Internal

  datatype Result<+T> = Ok(value: T) | Err(error: Error)

  datatype Currency = Unspecified | USD | EUR | GBP | UAH

  const SECOND: int := 1000
  const HOUR: int := 3600 * SECOND
  const DAY: int := 24 * HOUR

  /** Truthiness of an optional string: both an absent and an empty one count as missing. */
  predicate Present(v: Option<string>) {
    v.Some? && v.value != ""
  }

  /** The variant a request means: an empty id is no variant. */
  function Norm(v: Option<string>): Option<string> {
    if Present(v) then v else None
  }
}
