/** How histogram operations fail. */
module HistogramErrors {
  import opened Wrappers

  datatype Error =
    | InvalidArgument  // core::InvalidArgumentError
    | EmptyHistogram   // std::runtime_error("Empty histogram")
    | MissingValue     // std::bad_optional_access
  datatype Result<+T> = Ok(value: T) | Err(error: Error)

  /** `value()` of an optional. */
  function Present(v: Option<real>): Result<real> {
    if v.Some? then Ok(v.value) else Err(MissingValue)
  }
}
