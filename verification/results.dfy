/** Outcomes of the construction entry points: weights, or the reason the
    call stops before producing any. */
module Results {

  datatype Error =
    | ZeroDivision    // `1.0 / top_n` or `-1.0 / short_n` with a zero count
    | MissingColumns  // an uploaded table without a `Ticker` or `Prediction` column

  datatype Result<T> = Ok(value: T) | Err(error: Error)
}
