/** What every component of the model shares: optional values,
    failures, and time.

    An instant or a duration is a whole number of nanoseconds, as in Go's
    `time.Duration`, but unbounded. */
module Common {

  datatype Option<+T> = None | Some(value: T)

  datatype Result<+T> = Ok(value: T) | Err(message: string)

  type Time = int
  type Duration = int

  const MILLISECOND: Duration := 1_000_000
  const SECOND: Duration := 1000 * MILLISECOND
  const MINUTE: Duration := 60 * SECOND
  const HOUR: Duration := 60 * MINUTE
  const DAY: Duration := 24 * HOUR

  function Max(a: int, b: int): (m: int)
    ensures m >= a && m >= b && (m == a || m == b)
  {
    if a >= b then a else b
  }

  function Min(a: int, b: int): (m: int)
    ensures m <= a && m <= b && (m == a || m == b)
  {
    if a <= b then a else b
  }
}
