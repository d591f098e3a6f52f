/** Small shared vocabulary: nullable values, outcomes that either return or
    throw, and the power of two used by both backoff schedules. */
module Base {

  /** A nullable column or an optional field. */
  datatype Option<+T> = None | Some(value: T) {
    /** The value, or `default` when absent (the `??` operator). */
    function GetOr(default: T): T {
      match this
      case Some(v) => v
      case None => default
    }
  }

  /** A call that either returns a value or throws an error. */
  datatype Result<+T, +E> = Ok(value: T) | Err(error: E)

  /** 2^n, as `Math.pow(2, n)` and SQL `POWER(2, n)` compute it for a whole n >= 0. */
  function Pow2(n: nat): (p: nat)
    ensures p >= 1
  {
    if n == 0 then 1 else 2 * Pow2(n - 1)
  }
}
