/** Small shared vocabulary: optional values (Python's `None`) and the powers of
    two used by every exponential backoff in the pipeline. */
module Wrappers {

  /** A value that may be absent, as a Python `None` or a missing dictionary key. */
  datatype Option<+T> = None | Some(value: T) {

    /** The wrapped value, or `default` when absent (Python's `d.get(k, default)`). */
    function GetOr(default: T): T {
      match this
      case Some(v) => v
      case None => default
    }
  }

  /** `2 ** n` for a non-negative exponent. */
  function Pow2(n: nat): (r: nat)
    ensures r >= 1
  {
    if n == 0 then 1 else 2 * Pow2(n - 1)
  }
}
