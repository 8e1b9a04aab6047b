/** Range validation shared by the colour constructors (src/util.rs). */
module Util {
  import opened Errors

  /**
    Accepts `val` exactly when `min <= val <= max` (both ends inclusive) and
    otherwise reports `OutOfRange` carrying the value and both bounds.
   */
  function RangeCheck(val: real, min: real, max: real): (r: Result<()>)
    ensures r.Ok? <==> min <= val <= max
    ensures r.Err? ==> r.error == OutOfRange(val, min, max)
  {
    if val < min || val > max then Err(OutOfRange(val, min, max)) else Ok(())
  }

  /** An empty interval (`min > max`) rejects every value. */
  lemma EmptyRangeRejects(val: real, min: real, max: real)
    requires min > max
    ensures RangeCheck(val, min, max) == Err(OutOfRange(val, min, max))
  {
  }
}
