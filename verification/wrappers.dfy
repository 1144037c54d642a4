/** Python's `Optional[str]`: the optional text fields of a finding and the
    `str | None` that `choose_best_sql` returns. */
module Wrappers {

  /** A value that may be missing. A missing value stops a `:-` chain, which
      is how the parsers give up on text they cannot read. */
  datatype Option<+T> = None | Some(value: T) {

    predicate IsFailure() {
      None?
    }

    function PropagateFailure<U>(): Option<U>
      requires None?
    {
      None
    }

    function Extract(): T
      requires Some?
    {
      value
    }
  }

  /** Python's `s or ""` on an `Optional[str]`: a missing string reads as empty. */
  function OrEmpty(s: Option<string>): (r: string)
    ensures s.None? ==> r == []
    ensures s.Some? ==> r == s.value
  {
    match s
    case None => []
    case Some(v) => v
  }
}
