/**
 What the whole project shares: a value that may be missing, a computation that either
 produces a value or refuses with a named error, and the range of integers a JavaScript
 number carries exactly.
 */
module Outcomes {
  const MAX_SAFE := 0x1F_FFFF_FFFF_FFFF

  predicate Safe(x: int) {
    -MAX_SAFE <= x <= MAX_SAFE
  }

  // The heights a deriver takes.
  predicate SafeHeight(h: int) {
    0 <= h <= MAX_SAFE
  }

  datatype Option<+T> = None | Some(value: T) {
    predicate IsFailure() { None? }

    function PropagateFailure<U>(): Option<U>
      requires None?
    {
      None
    }

    function Extract(): T
      requires Some?
    {
      value
    }
  }

  datatype Result<+T, +E> = Ok(value: T) | Err(error: E)

  lemma NonEmptyHas<T>(s: seq<T>)
    ensures s == [] || exists y :: y in s
  {
    if |s| > 0 { assert s[0] in s; }
  }
}
