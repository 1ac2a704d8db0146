/**
 The `helper` both test files build their inputs with, and the two
 `or_else` checks of the basic test file.
 */
module Tests {
  import opened StdOptional
  import opened Han

  /** `helper(present, value)`: a maybe holding `value`, or `std::nullopt` converted to an empty maybe. */
  function Helper<T>(present: bool, value: T): (m: Maybe<T>)
    ensures present ==> StateOf(m) == Holds(value)
    ensures !present ==> StateOf(m) == Empty
  {
    if present then Of(value) else FromNullopt(Nullopt)
  }

  /** "value present": `helper(true, 5).or_else(10) == 5`. */
  lemma OrElseValuePresent()
    ensures OrElse(Helper(true, 5), 10) == 5
  {
  }

  /** "value missing": `helper(false, 5).or_else(10) == 10`. */
  lemma OrElseValueMissing()
    ensures OrElse(Helper(false, 5), 10) == 10
  {
  }
}
