/** The few pieces of Python and numpy behaviour the ticket-buying program relies on:
    exceptions become `Fault` values, and sequence indexing follows Python's rule that a
    negative index counts from the end. */
module PySemantics {

  /** The conventional Some/None datatype. */
  datatype Option<+T> = None | Some(value: T)

  /** The Python exceptions the program can raise on its own. */
  datatype Fault =
    | IndexError  // a numpy row or a dataframe column past either end
    | ValueError  // unpacking the string "Absorbing state" into a (day, price) pair

  /** A value, or the exception raised while computing it. */
  datatype Result<+T> = Success(value: T) | Failure(fault: Fault)

  /** Resolves index `i` into a sequence of length `n` the way Python does:
      `-n <= i < 0` counts back from the end, anything else outside `[0, n)` is an IndexError. */
  function PyIndex(i: int, n: nat): (r: Option<nat>)
    ensures r.Some? <==> -(n as int) <= i < n
    ensures r.Some? ==> r.value < n && r.value % n == i % n
    ensures 0 <= i < n ==> r == Some(i)
  {
    if 0 <= i < n then Some(i)
    else if -(n as int) <= i < 0 then Some(i + n)
    else None
  }
}
