/**
 * The last occurrence of a value in a sequence. Both a receive plan that
 * lists a row several times and a deck that names a well several times end
 * with the last occurrence winning.
 */
module LastOccurrence {

  /** The position of the last occurrence of x in s, or -1. */
  function LastIndex<T(==)>(s: seq<T>, x: T): (k: int)
    ensures -1 <= k < |s|
    ensures k >= 0 ==> s[k] == x
    ensures forall j :: k < j < |s| ==> s[j] != x
    decreases |s|
  {
    if |s| == 0 then -1
    else if s[|s| - 1] == x then |s| - 1
    else LastIndex(s[..|s| - 1], x)
  }
}
