/** Joining sequences, and finding a place in a sorted list of starting positions. */
module Sequences {

  lemma Associate<T>(a: seq<T>, b: seq<T>, c: seq<T>)
    ensures a + b + c == a + (b + c)
  {
  }

  /** How many starts are at or before `x`: a sorted search from the right. */
  function SearchRight(starts: seq<nat>, x: nat): (i: nat)
    ensures i <= |starts|
  {
    if starts == [] then 0
    else if starts[|starts| - 1] <= x then |starts|
    else SearchRight(starts[..|starts| - 1], x)
  }

  lemma {:induction false} SearchRightIs(starts: seq<nat>, x: nat)
    requires forall i, j | 0 <= i < j < |starts| :: starts[i] <= starts[j]
    ensures forall i | 0 <= i < SearchRight(starts, x) :: starts[i] <= x
    ensures forall i | SearchRight(starts, x) <= i < |starts| :: starts[i] > x
  {
    if starts != [] && starts[|starts| - 1] > x {
      SearchRightIs(starts[..|starts| - 1], x);
    }
  }

  function Clamp(x: int, low: int, high: int): int {
    if x < low then low else if x > high then high else x
  }
}
