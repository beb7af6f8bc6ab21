/** Async iteration helpers. An async iterator is given by the sequence of elements
    it produces. */
module Awaitable {

  /** `aenumerate`: each element paired with a counter that starts at `start` and
      goes up by one per element, in the iterator's order. */
  method AEnumerate<T>(xs: seq<T>, start: int := 0) returns (pairs: seq<(int, T)>)
    ensures |pairs| == |xs|
    ensures forall i :: 0 <= i < |xs| ==> pairs[i] == (start + i, xs[i])
  {
    var n := start;
    pairs := [];
    for i := 0 to |xs|
      invariant n == start + i
      invariant |pairs| == i
      invariant forall j :: 0 <= j < i ==> pairs[j] == (start + j, xs[j])
    {
      pairs := pairs + [(n, xs[i])];
      n := n + 1;
    }
  }
}
