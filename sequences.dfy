/** The sequence operations the Python code takes from `range`, slicing and numpy. */
module Sequences {
  import opened Wrappers

  /** `list(range(n))`: the positions 0 .. n-1. */
  function Range(n: nat): (r: seq<nat>)
    ensures |r| == n && forall i :: 0 <= i < n ==> r[i] == i
  {
    seq(n, i => i)
  }

  predicate StrictlyIncreasing(s: seq<nat>) {
    forall i, j :: 0 <= i < j < |s| ==> s[i] < s[j]
  }

  predicate Bounded(s: seq<nat>, n: nat) {
    forall i :: 0 <= i < |s| ==> s[i] < n
  }

  /** The slice `s[0::2]`: every element at an even position, in order. */
  function EvenPositions<T>(s: seq<T>): (r: seq<T>)
    ensures |r| == (|s| + 1) / 2
    ensures forall i :: 0 <= i < |r| ==> r[i] == s[2 * i]
  {
    if |s| <= 1 then s else [s[0]] + EvenPositions(s[2..])
  }

  /** The error `numpy.take` raises for an index outside an axis of the given size. */
  datatype IndexError = IndexOutOfBounds(index: nat, size: nat)

  /** `numpy.take(values, indices)` on a one-dimensional array: the elements at the given
      positions, in the order of `indices`; the first position out of range raises. */
  function Take<T>(values: seq<T>, indices: seq<nat>): (r: Result<seq<T>, IndexError>)
    ensures r.Success? <==> Bounded(indices, |values|)
    ensures r.Success? ==>
      |r.value| == |indices| && forall j :: 0 <= j < |indices| ==> r.value[j] == values[indices[j]]
    ensures r.Failure? ==>
      r.error.size == |values| &&
      exists j :: 0 <= j < |indices| && indices[j] == r.error.index >= |values| &&
        forall k :: 0 <= k < j ==> indices[k] < |values|
  {
    if indices == [] then Success([])
    else if indices[0] >= |values| then Failure(IndexOutOfBounds(indices[0], |values|))
    else
      match Take(values, indices[1..])
      case Failure(e) =>
        var j :| 0 <= j < |indices[1..]| && indices[1..][j] == e.index >= |values| &&
          forall k :: 0 <= k < j ==> indices[1..][k] < |values|;
        assert indices[j + 1] == e.index;
        Failure(e)
      case Success(rest) => Success([values[indices[0]]] + rest)
  }

  /** Selecting every position in order gives the values back unchanged. */
  lemma {:induction false} TakeRange<T>(values: seq<T>)
    ensures Take(values, Range(|values|)) == Success(values)
  {
    var r := Take(values, Range(|values|));
    assert Bounded(Range(|values|), |values|);
    assert r.value == values;
  }
}
