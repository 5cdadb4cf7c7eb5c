/** Option and Result, and a left-to-right traversal that stops at the first failure
    (the way a Python loop stops at the first exception it raises). */
module Wrappers {

  datatype Option<+T> = None | Some(value: T)

  datatype Result<+T, +E> = Success(value: T) | Failure(error: E)

  /** Applies `f` to every element of `xs` in order; the first failure aborts the traversal
      and is the result, otherwise the results are collected in the same order. */
  function Traverse<A, B, E>(xs: seq<A>, f: A -> Result<B, E>): (r: Result<seq<B>, E>)
    ensures r.Success? <==> forall i :: 0 <= i < |xs| ==> f(xs[i]).Success?
    ensures r.Success? ==> |r.value| == |xs| && forall i :: 0 <= i < |xs| ==> r.value[i] == f(xs[i]).value
    ensures r.Failure? ==>
      exists i :: 0 <= i < |xs| && f(xs[i]) == Failure(r.error) && forall j :: 0 <= j < i ==> f(xs[j]).Success?
    decreases |xs|
  {
    if xs == [] then Success([])
    else
      var init := xs[..|xs| - 1];
      match Traverse(init, f)
      case Failure(e) =>
        assert forall j :: 0 <= j < |init| ==> xs[j] == init[j];
        Failure(e)
      case Success(done) =>
        match f(xs[|xs| - 1])
        case Failure(e) => Failure(e)
        case Success(y) => Success(done + [y])
  }

  /** Extending a successful traversal by one element: the step a loop over `xs` takes. */
  lemma TraverseExtend<A, B, E>(xs: seq<A>, i: nat, f: A -> Result<B, E>, done: seq<B>)
    requires i < |xs|
    requires Traverse(xs[..i], f) == Success(done)
    ensures f(xs[i]).Success? ==> Traverse(xs[..i + 1], f) == Success(done + [f(xs[i]).value])
    ensures f(xs[i]).Failure? ==> Traverse(xs, f) == Failure(f(xs[i]).error)
  {
    assert xs[..i + 1][..i] == xs[..i];
    var r := Traverse(xs, f);
    if f(xs[i]).Failure? {
      assert forall j :: 0 <= j < i ==> f(xs[..i][j]).Success?;
      assert forall j :: 0 <= j < i ==> xs[..i][j] == xs[j];
      var k :| 0 <= k < |xs| && f(xs[k]) == Failure(r.error) && forall j :: 0 <= j < k ==> f(xs[j]).Success?;
      assert k == i;
    }
  }
}
