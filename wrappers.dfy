/** Option and Result, and the fail-fast collection of a sequence of results
    that the derive macro uses everywhere it writes
    `iter().map(f).collect::<Result<Vec<_>, _>>()`. */
module Wrappers {

  datatype Option<+T> = None | Some(value: T)

  /** A failure-compatible result, so that `:-` plays the part of Rust's `?`. */
  datatype Result<+R, +E> = Success(value: R) | Failure(error: E) {

    predicate IsFailure() {
      Failure?
    }

    function PropagateFailure<U>(): Result<U, E>
      requires Failure?
    {
      Failure(error)
    }

    function Extract(): R
      requires Success?
    {
      value
    }
  }

  /** `k` is the position of the first element of `xs` that `f` rejects. */
  ghost predicate FirstFailureAt<A, B, E>(xs: seq<A>, f: A -> Result<B, E>, k: int)
  {
    && 0 <= k < |xs|
    && f(xs[k]).Failure?
    && forall i :: 0 <= i < k ==> f(xs[i]).Success?
  }

  /** Maps `f` over `xs` in order and stops at the first failure, as collecting
      an iterator of `Result`s into a `Result<Vec<_>, _>` does. */
  function CollectResults<A, B, E>(xs: seq<A>, f: A -> Result<B, E>): (r: Result<seq<B>, E>)
    ensures r.Success? <==> forall i :: 0 <= i < |xs| ==> f(xs[i]).Success?
    ensures r.Success? ==>
              && |r.value| == |xs|
              && forall i :: 0 <= i < |xs| ==> f(xs[i]) == Success(r.value[i])
    ensures forall k :: FirstFailureAt(xs, f, k) ==> r == Failure(f(xs[k]).error)
    ensures r.Failure? ==> exists k :: FirstFailureAt(xs, f, k) && f(xs[k]).error == r.error
  {
    if xs == [] then
      Success([])
    else
      var head :- f(xs[0]);
      var tail :- CollectResults(xs[1..], f);
      FirstFailureShift(xs, f);
      Success([head] + tail)
  }

  /** When the head of `xs` succeeds, the first failure of `xs` is one past
      the first failure of its tail. */
  lemma FirstFailureShift<A, B, E>(xs: seq<A>, f: A -> Result<B, E>)
    requires |xs| > 0 && f(xs[0]).Success?
    ensures forall k :: FirstFailureAt(xs, f, k) <==> 0 < k && FirstFailureAt(xs[1..], f, k - 1)
  {
    forall k
      ensures FirstFailureAt(xs, f, k) <==> 0 < k && FirstFailureAt(xs[1..], f, k - 1)
    {
      if 0 < k <= |xs| {
        assert forall i :: 0 <= i < k - 1 ==> xs[1..][i] == xs[i + 1];
      }
    }
  }
}
