/** Sequence combinators that mirror Python loops. */
module Seq {
  import opened Wrappers

  /**
   * `for x in xs: out.append(f(x))` where `f` may raise: the outputs of
   * the leading elements that succeed, and whether some element raised.
   */
  function MapUntilFailure<A, B, E>(f: A -> Result<B, E>, xs: seq<A>): (r: (seq<B>, bool))
    ensures |r.0| <= |xs|
    ensures forall k :: 0 <= k < |r.0| ==> f(xs[k]) == Success(r.0[k])
    ensures r.1 <==> exists k :: 0 <= k < |xs| && f(xs[k]).Failure?
    ensures r.1 ==> f(xs[|r.0|]).Failure?
    ensures !r.1 ==> |r.0| == |xs|
  {
    if |xs| == 0 then ([], false)
    else
      var first := f(xs[0]);
      if first.Failure? then ([], true)
      else
        var rest := MapUntilFailure(f, xs[1..]);
        assert forall k :: 1 <= k < |xs| ==> xs[k] == xs[1..][k - 1];
        ([first.value] + rest.0, rest.1)
  }

  /** `for x in xs: if p(x): out.append(x)`: the elements satisfying `p`. */
  function Filter<A>(p: A -> bool, xs: seq<A>): (r: seq<A>)
    ensures |r| <= |xs|
    ensures forall k :: 0 <= k < |r| ==> r[k] in xs && p(r[k])
    ensures forall i :: 0 <= i < |xs| && p(xs[i]) ==> xs[i] in r
    ensures (forall k :: 0 <= k < |xs| ==> p(xs[k])) ==> r == xs
  {
    if |xs| == 0 then []
    else
      var rest := Filter(p, xs[1..]);
      assert forall i :: 1 <= i < |xs| ==> xs[i] == xs[1..][i - 1];
      if p(xs[0]) then [xs[0]] + rest else rest
  }

  /** Filtering distributes over concatenation, so kept elements stay in their original order. */
  lemma {:induction false} FilterConcat<A>(p: A -> bool, xs: seq<A>, ys: seq<A>)
    ensures Filter(p, xs + ys) == Filter(p, xs) + Filter(p, ys)
    decreases |xs|
  {
    if |xs| > 0 {
      assert (xs + ys)[1..] == xs[1..] + ys;
      FilterConcat(p, xs[1..], ys);
    } else {
      assert xs + ys == ys;
    }
  }
}
