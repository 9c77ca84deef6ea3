/** Option and Result, and the in-order traversal that Python's list
    comprehensions perform when the element operation can raise. */
module Results {

  datatype Option<+T> = None | Some(value: T)

  datatype Result<+T, +E> = Success(value: T) | Failure(error: E)

  /** Applies `f` to every element from left to right; the first element whose
      result is a failure aborts the whole traversal with that failure, as an
      exception raised inside a list comprehension does. */
  function Traverse<A, B, E>(f: A -> Result<B, E>, xs: seq<A>): Result<seq<B>, E>
    decreases |xs|
  {
    if xs == [] then Success([])
    else
      match Traverse(f, xs[..|xs| - 1])
      case Failure(e) => Failure(e)
      case Success(v) =>
        match f(xs[|xs| - 1])
        case Failure(e) => Failure(e)
        case Success(y) => Success(v + [y])
  }

  /** A successful traversal holds one value per element, in order: each
      element's own successful result. */
  lemma {:induction false} TraverseValues<A, B, E>(f: A -> Result<B, E>, xs: seq<A>)
    requires Traverse(f, xs).Success?
    ensures |Traverse(f, xs).value| == |xs|
    ensures forall k :: 0 <= k < |xs| ==>
      f(xs[k]).Success? && Traverse(f, xs).value[k] == f(xs[k]).value
    decreases |xs|
  {
    if xs != [] {
      var init := xs[..|xs| - 1];
      TraverseValues(f, init);
      assert forall m :: 0 <= m < |init| ==> xs[m] == init[m];
    }
  }

  /** A traversal whose every element succeeds succeeds. */
  lemma {:induction false} TraverseSucceeds<A, B, E>(f: A -> Result<B, E>, xs: seq<A>)
    requires forall k :: 0 <= k < |xs| ==> f(xs[k]).Success?
    ensures Traverse(f, xs).Success?
    decreases |xs|
  {
    if xs != [] {
      var init := xs[..|xs| - 1];
      assert forall m :: 0 <= m < |init| ==> init[m] == xs[m];
      TraverseSucceeds(f, init);
      assert f(xs[|xs| - 1]).Success?;
    }
  }

  /** A failed traversal holds the error of the first element that failed. */
  lemma {:induction false} TraverseFirstFailure<A, B, E>(f: A -> Result<B, E>, xs: seq<A>) returns (k: nat)
    requires Traverse(f, xs).Failure?
    ensures k < |xs| && f(xs[k]) == Failure(Traverse(f, xs).error)
    ensures forall m :: 0 <= m < k ==> f(xs[m]).Success?
    decreases |xs|
  {
    var init := xs[..|xs| - 1];
    if Traverse(f, init).Failure? {
      k := TraverseFirstFailure(f, init);
      assert forall m :: 0 <= m < |init| ==> xs[m] == init[m];
    } else {
      TraverseValues(f, init);
      assert forall m :: 0 <= m < |init| ==> xs[m] == init[m];
      k := |xs| - 1;
    }
  }

  /** Traversing one more element after a success: its failure ends the
      traversal, its value is appended otherwise. */
  lemma TraverseSnoc<A, B, E>(f: A -> Result<B, E>, xs: seq<A>, x: A)
    requires Traverse(f, xs).Success?
    ensures Traverse(f, xs + [x]) ==
      if f(x).Failure? then Failure(f(x).error) else Success(Traverse(f, xs).value + [f(x).value])
  {
    var ys := xs + [x];
    assert ys[..|ys| - 1] == xs && ys[|ys| - 1] == x;
  }

  /** Once a traversal has failed, what follows is never looked at. */
  lemma {:induction false} TraverseFailureAbsorbs<A, B, E>(f: A -> Result<B, E>, xs: seq<A>, ys: seq<A>)
    requires Traverse(f, xs).Failure?
    ensures Traverse(f, xs + ys) == Traverse(f, xs)
    decreases |ys|
  {
    if ys != [] {
      var zs := xs + ys;
      assert zs[..|zs| - 1] == xs + ys[..|ys| - 1];
      TraverseFailureAbsorbs(f, xs, ys[..|ys| - 1]);
    } else {
      assert xs + ys == xs;
    }
  }
}
