/** The failure-carrying datatypes used across the models, and sequencing of failures. */
module Wrappers {

  datatype Option<+T> = None | Some(value: T)

  datatype Result<+T, +E> = Ok(value: T) | Err(error: E) {
    predicate IsFailure() {
      Err?
    }

    function PropagateFailure<U>(): Result<U, E>
      requires Err?
    {
      Err(error)
    }

    function Extract(): T
      requires Ok?
    {
      value
    }
  }

  /** Convert every element in order; the first failure is the failure of the whole. */
  function MapAll<T, U, E>(f: T -> Result<U, E>, xs: seq<T>): Result<seq<U>, E> {
    if xs == [] then Ok([])
    else
      var front :- MapAll(f, xs[..|xs| - 1]);
      var last :- f(xs[|xs| - 1]);
      Ok(front + [last])
  }

  lemma {:induction false} MapAllExact<T, U, E>(f: T -> Result<U, E>, xs: seq<T>)
    ensures MapAll(f, xs).Ok? <==> forall i | 0 <= i < |xs| :: f(xs[i]).Ok?
    ensures MapAll(f, xs).Ok? ==>
              && |MapAll(f, xs).value| == |xs|
              && forall i | 0 <= i < |xs| :: f(xs[i]).Ok? && MapAll(f, xs).value[i] == f(xs[i]).value
    decreases |xs|
  {
    if xs != [] {
      MapAllExact(f, xs[..|xs| - 1]);
    }
  }

  lemma MapAllCount<T, U, E>(f: T -> Result<U, E>, xs: seq<T>)
    ensures MapAll(f, xs).Ok? ==> |MapAll(f, xs).value| == |xs|
  {
    MapAllExact(f, xs);
  }

  /** A failure of a prefix is the failure of the whole. */
  lemma {:induction false} MapAllStops<T, U, E>(f: T -> Result<U, E>, xs: seq<T>, n: nat)
    requires n <= |xs| && MapAll(f, xs[..n]).Err?
    ensures MapAll(f, xs) == MapAll(f, xs[..n])
    decreases |xs|
  {
    if n == |xs| {
      assert xs[..n] == xs;
    } else {
      assert xs[..|xs| - 1][..n] == xs[..n];
      MapAllStops(f, xs[..|xs| - 1], n);
    }
  }

  /** Any list with the converted elements in order is the result. */
  lemma MapAllIs<T, U, E>(f: T -> Result<U, E>, xs: seq<T>, ys: seq<U>)
    requires |xs| == |ys| && forall i | 0 <= i < |xs| :: f(xs[i]) == Ok(ys[i])
    ensures MapAll(f, xs) == Ok(ys)
  {
    MapAllExact(f, xs);
    assert MapAll(f, xs).Ok?;
    assert MapAll(f, xs).value == ys;
  }
}
