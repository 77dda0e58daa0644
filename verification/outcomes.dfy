/** Failure-compatible wrappers shared by every component of the model.

    Python code in the modelled system signals failure by raising; the model
    makes that visible in the return type instead: a call either returns a
    value (`Ok`) or raises (`Err`). */
module Outcomes {

  /** A value that may be absent, e.g. a dictionary key that is not present. */
  datatype Option<T> = None | Some(value: T)

  /** Either the value a call returned or the exception it raised. */
  datatype Result<T, E> = Ok(value: T) | Err(error: E) {

    predicate IsFailure()
    {
      Err?
    }

    function PropagateFailure<U>(): Result<U, E>
      requires Err?
    {
      Err(error)
    }

    function Extract(): T
      requires Ok?
    {
      value
    }
  }

  /** A loop calling `f` on each element in order: the values of all calls,
      or the error of the first call that raises. */
  function MapAll<X, T, E>(xs: seq<X>, f: X -> Result<T, E>): (r: Result<seq<T>, E>)
    ensures r.Ok? <==> forall i :: 0 <= i < |xs| ==> f(xs[i]).Ok?
    ensures r.Ok? ==> |r.value| == |xs| && forall i :: 0 <= i < |xs| ==> f(xs[i]) == Ok(r.value[i])
  {
    if xs == [] then Ok([])
    else
      var first :- f(xs[0]);
      var rest :- MapAll(xs[1..], f);
      var r := [first] + rest;
      assert forall i :: 1 <= i < |xs| ==> xs[i] == xs[1..][i - 1] && r[i] == rest[i - 1];
      Ok(r)
  }

  /** A loop appending the text `f` gives for each element in order: the
      texts concatenated, or the error of the first call that raises. */
  function ConcatAll<X, E>(xs: seq<X>, f: X -> Result<string, E>): (r: Result<string, E>)
    ensures r.Ok? <==> forall i :: 0 <= i < |xs| ==> f(xs[i]).Ok?
    ensures xs == [] ==> r == Ok("")
  {
    if xs == [] then Ok("")
    else
      var first :- f(xs[0]);
      var rest :- ConcatAll(xs[1..], f);
      assert forall i :: 1 <= i < |xs| ==> xs[i] == xs[1..][i - 1];
      Ok(first + rest)
  }

  /** Looping over two lists one after the other appends their texts. */
  lemma {:induction false} ConcatAllAppend<X, E>(a: seq<X>, b: seq<X>, f: X -> Result<string, E>)
    requires ConcatAll(a, f).Ok? && ConcatAll(b, f).Ok?
    ensures ConcatAll(a + b, f) == Ok(ConcatAll(a, f).value + ConcatAll(b, f).value)
    decreases |a|
  {
    if a == [] {
      assert a + b == b;
      assert ConcatAll(a, f).value + ConcatAll(b, f).value == ConcatAll(b, f).value;
    } else {
      ConcatAllAppend(a[1..], b, f);
      assert (a + b)[0] == a[0] && (a + b)[1..] == a[1..] + b;
      var first, x, y := f(a[0]).value, ConcatAll(a[1..], f).value, ConcatAll(b, f).value;
      assert first + (x + y) == (first + x) + y;
    }
  }

  /** A Python exception as its callers observe it: only `str(err)`. */
  datatype Exception = Exception(message: string)
}
