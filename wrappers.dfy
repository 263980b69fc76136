/** Option and Result types, and the Python exceptions that the analysis
    scripts can raise, so that every error path of the source is a value. */
module Wrappers {

  datatype Option<+T> = None | Some(value: T)

  /** The exceptions the modelled Python code can raise. */
  datatype PyError =
    | IndexError     // list index out of range
    | KeyError       // missing dictionary key
    | ValueError     // float() of bad text, max/min/argmin of an empty array, ragged zip
    | StopIteration  // next() on an exhausted file iterator
    | NameError      // a local name that was never bound

  datatype Result<+T> = Ok(value: T) | Fail(error: PyError) {
    predicate IsFailure() { Fail? }

    function PropagateFailure<U>(): Result<U>
      requires Fail?
    {
      Fail(error)
    }

    function Extract(): T
      requires Ok?
    {
      value
    }
  }

  /** A loop that handles each item in turn and stops at the first item that
      raises: the results in order, or the first exception. */
  function MapResult<A, T>(xs: seq<A>, f: A -> Result<T>): (r: Result<seq<T>>)
    ensures r.Ok? ==> |r.value| == |xs|
    ensures r.Fail? ==> exists i :: 0 <= i < |xs| && f(xs[i]) == Fail(r.error)
  {
    if |xs| == 0 then Ok([])
    else
      var pre := xs[..|xs| - 1];
      assert forall i :: 0 <= i < |pre| ==> pre[i] == xs[i];
      var prev :- MapResult(pre, f);
      var last :- f(xs[|xs| - 1]);
      Ok(prev + [last])
  }

  /** The loop raises exactly when some item raises, and otherwise holds
      every item's result in order. */
  lemma {:induction false} MapResultSpec<A, T>(xs: seq<A>, f: A -> Result<T>)
    ensures MapResult(xs, f).Fail? <==> exists i :: 0 <= i < |xs| && f(xs[i]).Fail?
    ensures MapResult(xs, f).Ok? ==> forall i :: 0 <= i < |xs| ==>
      f(xs[i]).Ok? && MapResult(xs, f).value[i] == f(xs[i]).value
  {
    if |xs| > 0 {
      var pre := xs[..|xs| - 1];
      MapResultSpec(pre, f);
      assert forall i :: 0 <= i < |pre| ==> pre[i] == xs[i];
    }
  }

  /** One more item that does not raise adds its result. */
  lemma MapResultSnoc<A, T>(xs: seq<A>, f: A -> Result<T>, i: nat, acc: seq<T>)
    requires i < |xs| && MapResult(xs[..i], f) == Ok(acc) && f(xs[i]).Ok?
    ensures MapResult(xs[..i + 1], f) == Ok(acc + [f(xs[i]).value])
  {
    assert xs[..i + 1][..i] == xs[..i];
  }

  /** An item that raises makes the whole loop raise. */
  lemma MapResultStop<A, T>(xs: seq<A>, f: A -> Result<T>, i: nat)
    requires i < |xs| && f(xs[i]).Fail?
    ensures MapResult(xs, f).Fail?
  {
    MapResultSpec(xs, f);
  }

  /** When the items before `i` succeed and item `i` raises, the loop raises
      that exception. */
  lemma {:induction false} MapResultFirstFail<A, T>(xs: seq<A>, f: A -> Result<T>, i: nat)
    requires i < |xs| && MapResult(xs[..i], f).Ok? && f(xs[i]).Fail?
    ensures MapResult(xs, f) == Fail(f(xs[i]).error)
    decreases |xs|
  {
    var pre := xs[..|xs| - 1];
    if i < |xs| - 1 {
      assert pre[..i] == xs[..i];
      MapResultFirstFail(pre, f, i);
    } else {
      assert pre == xs[..i];
    }
  }

  /** A loop that raises raises the exception of its first failing item. */
  lemma {:induction false} MapResultFirst<A, T>(xs: seq<A>, f: A -> Result<T>)
    requires MapResult(xs, f).Fail?
    ensures exists i :: 0 <= i < |xs| && MapResult(xs[..i], f).Ok? && f(xs[i]) == Fail(MapResult(xs, f).error)
    decreases |xs|
  {
    var pre := xs[..|xs| - 1];
    if MapResult(pre, f).Fail? {
      MapResultFirst(pre, f);
      var i :| 0 <= i < |pre| && MapResult(pre[..i], f).Ok? && f(pre[i]) == Fail(MapResult(pre, f).error);
      assert pre[..i] == xs[..i];
    } else {
      assert xs[..|xs| - 1] == pre;
    }
  }
}
