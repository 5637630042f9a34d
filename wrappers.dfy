/** Failure-compatible wrappers shared by every solver module. */
module Wrappers {

  /** A value that may be missing (Python's `None`). */
  datatype Option<+T> = None | Some(value: T) {
    predicate IsFailure() { None? }

    function PropagateFailure<U>(): Option<U>
      requires None?
    {
      None
    }

    function Extract(): T
      requires Some?
    {
      value
    }
  }

  /** The outcome of a computation that may raise: `Failure` stands for the exception. */
  datatype Result<+R, +E> = Success(value: R) | Failure(error: E) {
    predicate IsFailure() { Failure? }

    function PropagateFailure<U>(): Result<U, E>
      requires Failure?
    {
      Failure(error)
    }

    function Extract(): R
      requires Success?
    {
      value
    }
  }

  /** Every element mapped by `f`, in order; `None` as soon as one of them maps to `None`
      (a list comprehension whose element expression may raise). */
  function MapAll<A, B>(xs: seq<A>, f: A -> Option<B>): Option<seq<B>>
    decreases |xs|
  {
    if |xs| == 0 then Some([])
    else
      var init :- MapAll(xs[..|xs| - 1], f);
      var y :- f(xs[|xs| - 1]);
      Some(init + [y])
  }

  /** The mapping succeeds exactly when it succeeds on every element, and then keeps one
      result per element, in order. */
  lemma {:induction false} MapAllMeaning<A, B>(xs: seq<A>, f: A -> Option<B>)
    ensures MapAll(xs, f).Some? <==> forall i :: 0 <= i < |xs| ==> f(xs[i]).Some?
    ensures MapAll(xs, f).Some? ==>
              |MapAll(xs, f).value| == |xs|
              && forall i :: 0 <= i < |xs| ==> f(xs[i]) == Some(MapAll(xs, f).value[i])
    decreases |xs|
  {
    if |xs| > 0 {
      var n := |xs| - 1;
      var init := xs[..n];
      MapAllMeaning(init, f);
      assert forall i :: 0 <= i < n ==> init[i] == xs[i];
      if MapAll(init, f).Some? && f(xs[n]).Some? {
        var r := MapAll(init, f).value + [f(xs[n]).value];
        assert MapAll(xs, f) == Some(r);
        assert forall i :: 0 <= i < n ==> r[i] == MapAll(init, f).value[i];
      } else if MapAll(init, f).None? {
        var k :| 0 <= k < n && f(init[k]).None?;
        assert f(xs[k]).None?;
      }
    }
  }

  /** No element is listed twice. */
  predicate Distinct<T(==)>(xs: seq<T>) {
    forall i, j :: 0 <= i < j < |xs| ==> xs[i] != xs[j]
  }

  /** A set that is not empty has a member. */
  lemma {:induction false} Inhabited<T>(s: set<T>)
    requires s != {}
    ensures exists x :: x in s
  {
    if forall x :: x !in s {
      assert false;
    }
  }

  /** Some member of a set that is not empty. */
  ghost function Member<T>(s: set<T>): (x: T)
    requires s != {}
    ensures x in s
  {
    Inhabited(s);
    var x :| x in s; x
  }
}
