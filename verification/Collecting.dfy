/** Running a step that may fail over a sequence, and keeping successes and errors apart, in order. */
module Collecting {
  import opened Common

  function Oks<X, T, E>(f: X -> Result<T, E>, xs: seq<X>): seq<T> {
    if xs == [] then []
    else Oks(f, xs[..|xs| - 1]) + match f(xs[|xs| - 1]) case Ok(t) => [t] case Err(_) => []
  }

  function Errs<X, T, E>(f: X -> Result<T, E>, xs: seq<X>): seq<E> {
    if xs == [] then []
    else Errs(f, xs[..|xs| - 1]) + match f(xs[|xs| - 1]) case Ok(_) => [] case Err(e) => [e]
  }

  /** Every element gives one success or one error; without an error the successes line up. */
  ghost predicate OneOfEach<X, T, E>(f: X -> Result<T, E>, xs: seq<X>, oks: seq<T>, errs: seq<E>) {
    && |oks| + |errs| == |xs|
    && (errs == [] <==> forall i :: 0 <= i < |xs| ==> f(xs[i]).Ok?)
    && (errs == [] ==> forall i :: 0 <= i < |xs| ==> f(xs[i]) == Ok(oks[i]))
  }

  lemma OneMoreOk<X, T, E>(f: X -> Result<T, E>, xs: seq<X>, x: X, oks: seq<T>, errs: seq<E>)
    requires OneOfEach(f, xs, oks, errs) && f(x).Ok?
    ensures OneOfEach(f, xs + [x], oks + [f(x).value], errs)
  {
    assert forall i :: 0 <= i < |xs| ==> (xs + [x])[i] == xs[i];
  }

  lemma OneMoreErr<X, T, E>(f: X -> Result<T, E>, xs: seq<X>, x: X, oks: seq<T>, errs: seq<E>)
    requires OneOfEach(f, xs, oks, errs) && f(x).Err?
    ensures OneOfEach(f, xs + [x], oks, errs + [f(x).error])
  {
    assert (xs + [x])[|xs|] == x;
  }

  lemma {:induction false} OneEach<X, T, E>(f: X -> Result<T, E>, xs: seq<X>)
    ensures OneOfEach(f, xs, Oks(f, xs), Errs(f, xs))
  {
    if xs != [] {
      var before, last := xs[..|xs| - 1], xs[|xs| - 1];
      OneEach(f, before);
      assert before + [last] == xs;
      if f(last).Ok? {
        assert Errs(f, xs) == Errs(f, before);
        OneMoreOk(f, before, last, Oks(f, before), Errs(f, before));
      } else {
        assert Oks(f, xs) == Oks(f, before);
        OneMoreErr(f, before, last, Oks(f, before), Errs(f, before));
      }
    }
  }
}
