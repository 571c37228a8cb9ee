/** Concatenating per-element results over a sequence, as a list built by `append` in a loop. */
module Seqs {

  /** `f(xs[0]) + f(xs[1]) + ...`, in the order of `xs`. */
  function FlatMap<T, U>(xs: seq<T>, f: T -> seq<U>): seq<U> {
    if xs == [] then [] else FlatMap(xs[..|xs| - 1], f) + f(xs[|xs| - 1])
  }

  /** Extending the input by one element appends that element's results. */
  lemma FlatMapSnoc<T, U>(xs: seq<T>, x: T, f: T -> seq<U>)
    ensures FlatMap(xs + [x], f) == FlatMap(xs, f) + f(x)
  {
    assert (xs + [x])[..|xs|] == xs;
  }

  /** The results for `a + b` are the results for `a` followed by those for `b`. */
  lemma {:induction false} FlatMapAppend<T, U>(a: seq<T>, b: seq<T>, f: T -> seq<U>)
    ensures FlatMap(a + b, f) == FlatMap(a, f) + FlatMap(b, f)
    decreases |b|
  {
    if b == [] {
      assert a + b == a;
    } else {
      assert (a + b)[..|a + b| - 1] == a + b[..|b| - 1];
      assert (a + b)[|a + b| - 1] == b[|b| - 1];
      FlatMapAppend(a, b[..|b| - 1], f);
    }
  }

  /** An element that yields nothing can be dropped from anywhere in the input. */
  lemma FlatMapSkip<T, U>(before: seq<T>, x: T, after: seq<T>, f: T -> seq<U>)
    requires f(x) == []
    ensures FlatMap(before + [x] + after, f) == FlatMap(before + after, f)
  {
    FlatMapAppend(before + [x], after, f);
    FlatMapSnoc(before, x, f);
    FlatMapAppend(before, after, f);
  }

  /** When every element yields at most one result, there are at most as many results as elements. */
  lemma {:induction false} FlatMapLength<T, U>(xs: seq<T>, f: T -> seq<U>)
    requires forall i :: 0 <= i < |xs| ==> |f(xs[i])| <= 1
    ensures |FlatMap(xs, f)| <= |xs|
  {
    if xs != [] {
      var init := xs[..|xs| - 1];
      assert forall i :: 0 <= i < |init| ==> init[i] == xs[i];
      FlatMapLength(init, f);
    }
  }

  /** `y` is a result exactly when some element yields it. */
  lemma {:induction false} FlatMapMembers<T, U>(xs: seq<T>, f: T -> seq<U>, y: U)
    ensures y in FlatMap(xs, f) <==> exists i :: 0 <= i < |xs| && y in f(xs[i])
  {
    if xs != [] {
      var init := xs[..|xs| - 1];
      FlatMapMembers(init, f, y);
      if y in FlatMap(xs, f) && y in FlatMap(init, f) {
        var i :| 0 <= i < |init| && y in f(init[i]);
        assert init[i] == xs[i];
      }
      if exists i :: 0 <= i < |xs| && y in f(xs[i]) {
        var i :| 0 <= i < |xs| && y in f(xs[i]);
        if i < |init| {
          assert init[i] == xs[i];
        }
      }
    }
  }

  /** `count` copies of an element that yields `[y]` give `count` copies of `y`. */
  lemma {:induction false} FlatMapRepeat<T, U>(x: T, y: U, count: nat, f: T -> seq<U>)
    requires f(x) == [y]
    ensures FlatMap(seq(count, _ => x), f) == seq(count, _ => y)
  {
    if count > 0 {
      assert seq(count, _ => x)[..count - 1] == seq(count - 1, _ => x);
      FlatMapRepeat(x, y, count - 1, f);
      assert seq(count - 1, _ => y) + [y] == seq(count, _ => y);
    }
  }

}
