/** Small failure-compatible wrappers and sequence helpers used across the model. */
module Wrappers {

  datatype Option<+T> = None | Some(value: T)

  /**
   * The Java exceptions the pipeline can see: the checked `IOException` the PDF library reports,
   * the `NullPointerException` it raises for a page that does not exist, and the unchecked
   * `RuntimeException` that the document loop wraps an `IOException` in.
   */
  datatype Exception =
    | IOException(message: string)
    | NullPointerException
    | RuntimeException(cause: Exception)

  /** A computation that either yields a value or throws. */
  datatype Result<+T> = Ok(value: T) | Thrown(error: Exception)

  /** Concatenation is associative (stated once, generically, so callers need not re-derive it). */
  lemma ConcatAssoc<T>(a: seq<T>, b: seq<T>, c: seq<T>)
    ensures (a + b) + c == a + (b + c)
  {
  }

  /** The concatenation of `f(x)` for every x of xs, in order. */
  function FlatMap<T, U>(f: T -> seq<U>, xs: seq<T>): seq<U>
    decreases |xs|
  {
    if xs == [] then [] else FlatMap(f, xs[..|xs| - 1]) + f(xs[|xs| - 1])
  }

  /** Mapping consecutive runs and concatenating is mapping their concatenation. */
  lemma {:induction false} FlatMapAppend<T, U>(f: T -> seq<U>, a: seq<T>, b: seq<T>)
    ensures FlatMap(f, a + b) == FlatMap(f, a) + FlatMap(f, b)
    decreases |b|
  {
    if b == [] {
      assert a + b == a;
    } else {
      var last := b[|b| - 1];
      FlatMapAppend(f, a, b[..|b| - 1]);
      assert (a + b)[..|a + b| - 1] == a + b[..|b| - 1];
      ConcatAssoc(FlatMap(f, a), FlatMap(f, b[..|b| - 1]), f(last));
    }
  }
}
