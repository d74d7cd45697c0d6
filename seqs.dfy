/** Sequence combinators shared by the three handlers. */
module Seqs {

  /** The concatenation of `f(x)` over the elements `x` of `xs`, in order. */
  function FlatMap<T, U>(xs: seq<T>, f: T -> seq<U>): seq<U>
    decreases |xs|
  {
    if xs == [] then [] else FlatMap(xs[..|xs| - 1], f) + f(xs[|xs| - 1])
  }

  /** FlatMap distributes over concatenation, so the output of a prefix is a prefix of the output. */
  lemma {:induction false} FlatMapAppend<T, U>(a: seq<T>, b: seq<T>, f: T -> seq<U>)
    ensures FlatMap(a + b, f) == FlatMap(a, f) + FlatMap(b, f)
    decreases |b|
  {
    if b == [] {
      assert a + b == a;
    } else {
      var init := b[..|b| - 1];
      FlatMapAppend(a, init, f);
      assert (a + b)[..|a + b| - 1] == a + init;
      assert (a + b)[|a + b| - 1] == b[|b| - 1];
    }
  }

  /** An element of a FlatMap comes from the image of some element, and every image is included. */
  lemma {:induction false} FlatMapMembers<T, U>(xs: seq<T>, f: T -> seq<U>, y: U)
    ensures y in FlatMap(xs, f) <==> exists x :: x in xs && y in f(x)
    decreases |xs|
  {
    if xs != [] {
      var init, last := xs[..|xs| - 1], xs[|xs| - 1];
      FlatMapMembers(init, f, y);
      assert xs == init + [last];
      assert forall x :: x in xs <==> x in init || x == last;
    }
  }

  /** A FlatMap whose every image is empty is empty. */
  lemma {:induction false} FlatMapEmpty<T, U>(xs: seq<T>, f: T -> seq<U>)
    requires forall x :: x in xs ==> f(x) == []
    ensures FlatMap(xs, f) == []
    decreases |xs|
  {
    if xs != [] {
      FlatMapEmpty(xs[..|xs| - 1], f);
      assert xs[|xs| - 1] in xs;
    }
  }

  /** FlatMap over one element is that element's image. */
  lemma FlatMapSingleton<T, U>(x: T, f: T -> seq<U>)
    ensures FlatMap([x], f) == f(x)
  {
    assert [x][..0] == [];
  }

  /** Flattening two elements concatenates their images. */
  lemma FlatMapPair<T, U>(x: T, y: T, f: T -> seq<U>)
    ensures FlatMap([x, y], f) == f(x) + f(y)
  {
    assert [x, y][..1] == [x];
    FlatMapSingleton(x, f);
  }

  /** Concatenation is associative. */
  lemma AppendAssoc<T>(a: seq<T>, b: seq<T>, c: seq<T>)
    ensures (a + b) + c == a + (b + c)
  {
  }

  /** When every image is a single element, FlatMap maps element by element. */
  lemma {:induction false} FlatMapSingletons<T, U>(xs: seq<T>, f: T -> seq<U>, g: T -> U)
    requires forall x :: x in xs ==> f(x) == [g(x)]
    ensures |FlatMap(xs, f)| == |xs|
    ensures forall k :: 0 <= k < |xs| ==> FlatMap(xs, f)[k] == g(xs[k])
    decreases |xs|
  {
    if xs != [] {
      var n := |xs| - 1;
      FlatMapSingletons(xs[..n], f, g);
      assert xs[n] in xs;
      var r, prev := FlatMap(xs, f), FlatMap(xs[..n], f);
      assert r == prev + [g(xs[n])];
      forall k | 0 <= k < n ensures r[k] == g(xs[k]) {
        assert r[k] == prev[k] && xs[..n][k] == xs[k];
      }
    }
  }
}
