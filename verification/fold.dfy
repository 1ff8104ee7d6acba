/** Left folds of a step function over a sequence, and the same fold repeated:
    the shape of the trainer's epoch and epoch loops, independent of what one
    step computes. */
module Folds {

  /** `f(... f(f(a, xs[0]), xs[1]) ..., xs[|xs|-1])`: each element in order,
      each seeing the state the previous one left. */
  function FoldLeft<A, B>(a: A, xs: seq<B>, f: (A, B) -> A): A
    decreases |xs|
  {
    if |xs| == 0 then a else f(FoldLeft(a, xs[..|xs| - 1], f), xs[|xs| - 1])
  }

  /** Folding one more element applies the step once more. */
  lemma FoldSnoc<A, B>(a: A, xs: seq<B>, i: nat, f: (A, B) -> A)
    requires i < |xs|
    ensures FoldLeft(a, xs[..i + 1], f) == f(FoldLeft(a, xs[..i], f), xs[i])
  {
    assert xs[..i + 1][..i] == xs[..i];
  }

  /** Folding over `xs + ys` folds over `xs`, then over `ys` from where it stopped. */
  lemma {:induction false} FoldAppend<A, B>(a: A, xs: seq<B>, ys: seq<B>, f: (A, B) -> A)
    ensures FoldLeft(a, xs + ys, f) == FoldLeft(FoldLeft(a, xs, f), ys, f)
    decreases |ys|
  {
    if |ys| == 0 {
      assert xs + ys == xs;
    } else {
      var init := ys[..|ys| - 1];
      assert (xs + ys)[..|xs + ys| - 1] == xs + init;
      FoldAppend(a, xs, init, f);
    }
  }

  /** A property every step keeps holds after the whole fold. */
  lemma {:induction false} FoldInvariant<A, B>(a: A, xs: seq<B>, f: (A, B) -> A, inv: A -> bool)
    requires inv(a)
    requires forall s, x :: inv(s) && x in xs ==> inv(f(s, x))
    ensures inv(FoldLeft(a, xs, f))
    decreases |xs|
  {
    if |xs| > 0 {
      var init := xs[..|xs| - 1];
      assert forall x :: x in init ==> x in xs;
      FoldInvariant(a, init, f, inv);
      assert xs[|xs| - 1] in xs;
    }
  }

  /** `xs` written out `e` times, back to back. */
  function Repeat<B>(xs: seq<B>, e: nat): (r: seq<B>)
    ensures |r| == e * |xs|
    ensures forall x :: x in r ==> x in xs
  {
    if e == 0 then [] else Repeat(xs, e - 1) + xs
  }

  /** The fold run `e` times, each pass starting from the state the previous left. */
  function Iterate<A, B>(a: A, xs: seq<B>, e: nat, f: (A, B) -> A): A {
    if e == 0 then a else FoldLeft(Iterate(a, xs, e - 1, f), xs, f)
  }

  /** A property every step keeps holds after any number of passes. */
  lemma {:induction false} IterateInvariant<A, B>(a: A, xs: seq<B>, e: nat, f: (A, B) -> A, inv: A -> bool)
    requires inv(a)
    requires forall s, x :: inv(s) && x in xs ==> inv(f(s, x))
    ensures inv(Iterate(a, xs, e, f))
  {
    if e > 0 {
      IterateInvariant(a, xs, e - 1, f, inv);
      FoldInvariant(Iterate(a, xs, e - 1, f), xs, f, inv);
    }
  }

  /** Running the fold `e` times is one fold over `e` copies of `xs`. */
  lemma {:induction false} IterateIsOneFold<A, B>(a: A, xs: seq<B>, e: nat, f: (A, B) -> A)
    ensures Iterate(a, xs, e, f) == FoldLeft(a, Repeat(xs, e), f)
  {
    if e > 0 {
      IterateIsOneFold(a, xs, e - 1, f);
      FoldAppend(a, Repeat(xs, e - 1), xs, f);
    }
  }

  /** Five copies, written out. */
  lemma RepeatFive<B>(xs: seq<B>)
    ensures Repeat(xs, 5) == xs + xs + xs + xs + xs
  {
    assert Repeat(xs, 1) == [] + xs == xs;
    assert Repeat(xs, 2) == xs + xs;
    assert Repeat(xs, 3) == xs + xs + xs;
    assert Repeat(xs, 4) == xs + xs + xs + xs;
  }
}
