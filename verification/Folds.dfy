/** Repetition of a step, and what a step's properties say about its repetitions. */
module Folds {
  function Iterate<S>(f: S -> S, s: S, n: nat): S
    decreases n, [s]
  {
    if n == 0 then s else f(Iterate(f, s, n - 1))
  }

  function Fold<S, B>(f: (S, B) -> S, s: S, xs: seq<B>): S
    decreases |xs|
  {
    if xs == [] then s else Fold(f, f(s, xs[0]), xs[1..])
  }

  lemma {:induction false} FoldConcat<S, B>(f: (S, B) -> S, s: S, xs: seq<B>, ys: seq<B>)
    ensures Fold(f, s, xs + ys) == Fold(f, Fold(f, s, xs), ys)
    decreases |xs|
  {
    if xs == [] {
      assert xs + ys == ys;
    } else {
      assert (xs + ys)[1..] == xs[1..] + ys;
      FoldConcat(f, f(s, xs[0]), xs[1..], ys);
    }
  }

  lemma {:induction false} FoldInjective<S(!new), B(!new)>(f: (S, B) -> S, s: S, t: S, xs: seq<B>)
    requires forall a, b, x :: f(a, x) == f(b, x) ==> a == b
    requires Fold(f, s, xs) == Fold(f, t, xs)
    ensures s == t
    decreases |xs|
  {
    if xs != [] {
      FoldInjective(f, f(s, xs[0]), f(t, xs[0]), xs[1..]);
    }
  }

  lemma {:induction false} IterateInjective<S(!new)>(f: S -> S, s: S, t: S, n: nat)
    requires forall a, b :: f(a) == f(b) ==> a == b
    requires Iterate(f, s, n) == Iterate(f, t, n)
    ensures s == t
  {
    if n > 0 {
      IterateInjective(f, s, t, n - 1);
    }
  }

  ghost predicate Preserves<S>(f: S -> S, op: (S, S) -> S, a: S, b: S) {
    f(op(a, b)) == op(f(a), f(b))
  }

  lemma {:induction false} IteratePreserves<S(!new)>(f: S -> S, op: (S, S) -> S, a: S, b: S, n: nat)
    requires forall x, y :: Preserves(f, op, x, y)
    ensures Preserves(s => Iterate(f, s, n), op, a, b)
  {
    if n > 0 {
      IteratePreserves(f, op, a, b, n - 1);
      assert Preserves(f, op, Iterate(f, a, n - 1), Iterate(f, b, n - 1));
    }
  }

  lemma {:induction false} IterateAdd<S>(f: S -> S, s: S, m: nat, n: nat)
    ensures Iterate(f, Iterate(f, s, m), n) == Iterate(f, s, m + n)
  {
    if n > 0 {
      IterateAdd(f, s, m, n - 1);
    }
  }
}
