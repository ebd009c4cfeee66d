/** Folding a commutative, associative operation over a sequence: the result depends on the members
    only, not on their order; and integer sums. */
module Folds {
  ghost predicate Commutes<T(!new)>(op: (T, T) -> T) {
    forall x, y :: op(x, y) == op(y, x)
  }

  ghost predicate Associates<T(!new)>(op: (T, T) -> T) {
    forall x, y, z :: op(op(x, y), z) == op(x, op(y, z))
  }

  /** `f(s[0])`, `f(s[1])`, ... combined from left to right. */
  function Fold<S, T>(s: seq<S>, f: S -> T, op: (T, T) -> T, unit: T): T {
    if s == [] then unit else op(Fold(s[..|s| - 1], f, op, unit), f(s[|s| - 1]))
  }

  /** The integer sum of `f(s[0])`, `f(s[1])`, ... */
  function Sum<S>(s: seq<S>, f: S -> nat): nat {
    if s == [] then 0 else Sum(s[..|s| - 1], f) + f(s[|s| - 1])
  }

  lemma {:induction false} SumOfNothing<S>(s: seq<S>, f: S -> nat)
    requires forall i :: 0 <= i < |s| ==> f(s[i]) == 0
    ensures Sum(s, f) == 0
  {
    if s != [] {
      SumOfNothing(s[..|s| - 1], f);
    }
  }

  function Without<S>(s: seq<S>, i: nat): seq<S>
    requires i < |s|
  {
    s[..i] + s[i + 1..]
  }

  /** Any member can be folded in last. */
  lemma {:induction false} PullOut<S, T(!new)>(s: seq<S>, i: nat, f: S -> T, op: (T, T) -> T, unit: T)
    requires Commutes(op) && Associates(op) && i < |s|
    ensures Fold(s, f, op, unit) == op(Fold(Without(s, i), f, op, unit), f(s[i]))
  {
    var n := |s| - 1;
    if i < n {
      var rest := Without(s, i);
      assert rest[..n - 1] == Without(s[..n], i) && rest[n - 1] == s[n];
      PullOut(s[..n], i, f, op, unit);
    } else {
      assert Without(s, i) == s[..n];
    }
  }

  lemma {:induction false} FoldOfPermutation<S, T(!new)>(
      a: seq<S>, b: seq<S>, f: S -> T, op: (T, T) -> T, unit: T)
    requires Commutes(op) && Associates(op) && multiset(a) == multiset(b)
    ensures Fold(a, f, op, unit) == Fold(b, f, op, unit)
    decreases |a|
  {
    if a == [] {
      assert |multiset(b)| == |b|;
    } else {
      var n := |a| - 1;
      var x := a[n];
      assert a == a[..n] + [x];
      assert x in multiset(b);
      var i :| 0 <= i < |b| && b[i] == x;
      assert b == b[..i] + [x] + b[i + 1..];
      assert multiset(Without(b, i)) == multiset(b) - multiset{x};
      FoldOfPermutation(a[..n], Without(b, i), f, op, unit);
      PullOut(b, i, f, op, unit);
    }
  }

  /** Folding the same values gives the same result. */
  lemma {:induction false} FoldSame<S, R, T>(
      a: seq<S>, b: seq<R>, f: S -> T, g: R -> T, op: (T, T) -> T, unit: T)
    requires |a| == |b| && forall i :: 0 <= i < |a| ==> f(a[i]) == g(b[i])
    ensures Fold(a, f, op, unit) == Fold(b, g, op, unit)
  {
    if a != [] {
      FoldSame(a[..|a| - 1], b[..|b| - 1], f, g, op, unit);
    }
  }
}
