/** `functools.reduce(f, xs)` without an initial value, as both scripts
    call it.

    With no initial value, `reduce` starts from the first element and
    combines from the left; on an empty sequence it raises `TypeError`
    instead of returning a value. Both behaviours are kept: `Fold1` is the
    left fold of a non-empty sequence and `Reduce` returns
    `Failure(EmptyWithoutInitial)` on an empty one.
 */
module Fold {
  import opened Wrappers

  /** The `TypeError` `reduce` raises on an empty sequence with no initial value. */
  datatype ReduceError = EmptyWithoutInitial

  ghost predicate Associative<T(!new)>(f: (T, T) -> T) {
    forall a, b, c :: f(f(a, b), c) == f(a, f(b, c))
  }

  ghost predicate Commutative<T(!new)>(f: (T, T) -> T) {
    forall a, b :: f(a, b) == f(b, a)
  }

  /** `f(...f(f(xs[0], xs[1]), xs[2])..., xs[|xs|-1])`. */
  function Fold1<T>(f: (T, T) -> T, xs: seq<T>): T
    requires |xs| > 0
    decreases |xs|
  {
    if |xs| == 1 then xs[0] else f(Fold1(f, xs[..|xs| - 1]), xs[|xs| - 1])
  }

  /** `functools.reduce(f, xs)`: fails exactly on the empty sequence. */
  function Reduce<T>(f: (T, T) -> T, xs: seq<T>): (r: Result<T, ReduceError>)
    ensures r.Failure? <==> |xs| == 0
    ensures r.Success? ==> r.value == Fold1(f, xs)
  {
    if |xs| == 0 then Failure(EmptyWithoutInitial) else Success(Fold1(f, xs))
  }

  /** Regrouping: with an associative combiner, reducing a concatenation
      is combining the reductions of the two parts. This is what lets the
      per-file results be reduced in chunks. */
  lemma {:induction false} Fold1Append<T(!new)>(f: (T, T) -> T, a: seq<T>, b: seq<T>)
    requires Associative(f)
    requires |a| > 0 && |b| > 0
    ensures Fold1(f, a + b) == f(Fold1(f, a), Fold1(f, b))
    decreases |b|
  {
    var ab := a + b;
    if |b| == 1 {
      assert ab[..|ab| - 1] == a;
    } else {
      var b' := b[..|b| - 1];
      assert ab[..|ab| - 1] == a + b';
      assert ab[|ab| - 1] == b[|b| - 1];
      Fold1Append(f, a, b');
    }
  }

  /** Folding a sequence that starts with `x` combines `x` with the fold
      of the rest. */
  lemma Fold1Cons<T(!new)>(f: (T, T) -> T, x: T, xs: seq<T>)
    requires Associative(f)
    requires |xs| > 0
    ensures Fold1(f, [x] + xs) == f(x, Fold1(f, xs))
  {
    Fold1Append(f, [x], xs);
  }

  /** Deleting the element at `j` removes one copy of it from the multiset. */
  lemma MultisetRemoveAt<T>(ys: seq<T>, j: int)
    requires 0 <= j < |ys|
    ensures multiset(ys[..j] + ys[j + 1..]) == multiset(ys) - multiset{ys[j]}
  {
    assert ys == ys[..j] + [ys[j]] + ys[j + 1..];
    calc {
      multiset(ys);
      multiset(ys[..j] + [ys[j]]) + multiset(ys[j + 1..]);
      multiset(ys[..j]) + multiset{ys[j]} + multiset(ys[j + 1..]);
    }
  }

  /** With an associative and commutative combiner, an element anywhere in
      the sequence can be folded in last. */
  lemma Fold1MoveLast<T(!new)>(f: (T, T) -> T, left: seq<T>, x: T, right: seq<T>)
    requires Associative(f) && Commutative(f)
    requires |left + right| > 0
    ensures Fold1(f, left + [x] + right) == f(Fold1(f, left + right), x)
  {
    if |left| == 0 {
      assert left + [x] + right == [x] + right;
      assert left + right == right;
      Fold1Cons(f, x, right);
    } else if |right| == 0 {
      assert left + [x] + right == left + [x];
      assert (left + [x])[..|left|] == left;
      assert left + right == left;
    } else {
      Fold1Append(f, left + [x], right);
      Fold1Append(f, left, [x]);
      Fold1Append(f, left, right);
      var l, r := Fold1(f, left), Fold1(f, right);
      calc {
        Fold1(f, left + [x] + right);
        f(f(l, x), r);
        f(l, f(x, r));
        { assert f(x, r) == f(r, x); }
        f(l, f(r, x));
        f(f(l, r), x);
      }
    }
  }

  /** Order independence: with an associative and commutative combiner,
      any permutation of the inputs reduces to the same value. This is
      what makes the order in which parallel workers hand back their
      results irrelevant. */
  lemma {:induction false} Fold1Permutation<T(!new)>(f: (T, T) -> T, xs: seq<T>, ys: seq<T>)
    requires Associative(f) && Commutative(f)
    requires |xs| > 0
    requires multiset(xs) == multiset(ys)
    ensures |ys| == |xs|
    ensures Fold1(f, xs) == Fold1(f, ys)
    decreases |xs|
  {
    assert |ys| == |multiset(ys)| == |multiset(xs)| == |xs|;
    var n := |xs|;
    var x := xs[n - 1];
    assert x in multiset(ys);
    var j :| 0 <= j < |ys| && ys[j] == x;
    if n == 1 {
      assert ys == [x];
    } else {
      var xs' := xs[..n - 1];
      var ys' := ys[..j] + ys[j + 1..];
      MultisetRemoveAt(xs, n - 1);
      assert xs[..n - 1] + xs[n..] == xs';
      MultisetRemoveAt(ys, j);
      Fold1Permutation(f, xs', ys');
      assert ys == ys[..j] + [x] + ys[j + 1..];
      Fold1MoveLast(f, ys[..j], x, ys[j + 1..]);
    }
  }
}
