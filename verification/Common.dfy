/** Result types and the few facts about sequences that several components share. */
module Common {

  datatype Option<+T> = None | Some(value: T)

  datatype Result<+T, +E> = Ok(value: T) | Err(error: E)

  function Min(a: int, b: int): (m: int) { if a < b then a else b }

  /** No element occurs at two positions. */
  ghost predicate Distinct<T>(s: seq<T>) {
    forall i, j :: 0 <= i < j < |s| ==> s[i] != s[j]
  }

  /** Number of positions of `s` that satisfy `p`. */
  ghost function CountIf<T>(s: seq<T>, p: T -> bool): (n: nat)
    ensures n <= |s|
  {
    if s == [] then 0 else CountIf(s[..|s| - 1], p) + (if p(s[|s| - 1]) then 1 else 0)
  }

  lemma {:induction false} CountIfAppend<T>(a: seq<T>, b: seq<T>, p: T -> bool)
    ensures CountIf(a + b, p) == CountIf(a, p) + CountIf(b, p)
  {
    if b == [] {
      assert a + b == a;
    } else {
      assert (a + b)[..|a + b| - 1] == a + b[..|b| - 1];
      CountIfAppend(a, b[..|b| - 1], p);
    }
  }

  /** Counting ignores the order of the elements. */
  lemma {:induction false} CountIfPermutation<T>(a: seq<T>, b: seq<T>, p: T -> bool)
    requires multiset(a) == multiset(b)
    ensures CountIf(a, p) == CountIf(b, p)
  {
    if a == [] {
      assert |multiset(b)| == |b|;
      assert b == [];
    } else {
      var last := a[|a| - 1];
      var front, back := SplitAtElement(a, b);
      assert a == a[..|a| - 1] + [last];
      CountIfPermutation(a[..|a| - 1], front + back, p);
      CountIfAppend(front, back, p);
      CountIfAppend(front + [last], back, p);
      CountIfAppend(front, [last], p);
      CountIfAppend(a[..|a| - 1], [last], p);
    }
  }

  /** Some element counts exactly when one satisfies the predicate. */
  lemma {:induction false} CountIfZero<T>(s: seq<T>, p: T -> bool)
    ensures CountIf(s, p) == 0 <==> forall x :: x in s ==> !p(x)
  {
    if s != [] {
      CountIfZero(s[..|s| - 1], p);
      assert s == s[..|s| - 1] + [s[|s| - 1]];
    }
  }

  /** Counting depends only on which elements satisfy the predicate. */
  lemma {:induction false} CountIfSame<T>(s: seq<T>, p: T -> bool, q: T -> bool)
    requires forall x :: x in s ==> p(x) == q(x)
    ensures CountIf(s, p) == CountIf(s, q)
  {
    if s != [] { CountIfSame(s[..|s| - 1], p, q); }
  }

  /** Concatenation of the images of all elements. */
  ghost function FlatMap<T, U>(s: seq<T>, f: T -> seq<U>): (r: seq<U>) {
    if s == [] then [] else FlatMap(s[..|s| - 1], f) + f(s[|s| - 1])
  }

  lemma {:induction false} FlatMapAppend<T, U>(a: seq<T>, b: seq<T>, f: T -> seq<U>)
    ensures FlatMap(a + b, f) == FlatMap(a, f) + FlatMap(b, f)
  {
    if b == [] {
      assert a + b == a;
    } else {
      assert (a + b)[..|a + b| - 1] == a + b[..|b| - 1];
      FlatMapAppend(a, b[..|b| - 1], f);
    }
  }

  lemma {:induction false} FlatMapIff<T, U>(s: seq<T>, f: T -> seq<U>, u: U)
    ensures u in FlatMap(s, f) <==> exists i :: 0 <= i < |s| && u in f(s[i])
  {
    if s != [] {
      var n := |s| - 1;
      FlatMapIff(s[..n], f, u);
      if u in FlatMap(s[..n], f) {
        var i :| 0 <= i < n && u in f(s[..n][i]);
        assert u in f(s[i]);
      }
      if i :| 0 <= i < |s| && u in f(s[i]) {
        if i < n { assert u in f(s[..n][i]); }
      }
    }
  }

  lemma {:induction false} FlatMapPermutation<T, U>(a: seq<T>, b: seq<T>, f: T -> seq<U>)
    requires multiset(a) == multiset(b)
    ensures multiset(FlatMap(a, f)) == multiset(FlatMap(b, f))
  {
    if a == [] {
      assert |multiset(b)| == |b|;
      assert b == [];
    } else {
      var last := a[|a| - 1];
      var front, back := SplitAtElement(a, b);
      FlatMapPermutation(a[..|a| - 1], front + back, f);
      FlatMapAppend(front, back, f);
      FlatMapAppend(front + [last], back, f);
      assert (front + [last])[..|front|] == front;
    }
  }

  /** Cuts a permutation `b` of `a` around an occurrence of the last element of `a`. */
  lemma SplitAtElement<T>(a: seq<T>, b: seq<T>) returns (front: seq<T>, back: seq<T>)
    requires a != [] && multiset(a) == multiset(b)
    ensures b == front + [a[|a| - 1]] + back
    ensures multiset(a[..|a| - 1]) == multiset(front + back)
    ensures |front + back| < |b|
  {
    var last := a[|a| - 1];
    assert a == a[..|a| - 1] + [last];
    assert last in multiset(b);
    var k :| 0 <= k < |b| && b[k] == last;
    front, back := b[..k], b[k + 1..];
    assert b == front + [last] + back;
    assert multiset(a) == multiset(a[..|a| - 1]) + multiset{last};
    assert multiset(b) == multiset(front + back) + multiset{last};
    assert multiset(a[..|a| - 1]) == multiset(a) - multiset{last} == multiset(front + back);
  }

  /** Left fold: the state after taking one step per element. */
  ghost function Fold<S, T>(step: (S, T) -> S, s: S, xs: seq<T>): (s': S) {
    if xs == [] then s else step(Fold(step, s, xs[..|xs| - 1]), xs[|xs| - 1])
  }

  lemma {:induction false} FoldAppend<S, T>(step: (S, T) -> S, s: S, a: seq<T>, b: seq<T>)
    ensures Fold(step, s, a + b) == Fold(step, Fold(step, s, a), b)
  {
    if b == [] {
      assert a + b == a;
    } else {
      assert (a + b)[..|a + b| - 1] == a + b[..|b| - 1];
      FoldAppend(step, s, a, b[..|b| - 1]);
    }
  }

  /** An invariant that every step keeps holds after every fold. */
  lemma {:induction false} FoldInvariant<S(!new), T(!new)>(step: (S, T) -> S, s: S, xs: seq<T>, inv: S -> bool)
    requires inv(s)
    requires forall s: S, x: T :: inv(s) && x in xs ==> inv(step(s, x))
    ensures inv(Fold(step, s, xs))
  {
    if xs != [] { FoldInvariant(step, s, xs[..|xs| - 1], inv); }
  }
}
