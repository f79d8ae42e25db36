/** Finite sums, powers of two, and the counting arguments the conservation and termination proofs rest on. */
module Counting {

  /** Multiples of `n` are at least `n` apart. */
  lemma {:induction false} MultiplesApart(n: nat, a: int, b: int)
    requires a < b
    ensures a * n + n <= b * n
    decreases b - a
  {
    assert (a + 1) * n == a * n + n;
    if a + 1 < b {
      MultiplesApart(n, a + 1, b);
    }
  }

  function Power2(k: nat): (r: nat)
    ensures r > 0
  {
    if k == 0 then 1 else 2 * Power2(k - 1)
  }

  function Sum(xs: seq<nat>): nat {
    if xs == [] then 0 else xs[0] + Sum(xs[1..])
  }

  /** Replacing one entry moves the sum by the difference. */
  lemma {:induction false} SumUpdate(xs: seq<nat>, i: nat, x: nat)
    requires i < |xs|
    ensures Sum(xs[i := x]) + xs[i] == Sum(xs) + x
  {
    if i == 0 {
      assert xs[0 := x][1..] == xs[1..];
    } else {
      assert xs[i := x][1..] == xs[1..][i - 1 := x];
      SumUpdate(xs[1..], i - 1, x);
    }
  }

  ghost predicate Covers<T(!new)>(dom: set<T>, f: map<T, nat>, i: nat) {
    exists t :: t in dom && t in f && f[t] == i
  }

  /** A set whose image under `f` contains all numbers below `n` has at least `n` elements. */
  lemma {:induction false} CoverSize<T(!new)>(dom: set<T>, f: map<T, nat>, n: nat)
    requires forall i: nat :: i < n ==> Covers(dom, f, i)
    ensures n <= |dom|
  {
    if n > 0 {
      assert Covers(dom, f, n - 1);
      var t :| t in dom && t in f && f[t] == n - 1;
      forall i: nat | i < n - 1
        ensures Covers(dom - {t}, f, i)
      {
        assert Covers(dom, f, i);
        var u :| u in dom && u in f && f[u] == i;
        assert u in dom - {t};
      }
      CoverSize(dom - {t}, f, n - 1);
    }
  }

  /** The natural numbers below `n`. */
  function Range(n: nat): (r: set<nat>)
    ensures |r| == n
    ensures forall i: nat :: i in r <==> i < n
  {
    if n == 0 then {} else Range(n - 1) + {n - 1}
  }

  lemma {:induction false} SubsetSize<T>(a: set<T>, b: set<T>)
    requires a <= b
    ensures |a| <= |b|
    ensures |a| == |b| ==> a == b
  {
    if x :| x in a {
      SubsetSize(a - {x}, b - {x});
    } else if y :| y in b {
      assert |b - {y}| < |b|;
    }
  }

  /** An injective map has as many values as keys. */
  lemma {:induction false} ImageSize<A, B>(dom: set<A>, f: map<A, B>, image: set<B>)
    requires dom <= f.Keys
    requires forall a, a' :: a in dom && a' in dom && a != a' ==> f[a] != f[a']
    requires forall a :: a in dom ==> f[a] in image
    requires forall b :: b in image ==> exists a :: a in dom && f[a] == b
    ensures |image| == |dom|
  {
    if a :| a in dom {
      var b := f[a];
      forall c | c in image - {b}
        ensures exists x :: x in dom - {a} && f[x] == c
      {
        var x :| x in dom && f[x] == c;
        assert x in dom - {a};
      }
      ImageSize(dom - {a}, f, image - {b});
    } else {
      assert image == {};
    }
  }

  /** A sequence without repetitions has as many elements as its set of elements. */
  lemma {:induction false} DistinctSize<T>(xs: seq<T>)
    requires forall i: nat, j: nat :: i < j < |xs| ==> xs[i] != xs[j]
    ensures |set x | x in xs| == |xs|
  {
    if xs != [] {
      var front, last := xs[..|xs| - 1], xs[|xs| - 1];
      DistinctSize(front);
      assert last !in front;
      assert (set x | x in xs) == (set x | x in front) + {last};
    }
  }

  /** `n` different numbers below `n` are all the numbers below `n`. */
  lemma Pigeonhole(xs: seq<nat>)
    requires forall i: nat, j: nat :: i < j < |xs| ==> xs[i] != xs[j]
    requires forall i: nat :: i < |xs| ==> xs[i] < |xs|
    ensures forall i: nat :: i < |xs| ==> i in xs
  {
    DistinctSize(xs);
    var values := set x | x in xs;
    SubsetSize(values, Range(|xs|));
    assert values == Range(|xs|);
    forall i: nat | i < |xs|
      ensures i in xs
    {
      assert i in values;
    }
  }

  /** More numbers below `r` than `r` have a repetition among them. */
  lemma Repetition(xs: seq<nat>, r: nat) returns (i: nat, j: nat)
    requires |xs| > r && forall n: nat :: n < |xs| ==> xs[n] < r
    ensures i < j < |xs| && xs[i] == xs[j]
  {
    if !(exists n: nat, m: nat :: n < m < |xs| && xs[n] == xs[m]) {
      DistinctSize(xs);
      SubsetSize((set x | x in xs), Range(r));
    }
    i, j :| i < j < |xs| && xs[i] == xs[j];
  }
}
