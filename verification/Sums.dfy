/** Finite sums over sequences, the arithmetic under every cost and duration total.

Statements avoid comparing function values: a lemma about a sum of sums takes the inner and
outer summands as parameters and asks that they agree on the elements summed over. */
module Sums {

  function Sum<T>(f: T -> int, xs: seq<T>): int {
    if xs == [] then 0 else Sum(f, xs[..|xs| - 1]) + f(xs[|xs| - 1])
  }

  /** The integers lo, lo + 1, ..., hi - 1: the unit ticks of a half-open interval. */
  function Range(lo: int, hi: int): (r: seq<int>)
    requires lo <= hi
    ensures |r| == hi - lo
    ensures forall k | 0 <= k < |r| :: r[k] == lo + k
    ensures forall x :: x in r <==> lo <= x < hi
    decreases hi - lo
  {
    if lo == hi then [] else Range(lo, hi - 1) + [hi - 1]
  }

  ghost predicate Distinct<T>(xs: seq<T>) {
    forall i, j | 0 <= i < j < |xs| :: xs[i] != xs[j]
  }

  lemma {:induction false} OneMore<T>(f: T -> int, xs: seq<T>, k: nat)
    requires k < |xs|
    ensures Sum(f, xs[..k + 1]) == Sum(f, xs[..k]) + f(xs[k])
  {
    assert xs[..k + 1][..k] == xs[..k];
  }

  lemma {:induction false} Concat<T>(f: T -> int, xs: seq<T>, ys: seq<T>)
    ensures Sum(f, xs + ys) == Sum(f, xs) + Sum(f, ys)
  {
    if ys == [] {
      assert xs + ys == xs;
    } else {
      Concat(f, xs, ys[..|ys| - 1]);
      assert (xs + ys)[..|xs + ys| - 1] == xs + ys[..|ys| - 1];
    }
  }

  lemma {:induction false} Linear<T>(f: T -> int, g: T -> int, h: T -> int, xs: seq<T>)
    requires forall x | x in xs :: h(x) == f(x) + g(x)
    ensures Sum(h, xs) == Sum(f, xs) + Sum(g, xs)
  {
    if xs != [] { Linear(f, g, h, xs[..|xs| - 1]); }
  }

  lemma {:induction false} Scaled<T>(f: T -> int, h: T -> int, c: int, xs: seq<T>)
    requires forall x | x in xs :: h(x) == c * f(x)
    ensures Sum(h, xs) == c * Sum(f, xs)
  {
    if xs != [] { Scaled(f, h, c, xs[..|xs| - 1]); }
  }

  lemma {:induction false} Congruent<T>(f: T -> int, g: T -> int, xs: seq<T>)
    requires forall x | x in xs :: f(x) == g(x)
    ensures Sum(f, xs) == Sum(g, xs)
  {
    if xs != [] { Congruent(f, g, xs[..|xs| - 1]); }
  }

  /** Term by term, one list against another, up to a factor. */
  lemma {:induction false} Mapped<X, Y>(f: X -> int, g: Y -> int, c: int, xs: seq<X>, ys: seq<Y>)
    requires |xs| == |ys| && forall k | 0 <= k < |xs| :: f(xs[k]) == c * g(ys[k])
    ensures Sum(f, xs) == c * Sum(g, ys)
  {
    if xs != [] { Mapped(f, g, c, xs[..|xs| - 1], ys[..|ys| - 1]); }
  }

  lemma {:induction false} Monotone<T>(f: T -> int, g: T -> int, xs: seq<T>)
    requires forall x | x in xs :: f(x) <= g(x)
    ensures Sum(f, xs) <= Sum(g, xs)
  {
    if xs != [] { Monotone(f, g, xs[..|xs| - 1]); }
  }

  lemma {:induction false} Constant<T>(f: T -> int, c: int, xs: seq<T>)
    requires forall x | x in xs :: f(x) == c
    ensures Sum(f, xs) == c * |xs|
  {
    if xs != [] { Constant(f, c, xs[..|xs| - 1]); }
  }

  /** Non-negative terms with a sum of at most zero are all zero. */
  lemma {:induction false} AllZero<T>(f: T -> int, xs: seq<T>)
    requires forall x | x in xs :: f(x) >= 0
    requires Sum(f, xs) <= 0
    ensures forall x | x in xs :: f(x) == 0
  {
    if xs != [] {
      var rest := xs[..|xs| - 1];
      NonNegative(f, rest);
      AllZero(f, rest);
      assert forall x | x in xs :: x in rest || x == xs[|xs| - 1];
    }
  }

  lemma {:induction false} NonNegative<T>(f: T -> int, xs: seq<T>)
    requires forall x | x in xs :: f(x) >= 0
    ensures Sum(f, xs) >= 0
  {
    if xs != [] { NonNegative(f, xs[..|xs| - 1]); }
  }

  /** Order of summation: F(x)(y) == G(y)(x), f and g are the two inner sums. */
  lemma {:induction false} Swap<X, Y>(F: X -> Y -> int, G: Y -> X -> int,
                                      f: X -> int, g: Y -> int, xs: seq<X>, ys: seq<Y>)
    requires forall x, y | x in xs && y in ys :: F(x)(y) == G(y)(x)
    requires forall x | x in xs :: f(x) == Sum(F(x), ys)
    requires forall y | y in ys :: g(y) == Sum(G(y), xs)
    ensures Sum(f, xs) == Sum(g, ys)
  {
    if xs == [] {
      Constant(g, 0, ys);
    } else {
      var rest, last := xs[..|xs| - 1], xs[|xs| - 1];
      var g' := y => Sum(G(y), rest);
      Swap(F, G, f, g', rest, ys);
      Linear(g', F(last), g, ys);
    }
  }

  lemma {:induction false} Remove<T>(f: T -> int, xs: seq<T>, k: nat)
    requires k < |xs|
    ensures Sum(f, xs) == Sum(f, xs[..k] + xs[k + 1..]) + f(xs[k])
  {
    Concat(f, xs[..k], xs[k + 1..]);
    Concat(f, xs[..k + 1], xs[k + 1..]);
    assert xs[..k + 1] + xs[k + 1..] == xs;
    assert xs[..k + 1][..k] == xs[..k];
  }

  /** Taking one occurrence of a value out of a list. */
  lemma {:induction false} Extract<T>(ys: seq<T>, y: T) returns (k: nat, rest: seq<T>)
    requires y in ys
    ensures k < |ys| && ys[k] == y && rest == ys[..k] + ys[k + 1..]
    ensures multiset(ys) == multiset(rest) + multiset{y}
    ensures Distinct(ys) ==> Distinct(rest) && forall x | x in ys && x != y :: x in rest
  {
    k :| 0 <= k < |ys| && ys[k] == y;
    rest := ys[..k] + ys[k + 1..];
    TakenOut(ys, k);
    if Distinct(ys) { Without(ys, k); }
  }

  lemma {:induction false} TakenOut<T>(ys: seq<T>, k: nat)
    requires k < |ys|
    ensures multiset(ys) == multiset(ys[..k] + ys[k + 1..]) + multiset{ys[k]}
    ensures forall x | x in ys && x != ys[k] :: x in ys[..k] + ys[k + 1..]
  {
    assert ys == ys[..k] + [ys[k]] + ys[k + 1..];
  }

  lemma {:induction false} Without<T>(ys: seq<T>, k: nat)
    requires k < |ys| && Distinct(ys)
    ensures Distinct(ys[..k] + ys[k + 1..])
  {
    var rest := ys[..k] + ys[k + 1..];
    assert forall i | 0 <= i < |rest| :: rest[i] == ys[if i < k then i else i + 1];
  }

  /** A sum depends only on which elements occur and how often. */
  lemma {:induction false} Permuted<T>(f: T -> int, xs: seq<T>, ys: seq<T>)
    requires multiset(xs) == multiset(ys)
    ensures Sum(f, xs) == Sum(f, ys)
  {
    if xs == [] {
      assert |multiset(ys)| == |ys|;
    } else {
      var front, last := xs[..|xs| - 1], xs[|xs| - 1];
      assert xs == front + [last];
      assert last in multiset(ys);
      var k, rest := Extract(ys, last);
      Cancel(multiset(front), multiset(rest), last);
      Permuted(f, front, rest);
      Remove(f, ys, k);
    }
  }

  lemma {:induction false} Cancel<T>(a: multiset<T>, b: multiset<T>, x: T)
    requires a + multiset{x} == b + multiset{x}
    ensures a == b
  {
    assert a == a + multiset{x} - multiset{x};
    assert b == b + multiset{x} - multiset{x};
  }

  /** Distinct values inside a distinct list no longer than theirs fill that list. */
  lemma {:induction false} Fills<T>(xs: seq<T>, ys: seq<T>)
    requires Distinct(xs) && Distinct(ys) && |xs| >= |ys|
    requires forall x | x in xs :: x in ys
    ensures |xs| == |ys| && multiset(xs) == multiset(ys)
  {
    if xs != [] {
      var front, last := xs[..|xs| - 1], xs[|xs| - 1];
      assert xs == front + [last];
      var k, rest := Extract(ys, last);
      Fills(front, rest);
    }
  }

  /** Counting a set against any distinct list that contains it. */
  lemma {:induction false} CountsMembers<T>(s: set<T>, f: T -> int, xs: seq<T>)
    requires Distinct(xs)
    requires forall x | x in s :: x in xs
    requires forall x | x in xs :: f(x) == if x in s then 1 else 0
    ensures Sum(f, xs) == |s|
  {
    if xs != [] {
      var rest, last := xs[..|xs| - 1], xs[|xs| - 1];
      CountsMembers(s - {last}, f, rest);
    }
  }
}
