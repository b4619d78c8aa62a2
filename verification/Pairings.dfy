/** Pairing the texts of two groups of speakers so that the character errors are fewest. */
module Pairings {
  import opened Sums
  import opened Assignment
  import opened EditDistance

  function Chars(texts: seq<string>): int { Sum((t: string) => |t|, texts) }

  function Errors(reference: seq<string>, prediction: seq<string>): int -> int {
    i => if 0 <= i < |reference| && i < |prediction| then Distance(reference[i], prediction[i]) else 0
  }

  /** Character errors when speakers are paired by position. */
  function PairedErrors(reference: seq<string>, prediction: seq<string>): int {
    Sum(Errors(reference, prediction), Range(0, |reference|))
  }

  ghost predicate Permutes(perm: seq<int>, n: int) {
    |perm| == n && Distinct(perm) && forall k | 0 <= k < |perm| :: 0 <= perm[k] < n
  }

  /** The elements in another order; of one permutation after another, their composition. */
  function Reordered<T>(xs: seq<T>, perm: seq<int>): (r: seq<T>)
    requires forall k | 0 <= k < |perm| :: 0 <= perm[k] < |xs|
    ensures |r| == |perm| && forall k | 0 <= k < |r| :: r[k] == xs[perm[k]]
  { seq(|perm|, k requires 0 <= k < |perm| => xs[perm[k]]) }

  /** The fewest errors over every way of pairing the speakers. */
  ghost predicate Fewest(errors: int, reference: seq<string>, prediction: seq<string>) {
    && (exists perm :: Permutes(perm, |prediction|) && errors == PairedErrors(reference, Reordered(prediction, perm)))
    && (forall perm | Permutes(perm, |prediction|) :: errors <= PairedErrors(reference, Reordered(prediction, perm)))
  }

  // ---------- permutations ----------

  lemma {:induction false} PermSum(f: int -> int, perm: seq<int>, n: nat)
    requires Permutes(perm, n)
    ensures Sum(f, perm) == Sum(f, Range(0, n))
    ensures forall i | 0 <= i < n :: i in perm
  {
    var all := Range(0, n);
    assert forall x | x in perm :: x in all;
    hide Permutes;
    Fills(perm, all);
    Permuted(f, perm, all);
    SameMembers(perm, all);
  }

  lemma {:induction false} SameMembers(xs: seq<int>, ys: seq<int>)
    requires multiset(xs) == multiset(ys)
    ensures forall y | y in ys :: y in xs
  {
    forall y | y in ys ensures y in xs { assert y in multiset(ys); }
  }

  lemma {:induction false} Invert(perm: seq<int>, n: nat) returns (inv: seq<int>)
    requires Permutes(perm, n)
    ensures Permutes(inv, n)
    ensures forall k | 0 <= k < n :: 0 <= perm[k] < n && inv[perm[k]] == k
    ensures forall k | 0 <= k < n :: 0 <= inv[k] < n && perm[inv[k]] == k
  {
    PermSum(i => i, perm, n);
    inv := seq(n, i requires 0 <= i < n => IndexOf(i, perm));
    assert forall k | 0 <= k < n :: perm[k] in perm;
    forall k | 0 <= k < n ensures inv[perm[k]] == k {
      assert perm[inv[perm[k]]] == perm[k];
    }
  }

  lemma {:induction false} ThenPermutes(first: seq<int>, second: seq<int>, n: nat)
    requires Permutes(first, n) && Permutes(second, n)
    ensures Permutes(Reordered(first, second), n)
  {
    assert forall k | 0 <= k < n :: second[k] in second;
    assert forall k | 0 <= k < n :: first[k] in first;
  }

  /** A full matching of n rows and n columns is a permutation, and conversely. */
  lemma {:induction false} MatchPerm(ps: seq<Match>, n: nat) returns (perm: seq<int>)
    requires Matches(ps, Range(0, n), Range(0, n))
    ensures Permutes(perm, n)
    ensures forall q | q in ps :: 0 <= q.left < n && perm[q.left] == q.right
  {
    var lefts, rights := Lefts(ps), Rights(ps);
    assert forall k | 0 <= k < n :: ps[k] in ps;
    assert Permutes(lefts, n) && Permutes(rights, n);
    var inv := Invert(lefts, n);
    ThenPermutes(rights, inv, n);
    perm := Reordered(rights, inv);
    forall q | q in ps ensures 0 <= q.left < n && perm[q.left] == q.right {
      var k :| 0 <= k < n && ps[k] == q;
      assert inv[lefts[k]] == k;
    }
  }

  lemma {:induction false} PermMatch(perm: seq<int>, n: nat) returns (ps: seq<Match>)
    requires Permutes(perm, n)
    ensures Matches(ps, Range(0, n), Range(0, n))
    ensures forall q | q in ps :: 0 <= q.left < n && perm[q.left] == q.right
  {
    ps := seq(n, i requires 0 <= i < n => Match(i, perm[i]));
    assert forall k | 0 <= k < n :: perm[k] in perm;
  }

  // ---------- properties of the fewest errors ----------

  /** Reordering the predicted speakers changes nothing. */
  lemma {:induction false} OrderIsIrrelevant(errors: int, reference: seq<string>, prediction: seq<string>, order: seq<int>)
    requires Fewest(errors, reference, prediction) && Permutes(order, |prediction|)
    ensures Fewest(errors, reference, Reordered(prediction, order))
  {
    var n := |prediction|;
    var inv := Invert(order, n);
    var best :| Permutes(best, n) && errors == PairedErrors(reference, Reordered(prediction, best));
    ThenPermutes(inv, best, n);
    Reorder(prediction, order, Reordered(inv, best));
    assert Reordered(order, Reordered(inv, best)) == best by { assert forall k | 0 <= k < n :: best[k] in best; }
    forall perm | Permutes(perm, n)
      ensures errors <= PairedErrors(reference, Reordered(Reordered(prediction, order), perm))
    {
      ThenPermutes(order, perm, n);
      Reorder(prediction, order, perm);
    }
  }

  lemma {:induction false} Reorder(texts: seq<string>, first: seq<int>, second: seq<int>)
    requires Permutes(first, |texts|) && Permutes(second, |texts|)
    ensures Permutes(Reordered(first, second), |texts|)
    ensures Reordered(Reordered(texts, first), second) == Reordered(texts, Reordered(first, second))
  {
    ThenPermutes(first, second, |texts|);
    assert forall k | 0 <= k < |texts| :: second[k] in second && first[k] in first;
  }

  /** No errors exactly when the predicted texts are the reference texts in some order. */
  lemma {:induction false} ZeroIffReordered(reference: seq<string>, prediction: seq<string>)
    requires |reference| == |prediction|
    ensures Fewest(0, reference, prediction) <==>
      exists perm :: Permutes(perm, |prediction|) && reference == Reordered(prediction, perm)
  {
    if Fewest(0, reference, prediction) {
      var perm :| Permutes(perm, |prediction|) && 0 == PairedErrors(reference, Reordered(prediction, perm));
      var order := Reordered(prediction, perm);
      AllZero(Errors(reference, order), Range(0, |reference|));
      forall i | 0 <= i < |reference| ensures reference[i] == order[i] {
        assert Errors(reference, order)(i) == 0;
        Bounds(reference[i], order[i]);
      }
    }
    if perm :| Permutes(perm, |prediction|) && reference == Reordered(prediction, perm) {
      forall i | 0 <= i < |reference| ensures Errors(reference, reference)(i) == 0 {
        Bounds(reference[i], reference[i]);
      }
      Constant(Errors(reference, reference), 0, Range(0, |reference|));
      forall other | Permutes(other, |prediction|)
        ensures 0 <= PairedErrors(reference, Reordered(prediction, other))
      {
        NonNegative(Errors(reference, Reordered(prediction, other)), Range(0, |reference|));
      }
    }
  }

  function Size(texts: seq<string>): int -> int { i => if 0 <= i < |texts| then |texts[i]| else 0 }

  lemma {:induction false} SizesAreChars(texts: seq<string>)
    ensures Sum(Size(texts), Range(0, |texts|)) == Chars(texts)
  {
    Mapped(Size(texts), (t: string) => |t|, 1, Range(0, |texts|), texts);
  }

  lemma {:induction false} ReorderedChars(texts: seq<string>, perm: seq<int>)
    requires Permutes(perm, |texts|)
    ensures Chars(Reordered(texts, perm)) == Chars(texts)
  {
    PermSum(Size(texts), perm, |texts|);
    SizesAreChars(texts);
    assert forall k | 0 <= k < |perm| :: perm[k] in perm;
    Mapped((t: string) => |t|, Size(texts), 1, Reordered(texts, perm), perm);
  }

  /** The fewest errors lie between the difference and the sum of the character counts. */
  lemma {:induction false} ErrorBounds(errors: int, reference: seq<string>, prediction: seq<string>)
    requires Fewest(errors, reference, prediction) && |reference| == |prediction|
    ensures Chars(reference) <= Chars(prediction) + errors
    ensures Chars(prediction) <= Chars(reference) + errors
    ensures errors <= Chars(reference) + Chars(prediction)
  {
    var perm :| Permutes(perm, |prediction|) && errors == PairedErrors(reference, Reordered(prediction, perm));
    var order := Reordered(prediction, perm);
    ReorderedChars(prediction, perm);
    PairedBounds(reference, order);
  }

  lemma {:induction false} PairedBounds(reference: seq<string>, order: seq<string>)
    requires |reference| == |order|
    ensures Chars(reference) <= Chars(order) + PairedErrors(reference, order)
    ensures Chars(order) <= Chars(reference) + PairedErrors(reference, order)
    ensures PairedErrors(reference, order) <= Chars(reference) + Chars(order)
  {
    var n := |reference|;
    SizesAreChars(reference);
    SizesAreChars(order);
    var f, r, p := Errors(reference, order), Size(reference), Size(order);
    forall i | 0 <= i < n ensures r(i) <= p(i) + f(i) && p(i) <= r(i) + f(i) && f(i) <= r(i) + p(i) {
      Bounds(reference[i], order[i]);
    }
    assert PairedErrors(reference, order) == Sum(f, Range(0, n));
    hide *;
    SumBound(p, f, r, n);
    SumBound(r, f, p, n);
    SumBound(r, p, f, n);
  }

  lemma {:induction false} SumBound(f: int -> int, g: int -> int, h: int -> int, n: nat)
    requires forall i | 0 <= i < n :: h(i) <= f(i) + g(i)
    ensures Sum(h, Range(0, n)) <= Sum(f, Range(0, n)) + Sum(g, Range(0, n))
  {
    hide Sum;
    var both := i => f(i) + g(i);
    Linear(f, g, both, Range(0, n));
    Monotone(h, both, Range(0, n));
  }

  /** Pairing through a third group never saves more than its own errors: with equally many
      speakers, the fewest errors obey the triangle inequality. */
  lemma {:induction false} FewestTriangle(ab: int, bc: int, ac: int, a: seq<string>, b: seq<string>, c: seq<string>)
    requires |a| == |b| == |c|
    requires Fewest(ab, a, b) && Fewest(bc, b, c) && Fewest(ac, a, c)
    ensures ac <= ab + bc
  {
    var n := |a|;
    var p :| Permutes(p, n) && ab == PairedErrors(a, Reordered(b, p));
    var q :| Permutes(q, n) && bc == PairedErrors(b, Reordered(c, q));
    ThenPermutes(q, p, n);
    assert ac <= PairedErrors(a, Reordered(c, Reordered(q, p)));
    hide *;
    Via(a, b, c, p, q);
  }

  lemma {:induction false} Via(a: seq<string>, b: seq<string>, c: seq<string>, p: seq<int>, q: seq<int>)
    requires |a| == |b| == |c| && Permutes(p, |b|) && Permutes(q, |c|) && Permutes(Reordered(q, p), |c|)
    ensures PairedErrors(a, Reordered(c, Reordered(q, p))) <= PairedErrors(a, Reordered(b, p)) + PairedErrors(b, Reordered(c, q))
  {
    var n := |a|;
    var f, g, h := Errors(a, Reordered(b, p)), Errors(b, Reordered(c, q)), Errors(a, Reordered(c, Reordered(q, p)));
    forall i | 0 <= i < n ensures h(i) <= f(i) + g(p[i]) { ThroughOne(a, b, c, p, q, i); }
    hide Permutes, Errors, Distinct;
    SumThrough(f, g, h, p, n);
  }

  lemma {:induction false} ThroughOne(a: seq<string>, b: seq<string>, c: seq<string>, p: seq<int>, q: seq<int>, i: nat)
    requires |a| == |b| == |c| && Permutes(p, |b|) && Permutes(q, |c|) && i < |a|
    ensures Errors(a, Reordered(c, Reordered(q, p)))(i) <= Errors(a, Reordered(b, p))(i) + Errors(b, Reordered(c, q))(p[i])
  {
    Triangle(a[i], b[p[i]], c[q[p[i]]]);
  }

  lemma {:induction false} SumThrough(f: int -> int, g: int -> int, h: int -> int, perm: seq<int>, n: nat)
    requires Permutes(perm, n)
    requires forall i | 0 <= i < n :: h(i) <= f(i) + g(perm[i])
    ensures Sum(h, Range(0, n)) <= Sum(f, Range(0, n)) + Sum(g, Range(0, n))
  {
    PermSum(g, perm, n);
    var moved := i => if 0 <= i < |perm| then g(perm[i]) else 0;
    Mapped(moved, g, 1, Range(0, n), perm);
    hide Sum, Permutes;
    SumBound(f, moved, h, n);
  }

  /** An extra silent speaker on both sides changes nothing, so padding never matters. */
  lemma {:induction false} PaddingIsIrrelevant(errors: int, a: seq<string>, b: seq<string>)
    requires Fewest(errors, a, b) && |a| == |b|
    ensures Fewest(errors, a + [""], b + [""])
  {
    hide PairedErrors;
    var n := |a|;
    var best :| Permutes(best, n) && errors == PairedErrors(a, Reordered(b, best));
    Extended(a, b, best);
    hide Reordered;
    hide Distinct;
    forall perm | Permutes(perm, n + 1)
      ensures errors <= PairedErrors(a + [""], Reordered(b + [""], perm))
    {
      var shorter := WithoutPad(a, b, perm);
    }
  }

  lemma {:induction false} Extended(a: seq<string>, b: seq<string>, perm: seq<int>)
    requires |a| == |b| && Permutes(perm, |a|)
    ensures Permutes(perm + [|a|], |a| + 1)
    ensures PairedErrors(a + [""], Reordered(b + [""], perm + [|a|])) == PairedErrors(a, Reordered(b, perm))
  {
    var n := |a|;
    var f, g := Errors(a + [""], Reordered(b + [""], perm + [n])), Errors(a, Reordered(b, perm));
    assert f(n) == 0 by { Bounds("", ""); }
    assert forall i | 0 <= i < n :: f(i) == g(i);
    hide Errors, Reordered, Permutes;
    assert Range(0, n + 1)[..n] == Range(0, n);
    Congruent(f, g, Range(0, n));
  }

  /** Sending row i to where the padding row went, and dropping the padding, saves errors. */
  lemma {:induction false} WithoutPad(a: seq<string>, b: seq<string>, perm: seq<int>) returns (shorter: seq<int>)
    requires |a| == |b| && Permutes(perm, |a| + 1)
    ensures Permutes(shorter, |a|)
    ensures PairedErrors(a, Reordered(b, shorter)) <= PairedErrors(a + [""], Reordered(b + [""], perm))
  {
    var n := |a|;
    shorter := Shortened(perm, n);
    if perm[n] == n {
      KeptPad(a, b, perm, shorter);
    } else {
      PermSum(i => i, perm, n + 1);
      ThroughPad(a, b, perm, shorter, IndexOf(n, perm), perm[n]);
    }
  }

  lemma {:induction false} Shortened(perm: seq<int>, n: nat) returns (shorter: seq<int>)
    requires Permutes(perm, n + 1)
    ensures Permutes(shorter, n)
    ensures forall i | 0 <= i < n :: shorter[i] == if perm[i] == n then perm[n] else perm[i]
  {
    shorter := seq(n, i requires 0 <= i < n => if perm[i] == n then perm[n] else perm[i]);
    assert forall k | 0 <= k <= n :: perm[k] in perm;
  }

  lemma {:induction false} KeptPad(a: seq<string>, b: seq<string>, perm: seq<int>, shorter: seq<int>)
    requires |a| == |b| && Permutes(perm, |a| + 1) && Permutes(shorter, |a|)
    requires perm[|a|] == |a| && forall i | 0 <= i < |a| :: shorter[i] == if perm[i] == |a| then perm[|a|] else perm[i]
    ensures PairedErrors(a, Reordered(b, shorter)) <= PairedErrors(a + [""], Reordered(b + [""], perm))
  {
    assert perm == shorter + [|a|];
    Extended(a, b, shorter);
  }

  lemma {:induction false} ThroughPad(a: seq<string>, b: seq<string>, perm: seq<int>, shorter: seq<int>, i: int, j: int)
    requires |a| == |b| && Permutes(perm, |a| + 1) && Permutes(shorter, |a|)
    requires 0 <= i < |a| && perm[i] == |a| && perm[|a|] == j == shorter[i] && 0 <= j < |a|
    requires forall k | 0 <= k < |a| && k != i :: shorter[k] == perm[k]
    ensures PairedErrors(a, Reordered(b, shorter)) <= PairedErrors(a + [""], Reordered(b + [""], perm))
  {
    PadPointwise(a, b, perm, shorter, i, j);
    hide Errors, Permutes, Distinct;
    DropPad(Errors(a + [""], Reordered(b + [""], perm)), Errors(a, Reordered(b, shorter)), |a|, i);
  }

  lemma {:induction false} PadPointwise(a: seq<string>, b: seq<string>, perm: seq<int>, shorter: seq<int>, i: int, j: int)
    requires |a| == |b| && Permutes(perm, |a| + 1) && Permutes(shorter, |a|)
    requires 0 <= i < |a| && perm[i] == |a| && perm[|a|] == j == shorter[i] && 0 <= j < |a|
    requires forall k | 0 <= k < |a| && k != i :: shorter[k] == perm[k]
    ensures var f, g := Errors(a + [""], Reordered(b + [""], perm)), Errors(a, Reordered(b, shorter));
      && (forall k | 0 <= k < |a| && k != i :: f(k) == g(k))
      && g(i) <= f(i) + f(|a|)
  {
    var f, g := Errors(a + [""], Reordered(b + [""], perm)), Errors(a, Reordered(b, shorter));
    hide Distance;
    forall k | 0 <= k < |a| && k != i ensures f(k) == g(k) { OtherThanPad(perm, |a|, i, k); }
    Triangle(a[i], "", b[j]);
    assert f(i) == Distance(a[i], "") && f(|a|) == Distance("", b[j]) && g(i) == Distance(a[i], b[j]);
  }

  lemma {:induction false} OtherThanPad(perm: seq<int>, n: nat, i: int, k: int)
    requires Permutes(perm, n + 1) && 0 <= i < n && 0 <= k < n && k != i && perm[i] == n
    ensures 0 <= perm[k] < n
  {
    assert perm[k] != perm[i];
  }

  lemma {:induction false} DropPad(f: int -> int, g: int -> int, n: nat, i: nat)
    requires i < n && g(i) <= f(i) + f(n)
    requires forall k | 0 <= k < n && k != i :: f(k) == g(k)
    ensures Sum(g, Range(0, n)) <= Sum(f, Range(0, n + 1))
  {
    var all := Range(0, n);
    var rest := all[..i] + all[i + 1..];
    Others(n, i, rest);
    hide Range;
    OneMore(f, Range(0, n + 1), n);
    Remove(f, all, i);
    Remove(g, all, i);
    Congruent(f, g, rest);
  }

  lemma {:induction false} Others(n: nat, i: nat, rest: seq<int>)
    requires i < n && rest == Range(0, n)[..i] + Range(0, n)[i + 1..]
    ensures Range(0, n + 1)[..n] == Range(0, n) && Range(0, n + 1)[..n + 1] == Range(0, n + 1)
    ensures forall k | k in rest :: 0 <= k < n && k != i
  {
    forall k | k in rest ensures 0 <= k < n && k != i {
      var m :| 0 <= m < |rest| && rest[m] == k;
      assert k == if m < i then m else m + 1;
    }
  }
}
