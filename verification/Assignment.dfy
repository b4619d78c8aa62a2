/** Speaker assignment as the scorers use it: scipy's linear_sum_assignment on a rectangular
cost matrix.  The solver is foreign code; it is represented by any function whose answers are
optimal, and every theorem that uses it holds for all of them. */
module Assignment {
  import opened Sums
  import opened Wrappers

  type Matrix = seq<seq<int>>
  datatype Match = Match(left: int, right: int)

  function Width(m: Matrix): nat { if m == [] then 0 else |m[0]| }

  ghost predicate Rectangular(m: Matrix) {
    forall i | 0 <= i < |m| :: |m[i]| == Width(m)
  }

  /** The entry function of a matrix, total so that it can be summed over any list of matches. */
  function Entry(m: Matrix): Match -> int {
    (p: Match) => if 0 <= p.left < |m| && 0 <= p.right < |m[p.left]| then m[p.left][p.right] else 0
  }

  function Lefts(ps: seq<Match>): (r: seq<int>)
    ensures |r| == |ps| && forall k | 0 <= k < |ps| :: r[k] == ps[k].left
  { Project((p: Match) => p.left, ps) }

  function Rights(ps: seq<Match>): (r: seq<int>)
    ensures |r| == |ps| && forall k | 0 <= k < |ps| :: r[k] == ps[k].right
  { Project((p: Match) => p.right, ps) }

  /** A full matching of two lists: no element used twice, and the shorter side used up. */
  ghost predicate Matches(ps: seq<Match>, xs: seq<int>, ys: seq<int>) {
    && |ps| == (if |xs| <= |ys| then |xs| else |ys|)
    && Distinct(Lefts(ps)) && Distinct(Rights(ps))
    && (forall p | p in ps :: p.left in xs && p.right in ys)
  }

  ghost predicate Assigns(m: Matrix, ps: seq<Match>) {
    Matches(ps, Range(0, |m|), Range(0, Width(m)))
  }

  ghost predicate Optimal(m: Matrix, ps: seq<Match>) {
    && Assigns(m, ps)
    && forall qs | Assigns(m, qs) :: Sum(Entry(m), ps) <= Sum(Entry(m), qs)
  }

  /** What the code relies on from linear_sum_assignment. */
  ghost predicate CorrectSolver(solve: Matrix -> seq<Match>) {
    forall m | Rectangular(m) :: Optimal(m, solve(m))
  }

  // ---------- the solver's answer exists ----------

  lemma {:induction false} DiagonalAssigns(m: Matrix)
    ensures Assigns(m, Diagonal(m))
  {}

  function Diagonal(m: Matrix): seq<Match> {
    seq(if |m| <= Width(m) then |m| else Width(m), k => Match(k, k))
  }

  /** Every rectangular matrix has an optimal assignment, so the theorems are not vacuous. */
  lemma {:induction false} OptimumExists(m: Matrix) returns (best: seq<Match>)
    requires Rectangular(m)
    ensures Optimal(m, best)
  {
    var low := LeastEntry(m);
    DiagonalAssigns(m);
    best := Descend(m, low, Diagonal(m));
  }

  lemma {:induction false} Descend(m: Matrix, low: int, start: seq<Match>) returns (best: seq<Match>)
    requires Assigns(m, start)
    requires low <= 0 && forall p: Match :: low <= Entry(m)(p)
    ensures Optimal(m, best)
    decreases Sum(Entry(m), start) - low * |start|
  {
    if better :| Assigns(m, better) && Sum(Entry(m), better) < Sum(Entry(m), start) {
      Constant(_ => low, low, better);
      Monotone(_ => low, Entry(m), better);
      best := Descend(m, low, better);
    } else {
      best := start;
    }
  }

  lemma {:induction false} LeastEntry(m: Matrix) returns (low: int)
    ensures low <= 0 && forall p: Match :: low <= Entry(m)(p)
  {
    if m == [] {
      low := 0;
    } else {
      var rest, row := m[..|m| - 1], m[|m| - 1];
      low := LeastEntry(rest);
      for j := 0 to |row|
        invariant low <= 0 && forall p: Match :: low <= Entry(rest)(p)
        invariant forall k | 0 <= k < j :: low <= row[k]
      {
        if row[j] < low { low := row[j]; }
      }
      forall p: Match ensures low <= Entry(m)(p) {
        assert low <= Entry(rest)(p);
      }
    }
  }

  // ---------- matchings of equal size ----------

  /** A full matching of two label lists of one size uses every label: a sum over its left sides
      is the sum over the list. */
  lemma {:induction false} LeftSum(g: Match -> int, f: int -> int, qs: seq<Match>, xs: seq<int>, ys: seq<int>)
    requires Matches(qs, xs, ys) && Distinct(xs) && |xs| <= |ys|
    requires forall q | q in qs :: g(q) == f(q.left)
    ensures Sum(g, qs) == Sum(f, xs)
    ensures forall x | x in xs :: exists q :: q in qs && q.left == x
  {
    assert forall k | 0 <= k < |qs| :: qs[k] in qs;
    Mapped(g, f, 1, qs, Lefts(qs));
    Fills(Lefts(qs), xs);
    Permuted(f, Lefts(qs), xs);
    forall x | x in xs ensures exists q :: q in qs && q.left == x {
      assert x in multiset(Lefts(qs));
      var k :| 0 <= k < |qs| && Lefts(qs)[k] == x;
    }
  }

  function Flip(qs: seq<Match>): (r: seq<Match>)
    ensures |r| == |qs| && forall k | 0 <= k < |qs| :: r[k] == Match(qs[k].right, qs[k].left)
  { seq(|qs|, k requires 0 <= k < |qs| => Match(qs[k].right, qs[k].left)) }

  lemma {:induction false} FlipMatches(qs: seq<Match>, xs: seq<int>, ys: seq<int>)
    requires Matches(qs, xs, ys)
    ensures Matches(Flip(qs), ys, xs)
    ensures Flip(Flip(qs)) == qs
    ensures forall q :: q in Flip(qs) <==> Match(q.right, q.left) in qs
  {
    assert forall k | 0 <= k < |qs| :: qs[k] in qs;
    assert Lefts(Flip(qs)) == Rights(qs) && Rights(Flip(qs)) == Lefts(qs);
    forall q ensures q in Flip(qs) <==> Match(q.right, q.left) in qs {
      if Match(q.right, q.left) in qs {
        var k :| 0 <= k < |qs| && qs[k] == Match(q.right, q.left);
        assert Flip(qs)[k] == q;
      }
    }
  }

  lemma {:induction false} RightSum(g: Match -> int, f: int -> int, qs: seq<Match>, xs: seq<int>, ys: seq<int>)
    requires Matches(qs, xs, ys) && Distinct(ys) && |ys| <= |xs|
    requires forall q | q in qs :: g(q) == f(q.right)
    ensures Sum(g, qs) == Sum(f, ys)
    ensures forall y | y in ys :: exists q :: q in qs && q.right == y
  {
    FlipMatches(qs, xs, ys);
    var h := (q: Match) => f(q.left);
    LeftSum(h, f, Flip(qs), ys, xs);
    assert forall k | 0 <= k < |qs| :: qs[k] in qs;
    Mapped(g, h, 1, qs, Flip(qs));
    forall y | y in ys ensures exists q :: q in qs && q.right == y {
      var q :| q in Flip(qs) && q.left == y;
      assert Match(q.right, q.left) in qs;
    }
  }

  function IndexOf(x: int, xs: seq<int>): (i: int)
    requires x in xs
    ensures 0 <= i < |xs| && xs[i] == x
  {
    if xs[|xs| - 1] == x then |xs| - 1 else IndexOf(x, xs[..|xs| - 1])
  }
}
