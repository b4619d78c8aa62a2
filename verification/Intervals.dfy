/** Half-open intervals as the collar of the error rate uses them. */
module Intervals {
  datatype Interval = Interval(start: int, end: int)

  predicate Inside(intervals: seq<Interval>, t: int) {
    exists r | r in intervals :: r.start <= t < r.end
  }

  // ---------- Python's sorted() on pairs ----------

  predicate NotAfter(a: Interval, b: Interval) { a.start < b.start || (a.start == b.start && a.end <= b.end) }

  ghost predicate InOrder(xs: seq<Interval>) {
    forall i, j | 0 <= i < j < |xs| :: NotAfter(xs[i], xs[j])
  }

  function InsertPair(x: Interval, xs: seq<Interval>): (r: seq<Interval>)
    requires InOrder(xs)
    ensures InOrder(r)
    ensures forall y :: y in r <==> y == x || y in xs
  {
    if xs == [] || NotAfter(xs[|xs| - 1], x) then xs + [x]
    else
      var front := InsertPair(x, xs[..|xs| - 1]);
      assert forall k | 0 <= k < |front| :: front[k] in front;
      front + [xs[|xs| - 1]]
  }

  function SortedPairs(xs: seq<Interval>): (r: seq<Interval>)
    ensures InOrder(r)
    ensures forall y :: y in r <==> y in xs
  {
    if xs == [] then [] else InsertPair(xs[|xs| - 1], SortedPairs(xs[..|xs| - 1]))
  }

  function NonEmpty(xs: seq<Interval>): (r: seq<Interval>)
    ensures forall y :: y in r <==> y in xs && y.end > y.start
  {
    if xs == [] then [] else
      NonEmpty(xs[..|xs| - 1]) + if xs[|xs| - 1].end > xs[|xs| - 1].start then [xs[|xs| - 1]] else []
  }

  /** sorted(item for item in intervals if item[1] > item[0]) */
  function Ordered(xs: seq<Interval>): (r: seq<Interval>)
    ensures forall k | 0 <= k < |r| :: r[k].start < r[k].end
    ensures forall i, j | 0 <= i < j < |r| :: r[i].start <= r[j].start
    ensures forall t :: Inside(r, t) <==> Inside(xs, t)
  {
    SortedPairs(NonEmpty(xs))
  }

  // ---------- merging ----------

  /** Non-empty intervals in order with a gap between any two. */
  ghost predicate Separated(xs: seq<Interval>) {
    && (forall i | 0 <= i < |xs| :: xs[i].start < xs[i].end)
    && (forall i, j | 0 <= i < j < |xs| :: xs[i].end < xs[j].start)
  }

  /** Merging keeps the covered points and leaves sorted, separated intervals. */
  method MergeIntervals(intervals: seq<Interval>) returns (merged: seq<Interval>)
    ensures Separated(merged)
    ensures forall t :: Inside(merged, t) <==> Inside(intervals, t)
  {
    hide *;
    var ordered := Ordered(intervals);
    merged := [];
    NothingMerged(ordered);
    for k := 0 to |ordered|
      invariant MergedUpTo(merged, ordered, k)
    {
      AbsorbNext(merged, ordered, k);
      merged := Absorb(merged, ordered[k]);
    }
    AllMerged(merged, ordered);
  }

  /** The first k of the ordered intervals are merged. */
  ghost predicate MergedUpTo(merged: seq<Interval>, ordered: seq<Interval>, k: nat)
    requires k <= |ordered|
  {
    && Separated(merged) && (k == 0 ==> merged == [])
    && (k > 0 ==> merged != [] && merged[|merged| - 1].start <= ordered[k - 1].start)
    && forall t :: Inside(merged, t) <==> Inside(ordered[..k], t)
  }

  lemma {:induction false} NothingMerged(ordered: seq<Interval>)
    ensures MergedUpTo([], ordered, 0)
  {}

  lemma {:induction false} AllMerged(merged: seq<Interval>, ordered: seq<Interval>)
    requires MergedUpTo(merged, ordered, |ordered|)
    ensures Separated(merged) && forall t :: Inside(merged, t) <==> Inside(ordered, t)
  {
    hide Separated, Inside;
    assert ordered[..|ordered|] == ordered;
  }

  lemma {:induction false} AbsorbNext(merged: seq<Interval>, ordered: seq<Interval>, k: nat)
    requires k < |ordered| && MergedUpTo(merged, ordered, k) && ordered[k].start < ordered[k].end
    requires k > 0 ==> ordered[k - 1].start <= ordered[k].start
    ensures MergedUpTo(Absorb(merged, ordered[k]), ordered, k + 1)
  {
    hide Absorb, Separated, Inside;
    assert ordered[..k + 1] == ordered[..k] + [ordered[k]];
    AbsorbKeeps(merged, ordered[k], ordered[..k]);
  }

  /** One step of the merge: extend the last interval or start a new one. */
  function Absorb(merged: seq<Interval>, next: Interval): seq<Interval> {
    if merged == [] || next.start > merged[|merged| - 1].end then merged + [next]
    else
      var last := merged[|merged| - 1];
      merged[..|merged| - 1] + [Interval(last.start, if last.end >= next.end then last.end else next.end)]
  }

  lemma {:induction false} AbsorbKeeps(merged: seq<Interval>, next: Interval, done: seq<Interval>)
    requires Separated(merged) && next.start < next.end
    requires merged != [] ==> merged[|merged| - 1].start <= next.start
    requires forall t :: Inside(merged, t) <==> Inside(done, t)
    ensures Separated(Absorb(merged, next))
    ensures Absorb(merged, next) != []
    ensures Absorb(merged, next)[|Absorb(merged, next)| - 1].start <= next.start
    ensures forall t :: Inside(Absorb(merged, next), t) <==> Inside(done + [next], t)
  {
    InsideConcat(done, [next]);
    InsideConcat(merged, [next]);
    hide Inside;
    hide Separated;
    if merged == [] || next.start > merged[|merged| - 1].end {
      AppendSeparated(merged, next);
    } else {
      var last := merged[|merged| - 1];
      var wider := Interval(last.start, if last.end >= next.end then last.end else next.end);
      WiderCovers(merged, next, wider);
      assert merged == merged[..|merged| - 1] + [last];
      WiderSeparated(merged[..|merged| - 1], last, wider);
    }
  }

  lemma {:induction false} AppendSeparated(merged: seq<Interval>, next: Interval)
    requires Separated(merged) && next.start < next.end
    requires merged != [] ==> merged[|merged| - 1].end < next.start
    ensures Separated(merged + [next])
  {}

  lemma {:induction false} WiderSeparated(front: seq<Interval>, last: Interval, wider: Interval)
    requires Separated(front + [last]) && wider.start == last.start && last.end <= wider.end
    ensures Separated(front + [wider])
  {
    assert last == (front + [last])[|front|];
    assert forall i | 0 <= i < |front| :: (front + [last])[i] == front[i];
  }

  lemma {:induction false} InsideConcat(xs: seq<Interval>, ys: seq<Interval>)
    ensures forall t :: Inside(xs + ys, t) <==> Inside(xs, t) || Inside(ys, t)
  {}

  lemma {:induction false} WiderCovers(merged: seq<Interval>, next: Interval, wider: Interval)
    requires merged != []
    requires var last := merged[|merged| - 1];
      last.start <= next.start <= last.end && wider == Interval(last.start, if last.end >= next.end then last.end else next.end)
    ensures forall t :: Inside(merged[..|merged| - 1] + [wider], t) <==> Inside(merged + [next], t)
  {
    var front, last := merged[..|merged| - 1], merged[|merged| - 1];
    assert merged == front + [last];
    InsideConcat(front, [wider]);
    InsideConcat(front, [last]);
    InsideConcat(merged, [next]);
    forall t ensures Inside([wider], t) <==> Inside([last], t) || Inside([next], t) {
      assert wider in [wider] && last in [last] && next in [next];
    }
  }

  /** Separated lists are canonical: the covered points determine the list. */
  lemma {:induction false} SeparatedUnique(xs: seq<Interval>, ys: seq<Interval>)
    requires Separated(xs) && Separated(ys)
    requires forall t :: Inside(xs, t) <==> Inside(ys, t)
    ensures xs == ys
  {
    Occupied(xs);
    Occupied(ys);
    hide *;
    assert xs == [] <==> ys == [];
    if xs != [] {
      TailSeparated(xs);
      TailSeparated(ys);
      SameFirst(xs, ys);
      SameFirst(ys, xs);
      forall t ensures Inside(xs[1..], t) <==> Inside(ys[1..], t) {
        InsideTail(xs, t);
        InsideTail(ys, t);
      }
      SeparatedUnique(xs[1..], ys[1..]);
      assert xs[0] == ys[0];
      assert xs == [xs[0]] + xs[1..] && ys == [ys[0]] + ys[1..];
    }
  }

  lemma {:induction false} TailSeparated(xs: seq<Interval>)
    requires Separated(xs) && xs != []
    ensures Separated(xs[1..])
  {}

  lemma {:induction false} Occupied(xs: seq<Interval>)
    requires Separated(xs)
    ensures if xs == [] then forall t :: !Inside(xs, t) else Inside(xs, xs[0].start)
  {}

  lemma {:induction false} InsideTail(xs: seq<Interval>, t: int)
    requires Separated(xs) && xs != []
    ensures Inside(xs[1..], t) <==> Inside(xs, t) && t >= xs[0].end
  {
    if Inside(xs, t) && t >= xs[0].end {
      var r :| r in xs && r.start <= t < r.end;
      assert r in xs[1..];
    }
    if Inside(xs[1..], t) {
      var r :| r in xs[1..] && r.start <= t < r.end;
      assert r in xs;
    }
  }

  lemma {:induction false} SameFirst(xs: seq<Interval>, ys: seq<Interval>)
    requires Separated(xs) && Separated(ys) && xs != [] && ys != []
    requires forall t :: Inside(xs, t) <==> Inside(ys, t)
    ensures ys[0].start <= xs[0].start
    ensures ys[0].start == xs[0].start ==> xs[0].end <= ys[0].end
  {
    assert xs[0] in xs && Inside(xs, xs[0].start);
    if xs[0].start == ys[0].start {
      InsideTail(ys, ys[0].end);
    }
  }
}
