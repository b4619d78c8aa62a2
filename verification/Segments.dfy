/** Speaker segments on a discrete time line.

Times are whole ticks, fine enough that every timestamp of the two transcripts is a tick, so
a duration is a number of ticks and lengths, unions and overlaps can be counted exactly. */
module Segments {
  import opened Sums

  datatype Segment = Segment(start: int, end: int, speaker: int)

  /** Every segment the parser returns ends after it starts. */
  ghost predicate Proper(segs: seq<Segment>) {
    forall s | s in segs :: s.start < s.end
  }

  ghost predicate Within(segs: seq<Segment>, lo: int, hi: int) {
    lo <= hi && forall s | s in segs :: lo <= s.start && s.end <= hi
  }

  /** Two well-formed transcripts inside one window of ticks. */
  ghost predicate Framed(ref: seq<Segment>, pred: seq<Segment>, lo: int, hi: int) {
    Proper(ref) && Proper(pred) && Within(ref, lo, hi) && Within(pred, lo, hi)
  }

  predicate Covers(s: Segment, t: int) { s.start <= t < s.end }

  function Active(segs: seq<Segment>, t: int): set<int> {
    set s | s in segs && Covers(s, t) :: s.speaker
  }

  /** The speakers of an elementary interval, as the sweep computes them. */
  function ActiveBetween(segs: seq<Segment>, start: int, end: int): set<int> {
    set s | s in segs && s.start < end && s.end > start :: s.speaker
  }

  function Speakers(segs: seq<Segment>): set<int> { set s | s in segs :: s.speaker }

  // ---------- ordered sets: Python's sorted({...}) ----------

  ghost predicate Ascending(xs: seq<int>) {
    forall i, j | 0 <= i < j < |xs| :: xs[i] < xs[j]
  }

  function Insert(x: int, xs: seq<int>): (r: seq<int>)
    requires Ascending(xs)
    ensures Ascending(r)
    ensures forall y :: y in r <==> y == x || y in xs
  {
    if xs == [] then [x]
    else if xs[|xs| - 1] < x then xs + [x]
    else if xs[|xs| - 1] == x then xs
    else
      var front := Insert(x, xs[..|xs| - 1]);
      assert forall k | 0 <= k < |front| :: front[k] in front;
      front + [xs[|xs| - 1]]
  }

  function Sorted(points: seq<int>): (r: seq<int>)
    ensures Ascending(r)
    ensures forall y :: y in r <==> y in points
  {
    if points == [] then [] else Insert(points[|points| - 1], Sorted(points[..|points| - 1]))
  }

  function Labels(segs: seq<Segment>): (r: seq<int>)
    ensures Distinct(r)
    ensures forall y :: y in r <==> y in Speakers(segs)
  {
    var all: seq<int> := seq(|segs|, k requires 0 <= k < |segs| => segs[k].speaker);
    assert forall k | 0 <= k < |segs| :: all[k] == segs[k].speaker;
    Sorted(all)
  }

  // ---------- multiplicity and overlap ----------

  /** How many segments of speaker i cover tick t. */
  function Times(segs: seq<Segment>, i: int, t: int): nat {
    if segs == [] then 0 else
      var last := segs[|segs| - 1];
      Times(segs[..|segs| - 1], i, t) + if last.speaker == i && Covers(last, t) then 1 else 0
  }

  /** No speaker talks over themselves. */
  ghost predicate NoSelfOverlap(segs: seq<Segment>) {
    forall i, t :: Times(segs, i, t) <= 1
  }

  lemma {:induction false} ActiveIffCovered(segs: seq<Segment>, i: int, t: int)
    ensures i in Active(segs, t) <==> Times(segs, i, t) > 0
  {
    if segs != [] {
      var front, last := segs[..|segs| - 1], segs[|segs| - 1];
      ActiveIffCovered(front, i, t);
      assert forall s :: s in segs <==> s in front || s == last;
    }
  }

  function SegmentOverlap(left: Segment, right: Segment): int {
    var start := if left.start >= right.start then left.start else right.start;
    var end := if left.end <= right.end then left.end else right.end;
    if end - start > 0 then end - start else 0
  }

  /** Overlap of one segment with all segments of speaker j. */
  function OverlapWith(left: Segment, pred: seq<Segment>, j: int): int {
    if pred == [] then 0 else
      var last := pred[|pred| - 1];
      OverlapWith(left, pred[..|pred| - 1], j) + if last.speaker == j then SegmentOverlap(left, last) else 0
  }

  /** The overlap cell of speakers i and j: summed over all pairs of their segments. */
  function Overlap(ref: seq<Segment>, pred: seq<Segment>, i: int, j: int): int {
    if ref == [] then 0 else
      var last := ref[|ref| - 1];
      Overlap(ref[..|ref| - 1], pred, i, j) + if last.speaker == i then OverlapWith(last, pred, j) else 0
  }

  function Shared(ref: seq<Segment>, pred: seq<Segment>, i: int, j: int): int -> int {
    t => Times(ref, i, t) * Times(pred, j, t)
  }

  lemma {:induction false} RangeSplit(f: int -> int, lo: int, mid: int, hi: int)
    requires lo <= mid <= hi
    ensures Sum(f, Range(lo, hi)) == Sum(f, Range(lo, mid)) + Sum(f, Range(mid, hi))
  {
    assert Range(lo, hi) == Range(lo, mid) + Range(mid, hi);
    Concat(f, Range(lo, mid), Range(mid, hi));
  }

  lemma {:induction false} ConstantOn(f: int -> int, c: int, lo: int, hi: int)
    requires lo <= hi && forall t | lo <= t < hi :: f(t) == c
    ensures Sum(f, Range(lo, hi)) == c * (hi - lo)
  {
    Constant(f, c, Range(lo, hi));
  }

  /** An indicator of an interval, summed over a window around it, is the interval's length. */
  lemma {:induction false} IndicatorSum(f: int -> int, start: int, end: int, lo: int, hi: int)
    requires lo <= start <= end <= hi
    requires forall t | lo <= t < hi :: f(t) == if start <= t < end then 1 else 0
    ensures Sum(f, Range(lo, hi)) == end - start
  {
    RangeSplit(f, lo, start, hi);
    RangeSplit(f, start, end, hi);
    ConstantOn(f, 0, lo, start);
    ConstantOn(f, 1, start, end);
    ConstantOn(f, 0, end, hi);
  }

  lemma {:induction false} PairOverlap(left: Segment, right: Segment, h: int -> int, lo: int, hi: int)
    requires lo <= left.start < left.end <= hi && lo <= right.start < right.end <= hi
    requires forall t | lo <= t < hi :: h(t) == if Covers(left, t) && Covers(right, t) then 1 else 0
    ensures Sum(h, Range(lo, hi)) == SegmentOverlap(left, right)
  {
    var start := if left.start >= right.start then left.start else right.start;
    if SegmentOverlap(left, right) > 0 {
      IndicatorSum(h, start, start + SegmentOverlap(left, right), lo, hi);
    } else {
      ConstantOn(h, 0, lo, hi);
    }
  }

  lemma {:induction false} OverlapWithIsShared(left: Segment, pred: seq<Segment>, j: int, f: int -> int, lo: int, hi: int)
    requires Within([left], lo, hi) && Within(pred, lo, hi) && Proper([left]) && Proper(pred)
    requires forall t | lo <= t < hi :: f(t) == if Covers(left, t) then Times(pred, j, t) else 0
    ensures OverlapWith(left, pred, j) == Sum(f, Range(lo, hi))
  {
    assert left in [left];
    if pred == [] {
      ConstantOn(f, 0, lo, hi);
    } else {
      var front, last := pred[..|pred| - 1], pred[|pred| - 1];
      var g := t => if Covers(left, t) then Times(front, j, t) else 0;
      var h := t => if last.speaker == j then if Covers(left, t) && Covers(last, t) then 1 else 0 else 0;
      OverlapWithIsShared(left, front, j, g, lo, hi);
      if last.speaker == j {
        PairOverlap(left, last, h, lo, hi);
      } else {
        ConstantOn(h, 0, lo, hi);
      }
      Linear(g, h, f, Range(lo, hi));
    }
  }

  /** An overlap cell is the inner product of the two speakers' multiplicities. */
  lemma {:induction false} OverlapIsShared(ref: seq<Segment>, pred: seq<Segment>, i: int, j: int, lo: int, hi: int)
    requires lo <= hi && Framed(ref, pred, lo, hi)
    ensures Overlap(ref, pred, i, j) == Sum(Shared(ref, pred, i, j), Range(lo, hi))
  {
    if ref == [] {
      ConstantOn(Shared(ref, pred, i, j), 0, lo, hi);
    } else {
      var front, last := ref[..|ref| - 1], ref[|ref| - 1];
      var g := t => if last.speaker == i && Covers(last, t) then Times(pred, j, t) else 0;
      FramedFront(ref, pred, lo, hi);
      SharedGrows(ref, pred, i, j, g);
      assert Overlap(ref, pred, i, j) ==
             Overlap(front, pred, i, j) + if last.speaker == i then OverlapWith(last, pred, j) else 0;
      hide *;
      OverlapIsShared(front, pred, i, j, lo, hi);
      Linear(Shared(front, pred, i, j), g, Shared(ref, pred, i, j), Range(lo, hi));
      if last.speaker == i {
        OverlapWithIsShared(last, pred, j, g, lo, hi);
      } else {
        ConstantOn(g, 0, lo, hi);
      }
    }
  }

  lemma {:induction false} FramedFront(ref: seq<Segment>, pred: seq<Segment>, lo: int, hi: int)
    requires Framed(ref, pred, lo, hi) && ref != []
    ensures Framed(ref[..|ref| - 1], pred, lo, hi)
    ensures Within([ref[|ref| - 1]], lo, hi) && Within(pred, lo, hi) && Proper([ref[|ref| - 1]]) && Proper(pred)
  {}

  lemma {:induction false} SharedGrows(ref: seq<Segment>, pred: seq<Segment>, i: int, j: int, g: int -> int)
    requires ref != []
    requires var last := ref[|ref| - 1];
      forall t :: g(t) == if last.speaker == i && Covers(last, t) then Times(pred, j, t) else 0
    ensures forall t :: Shared(ref, pred, i, j)(t) == Shared(ref[..|ref| - 1], pred, i, j)(t) + g(t)
  {
    forall t ensures Shared(ref, pred, i, j)(t) == Shared(ref[..|ref| - 1], pred, i, j)(t) + g(t) {
      var m, n := Times(ref[..|ref| - 1], i, t), Times(pred, j, t);
      assert (m + 1) * n == m * n + n;
    }
  }
}
