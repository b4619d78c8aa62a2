/** Diarization error rate: the sweep over elementary intervals.

The meaning of the four durations is per tick: at one instant, who speaks in the reference, who
speaks in the prediction, and how many of them the speaker mapping identifies.  `Tally` adds
this up over a window of ticks; `Sweep` is the code's loop over elementary intervals. */
module ErrorRate {
  import opened Sums
  import opened Segments
  import opened Intervals
  import opened Wrappers

  datatype Score = Score(total: int, falseAlarm: int, missed: int, confusion: int) {
    function Errors(): int { falseAlarm + missed + confusion }

    /** errors / total, undefined without reference speech */
    function Rate(): Option<real> {
      if total > 0 then Some(Errors() as real / total as real) else None
    }

    function Plus(rate: Score, duration: int): Score {
      Score(total + rate.total * duration, falseAlarm + rate.falseAlarm * duration,
            missed + rate.missed * duration, confusion + rate.confusion * duration)
    }
  }

  const SILENT := Score(0, 0, 0, 0)

  /** The inputs of one sweep. */
  datatype Trial = Trial(ref: seq<Segment>, pred: seq<Segment>, mapping: map<int, int>, regions: seq<Interval>)

  // ---------- one instant ----------

  function Clip(x: int): int { if x > 0 then x else 0 }

  /** Reference speakers named by mapped predicted speakers.  A predicted speaker without a
      mapping gets a name of its own that is never a reference name. */
  function Hits(ref: set<int>, pred: set<int>, mapping: map<int, int>): set<int> {
    set p | p in pred && p in mapping && mapping[p] in ref :: mapping[p]
  }

  function Rates(ref: set<int>, pred: set<int>, mapping: map<int, int>): Score {
    Score(|ref|,
          Clip(|pred| - |ref|),
          Clip(|ref| - |pred|),
          Clip((if |ref| <= |pred| then |ref| else |pred|) - |Hits(ref, pred, mapping)|))
  }

  function RateAt(c: Trial, t: int): Score {
    if Inside(c.regions, t) then SILENT
    else Rates(Active(c.ref, t), Active(c.pred, t), c.mapping)
  }

  function TotalAt(c: Trial): int -> int { t => RateAt(c, t).total }
  function FalseAlarmAt(c: Trial): int -> int { t => RateAt(c, t).falseAlarm }
  function MissedAt(c: Trial): int -> int { t => RateAt(c, t).missed }
  function ConfusionAt(c: Trial): int -> int { t => RateAt(c, t).confusion }

  // ---------- a window of ticks ----------

  ghost function Tally(c: Trial, lo: int, hi: int): Score
    requires lo <= hi
  {
    Score(Sum(TotalAt(c), Range(lo, hi)), Sum(FalseAlarmAt(c), Range(lo, hi)),
          Sum(MissedAt(c), Range(lo, hi)), Sum(ConfusionAt(c), Range(lo, hi)))
  }

  ghost predicate Encloses(lo: int, hi: int, c: Trial) {
    && Within(c.ref, lo, hi) && Within(c.pred, lo, hi)
    && forall r | r in c.regions :: lo <= r.start < r.end <= hi
  }

  lemma {:induction false} TallyExtends(c: Trial, lo: int, mid: int, hi: int, rate: Score)
    requires lo <= mid <= hi
    requires forall t | mid <= t < hi :: RateAt(c, t) == rate
    ensures Tally(c, lo, hi) == Tally(c, lo, mid).Plus(rate, hi - mid)
  {
    ExtendOne(TotalAt(c), lo, mid, hi, rate.total);
    ExtendOne(FalseAlarmAt(c), lo, mid, hi, rate.falseAlarm);
    ExtendOne(MissedAt(c), lo, mid, hi, rate.missed);
    ExtendOne(ConfusionAt(c), lo, mid, hi, rate.confusion);
  }

  lemma {:induction false} ExtendOne(f: int -> int, lo: int, mid: int, hi: int, rate: int)
    requires lo <= mid <= hi
    requires forall t | mid <= t < hi :: f(t) == rate
    ensures Sum(f, Range(lo, hi)) == Sum(f, Range(lo, mid)) + rate * (hi - mid)
  {
    RangeSplit(f, lo, mid, hi);
    ConstantOn(f, rate, mid, hi);
  }

  // ---------- the sweep ----------

  function Points(segs: seq<Segment>): (r: seq<int>)
    ensures forall s | s in segs :: s.start in r && s.end in r
  {
    if segs == [] then [] else
      var last := segs[|segs| - 1];
      Points(segs[..|segs| - 1]) + [last.start, last.end]
  }

  function Edges(regions: seq<Interval>): (r: seq<int>)
    ensures forall s | s in regions :: s.start in r && s.end in r
  {
    if regions == [] then [] else
      var last := regions[|regions| - 1];
      Edges(regions[..|regions| - 1]) + [last.start, last.end]
  }

  function Boundaries(c: Trial): (r: seq<int>)
    ensures Ascending(r)
    ensures forall s | s in c.ref || s in c.pred :: s.start in r && s.end in r
    ensures forall s | s in c.regions :: s.start in r && s.end in r
  {
    Sorted(Points(c.ref) + Points(c.pred) + Edges(c.regions))
  }

  /** The midpoint of [start, end) against the merged regions; doubled to stay in whole ticks. */
  predicate MidpointInside(regions: seq<Interval>, start: int, end: int) {
    exists r | r in regions :: 2 * r.start <= start + end < 2 * r.end
  }

  /** Between two neighbouring boundaries nothing changes: the code's test on the whole interval
      and its midpoint test decide every tick of it. */
  lemma {:induction false} ElementaryInterval(c: Trial, start: int, end: int, t: int)
    requires Proper(c.ref) && Proper(c.pred)
    requires start <= t < end
    requires forall p | p in Boundaries(c) :: p <= start || end <= p
    ensures ActiveBetween(c.ref, start, end) == Active(c.ref, t)
    ensures ActiveBetween(c.pred, start, end) == Active(c.pred, t)
    ensures MidpointInside(c.regions, start, end) <==> Inside(c.regions, t)
  {
    var b := Boundaries(c);
    assert forall s | s in c.ref || s in c.pred :: s.start in b && s.end in b;
    assert forall r | r in c.regions :: r.start in b && r.end in b;
    hide Boundaries, MidpointInside, Inside, ActiveBetween, Active;
    SameActive(c.ref, start, end, t);
    SameActive(c.pred, start, end, t);
    MidpointDecides(c.regions, start, end, t);
  }

  lemma {:induction false} MidpointDecides(regions: seq<Interval>, start: int, end: int, t: int)
    requires start <= t < end
    requires forall r | r in regions :: (r.start <= start || end <= r.start) && (r.end <= start || end <= r.end)
    ensures MidpointInside(regions, start, end) <==> Inside(regions, t)
  {
    forall r | r in regions ensures 2 * r.start <= start + end < 2 * r.end <==> r.start <= t < r.end {}
  }

  lemma {:induction false} SameActive(segs: seq<Segment>, start: int, end: int, t: int)
    requires start <= t < end
    requires forall s | s in segs :: (s.start <= start || end <= s.start) && (s.end <= start || end <= s.end)
    ensures ActiveBetween(segs, start, end) == Active(segs, t)
  {
    forall s | s in segs ensures Covers(s, t) <==> s.start < end && s.end > start {}
  }

  lemma {:induction false} Quiet(c: Trial, t: int)
    requires Active(c.ref, t) == {} && Active(c.pred, t) == {}
    ensures RateAt(c, t) == SILENT
  {
    assert Hits({}, {}, c.mapping) == {};
  }

  /** Before the first and after the last boundary nobody speaks. */
  lemma {:induction false} Idle(c: Trial, lo: int, mid: int, hi: int)
    requires Proper(c.ref) && Proper(c.pred) && lo <= mid <= hi
    requires (forall p | p in Boundaries(c) :: p <= mid) || (forall p | p in Boundaries(c) :: hi <= p)
    ensures Tally(c, lo, hi) == Tally(c, lo, mid)
  {
    forall t | mid <= t < hi ensures RateAt(c, t) == SILENT {
      forall s | s in c.ref || s in c.pred ensures !Covers(s, t) {
        assert s.start in Boundaries(c) && s.end in Boundaries(c);
      }
      Quiet(c, t);
    }
    TallyExtends(c, lo, mid, hi, SILENT);
  }

  /** What one turn of the loop adds: the rate of the elementary interval times its length. */
  lemma {:induction false} IntervalTally(c: Trial, lo: int, start: int, end: int)
    requires Proper(c.ref) && Proper(c.pred) && lo <= start < end
    requires forall p | p in Boundaries(c) :: p <= start || end <= p
    ensures Tally(c, lo, end) ==
      if MidpointInside(c.regions, start, end) then Tally(c, lo, start)
      else Tally(c, lo, start).Plus(
             Rates(ActiveBetween(c.ref, start, end), ActiveBetween(c.pred, start, end), c.mapping), end - start)
  {
    var rate := if MidpointInside(c.regions, start, end) then SILENT
      else Rates(ActiveBetween(c.ref, start, end), ActiveBetween(c.pred, start, end), c.mapping);
    forall t | start <= t < end ensures RateAt(c, t) == rate {
      ElementaryInterval(c, start, end, t);
    }
    TallyExtends(c, lo, start, end, rate);
  }

  /** The accumulating loop measures exactly the per-tick rates outside the collar. */
  method Sweep(c: Trial, ghost lo: int, ghost hi: int) returns (score: Score)
    requires Proper(c.ref) && Proper(c.pred) && lo <= hi && Encloses(lo, hi, c)
    ensures score == Tally(c, lo, hi)
  {
    hide *;
    var boundaries := Boundaries(c);
    score := SILENT;
    SweepEnds(c, lo, hi);
    if boundaries == [] {
      return;
    }
    for k := 0 to |boundaries| - 1
      invariant lo <= boundaries[k]
      invariant score == Tally(c, lo, boundaries[k])
    {
      var start, end := boundaries[k], boundaries[k + 1];
      NoneBetween(boundaries, k);
      IntervalTally(c, lo, start, end);
      if !MidpointInside(c.regions, start, end) {
        var refActive := ActiveBetween(c.ref, start, end);
        var predActive := ActiveBetween(c.pred, start, end);
        score := score.Plus(Rates(refActive, predActive, c.mapping), end - start);
      }
    }
  }

  lemma {:induction false} NoneBetween(bs: seq<int>, k: nat)
    requires Ascending(bs) && k + 1 < |bs|
    ensures bs[k] < bs[k + 1] && forall p | p in bs :: p <= bs[k] || bs[k + 1] <= p
  {
    forall p | p in bs ensures p <= bs[k] || bs[k + 1] <= p {
      var i :| 0 <= i < |bs| && bs[i] == p;
    }
  }

  lemma {:induction false} SweepEnds(c: Trial, lo: int, hi: int)
    requires Proper(c.ref) && Proper(c.pred) && lo <= hi && Encloses(lo, hi, c)
    ensures var bs := Boundaries(c);
      if bs == [] then Tally(c, lo, hi) == SILENT
      else
        && lo <= bs[0] <= bs[|bs| - 1] <= hi
        && Tally(c, lo, bs[0]) == SILENT && Tally(c, lo, hi) == Tally(c, lo, bs[|bs| - 1])
  {
    var bs := Boundaries(c);
    assert Tally(c, lo, lo) == SILENT;
    BoundariesEnclosed(c, lo, hi);
    if bs == [] {
      Idle(c, lo, lo, hi);
    } else {
      FirstAndLast(bs);
      Idle(c, lo, lo, bs[0]);
      Idle(c, lo, bs[|bs| - 1], hi);
    }
  }

  lemma {:induction false} BoundariesEnclosed(c: Trial, lo: int, hi: int)
    requires Proper(c.ref) && Proper(c.pred) && Encloses(lo, hi, c)
    ensures forall p | p in Boundaries(c) :: lo <= p <= hi
  {
    PointsEnclosed(c.ref, lo, hi);
    PointsEnclosed(c.pred, lo, hi);
    EdgesEnclosed(c.regions, lo, hi);
    forall p | p in Boundaries(c) ensures lo <= p <= hi {
      assert p in Points(c.ref) + Points(c.pred) + Edges(c.regions);
    }
  }

  lemma {:induction false} FirstAndLast(bs: seq<int>)
    requires Ascending(bs) && bs != []
    ensures bs[0] in bs && bs[|bs| - 1] in bs
    ensures forall p | p in bs :: bs[0] <= p <= bs[|bs| - 1]
  {}

  lemma {:induction false} PointsEnclosed(segs: seq<Segment>, lo: int, hi: int)
    requires Within(segs, lo, hi) && Proper(segs)
    ensures forall p | p in Points(segs) :: lo <= p <= hi
  {
    if segs != [] {
      assert segs[|segs| - 1] in segs;
      PointsEnclosed(segs[..|segs| - 1], lo, hi);
    }
  }

  lemma {:induction false} EdgesEnclosed(regions: seq<Interval>, lo: int, hi: int)
    requires forall r | r in regions :: lo <= r.start < r.end <= hi
    ensures forall p | p in Edges(regions) :: lo <= p <= hi
  {
    if regions != [] {
      assert regions[|regions| - 1] in regions;
      EdgesEnclosed(regions[..|regions| - 1], lo, hi);
    }
  }
}
