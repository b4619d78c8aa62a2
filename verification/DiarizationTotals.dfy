/** The whole scorer, the meaning of its denominator, and the limit of its guarantee. */
module DiarizationTotals {
  import opened Sums
  import opened Segments
  import opened Intervals
  import opened Assignment
  import opened SpeakerMapping
  import opened SpeakerAgreement
  import opened ErrorRate
  import opened Diarization
  import opened Wrappers

  // ---------- the collar ----------

  /** Ticks closer than the collar to an endpoint of a reference segment, from time zero on. */
  ghost predicate NearEndpoint(ref: seq<Segment>, collar: int, t: int) {
    collar > 0 && exists s :: s in ref && (Near(s.start, collar, t) || Near(s.end, collar, t))
  }

  predicate Near(point: int, collar: int, t: int) { Max(0, point - collar) <= t < point + collar }

  method CollarRegions(ref: seq<Segment>, collar: int) returns (regions: seq<Interval>)
    ensures Separated(regions)
    ensures forall t :: Inside(regions, t) <==> NearEndpoint(ref, collar, t)
    ensures forall t :: Inside(regions, t) <==>
      t >= 0 && exists s :: s in ref && (s.start - collar <= t < s.start + collar || s.end - collar <= t < s.end + collar)
  {
    if collar <= 0 {
      return [];
    }
    var intervals: seq<Interval> := [];
    for k := 0 to |ref|
      invariant forall t :: Inside(intervals, t) <==> NearEndpoint(ref[..k], collar, t)
    {
      var s := ref[k];
      var next := [Interval(Max(0, s.start - collar), s.start + collar), Interval(Max(0, s.end - collar), s.end + collar)];
      CollarStep(ref, collar, k, intervals, next);
      intervals := intervals + next;
    }
    assert ref[..|ref|] == ref;
    regions := MergeIntervals(intervals);
  }

  lemma {:induction false} CollarStep(ref: seq<Segment>, collar: int, k: nat, intervals: seq<Interval>, next: seq<Interval>)
    requires k < |ref| && collar > 0
    requires forall t :: Inside(intervals, t) <==> NearEndpoint(ref[..k], collar, t)
    requires next == [Interval(Max(0, ref[k].start - collar), ref[k].start + collar),
                      Interval(Max(0, ref[k].end - collar), ref[k].end + collar)]
    ensures forall t :: Inside(intervals + next, t) <==> NearEndpoint(ref[..k + 1], collar, t)
  {
    assert ref[..k + 1] == ref[..k] + [ref[k]];
    assert next[0] in next && next[1] in next;
    InsideConcat(intervals, next);
    assert forall s :: s in ref[..k + 1] <==> s in ref[..k] || s == ref[k];
  }

  // ---------- the scorer ----------

  /** A window of ticks with room for the collar around every segment. */
  ghost predicate Roomy(segs: seq<Segment>, collar: int, lo: int, hi: int) {
    lo <= 0 <= hi && forall s | s in segs :: lo + Max(0, collar) <= s.start && s.end + Max(0, collar) <= hi
  }

  /** Every two transcripts fit into a window, so the scorer asks nothing of them by naming one. */
  lemma {:induction false} WindowExists(ref: seq<Segment>, pred: seq<Segment>, collar: int) returns (lo: int, hi: int)
    ensures Roomy(ref, collar, lo, hi) && Roomy(pred, collar, lo, hi)
  {
    lo, hi := Window(ref + pred, collar);
    assert forall s | s in ref :: s in ref + pred;
    assert forall s | s in pred :: s in ref + pred;
  }

  lemma {:induction false} Window(segs: seq<Segment>, collar: int) returns (lo: int, hi: int)
    ensures Roomy(segs, collar, lo, hi)
  {
    if segs == [] {
      lo, hi := 0, 0;
    } else {
      var last := segs[|segs| - 1];
      lo, hi := Window(segs[..|segs| - 1], collar);
      lo := if last.start - Max(0, collar) < lo then last.start - Max(0, collar) else lo;
      hi := if last.end + Max(0, collar) > hi then last.end + Max(0, collar) else hi;
      assert forall s :: s in segs <==> s in segs[..|segs| - 1] || s == last;
    }
  }

  method TimestampDer(ref: seq<Segment>, pred: seq<Segment>, collar: int, solve: Matrix -> seq<Match>,
                      ghost lo: int, ghost hi: int)
    returns (score: Score, ghost qs: seq<Match>, ghost regions: seq<Interval>)
    requires Proper(ref) && Proper(pred) && CorrectSolver(solve)
    requires Roomy(ref, collar, lo, hi) && Roomy(pred, collar, lo, hi)
    ensures Best(ref, pred, qs) && forall t :: Inside(regions, t) <==> NearEndpoint(ref, collar, t)
    ensures score == Tally(Trial(ref, pred, PairMap(qs), regions), lo, hi)
    ensures score.Errors() == 0 <==> forall t | lo <= t < hi && !Inside(regions, t) :: HeardInPairs(ref, pred, qs, t)
    ensures (exists rho :: RenamedCopy(rho, ref, pred)) ==> score.Errors() == 0
    ensures collar <= 0 && (NoSelfOverlap(ref) || NoSelfOverlap(pred)) ==>
      (score.Errors() == 0 <==> exists rho :: SameSpeech(rho, ref, pred))
  {
    var mapping := BestMapping(ref, pred, solve);
    ghost var pairs :| Best(ref, pred, pairs) && mapping == PairMap(pairs);
    var merged := CollarRegions(ref, collar);
    qs, regions := pairs, merged;
    RegionsEnclosed(ref, pred, merged, collar, lo, hi);
    score := Sweep(Trial(ref, pred, mapping, merged), lo, hi);
    assert Matches(pairs, Labels(ref), Labels(pred));
    hide *;
    ZeroIffHeardInPairs(ref, pred, qs, regions, lo, hi);
    if rho :| RenamedCopy(rho, ref, pred) {
      PerfectPredictionScoresZero(rho, ref, pred, qs, regions, lo, hi);
    }
    if collar <= 0 && (NoSelfOverlap(ref) || NoSelfOverlap(pred)) {
      NoRegions(ref, merged, collar);
      ZeroIffSameSpeech(ref, pred, qs, lo, hi);
    }
  }

  lemma {:induction false} NoRegions(ref: seq<Segment>, regions: seq<Interval>, collar: int)
    requires Separated(regions) && collar <= 0
    requires forall t :: Inside(regions, t) <==> NearEndpoint(ref, collar, t)
    ensures regions == []
  {
    Occupied(regions);
  }

  lemma {:induction false} RegionsEnclosed(ref: seq<Segment>, pred: seq<Segment>, regions: seq<Interval>, collar: int, lo: int, hi: int)
    requires Proper(ref) && Proper(pred) && Separated(regions)
    requires Roomy(ref, collar, lo, hi) && Roomy(pred, collar, lo, hi)
    requires forall t :: Inside(regions, t) <==> NearEndpoint(ref, collar, t)
    ensures lo <= hi && Framed(ref, pred, lo, hi)
    ensures forall m :: Encloses(lo, hi, Trial(ref, pred, m, regions))
  {
    forall r | r in regions ensures lo <= r.start < r.end <= hi {
      assert Inside(regions, r.start) && Inside(regions, r.end - 1);
    }
  }

  // ---------- the denominator ----------

  function Length(xs: seq<Interval>): int { Sum((r: Interval) => r.end - r.start, xs) }

  function Covered(xs: seq<Interval>): int -> int { t => if Inside(xs, t) then 1 else 0 }

  lemma {:induction false} SeparatedLength(xs: seq<Interval>, lo: int, hi: int)
    requires Separated(xs) && lo <= hi && forall r | r in xs :: lo <= r.start && r.end <= hi
    ensures Sum(Covered(xs), Range(lo, hi)) == Length(xs)
  {
    if xs == [] {
      ConstantOn(Covered(xs), 0, lo, hi);
    } else {
      var front, last := xs[..|xs| - 1], xs[|xs| - 1];
      var f := t => if last.start <= t < last.end then 1 else 0;
      assert last in xs;
      forall t { LastApart(xs, t); }
      SeparatedLength(front, lo, hi);
      hide Covered;
      hide Separated;
      IndicatorSum(f, last.start, last.end, lo, hi);
      Linear(Covered(front), f, Covered(xs), Range(lo, hi));
    }
  }

  /** A separated list covers a tick by its last interval or by the others, never by both. */
  lemma {:induction false} LastApart(xs: seq<Interval>, t: int)
    requires Separated(xs) && xs != []
    ensures Separated(xs[..|xs| - 1])
    ensures var last := xs[|xs| - 1];
      Covered(xs)(t) == Covered(xs[..|xs| - 1])(t) + if last.start <= t < last.end then 1 else 0
  {
    var front, last := xs[..|xs| - 1], xs[|xs| - 1];
    assert xs == front + [last] && last in [last];
    InsideConcat(front, [last]);
    assert last.start <= t ==> forall r | r in front :: r.end < last.start;
  }

  /** The union of one speaker's segments, as a separated list of intervals. */
  ghost predicate IsUnion(xs: seq<Interval>, segs: seq<Segment>, i: int) {
    Separated(xs) && forall t :: Inside(xs, t) <==> i in Active(segs, t)
  }

  /** Without collar, total is the length of the union of each reference speaker's segments,
      added over the speakers: double coverage by one speaker counts once. */
  lemma {:induction false} TotalIsUnionLength(c: Trial, union: int -> seq<Interval>, length: int -> int, lo: int, hi: int)
    requires lo <= hi && Proper(c.ref) && Within(c.ref, lo, hi) && c.regions == []
    requires forall i | i in Labels(c.ref) :: IsUnion(union(i), c.ref, i) && length(i) == Length(union(i))
    ensures Tally(c, lo, hi).total == Sum(length, Labels(c.ref))
  {
    var F := t => Talkers(c.ref, t);
    var G := i => Talk(c.ref, i);
    forall t ensures TotalAt(c)(t) == Sum(F(t), Labels(c.ref)) { ActiveCount(c.ref, t); }
    forall i | i in Labels(c.ref) ensures length(i) == Sum(G(i), Range(lo, hi)) {
      UnionTalk(c.ref, union(i), i, lo, hi);
    }
    forall t, i ensures F(t)(i) == G(i)(t) {}
    hide TotalAt;
    hide Talk;
    hide Talkers;
    hide Labels;
    Swap(F, G, TotalAt(c), length, Range(lo, hi), Labels(c.ref));
  }

  lemma {:induction false} UnionTalk(segs: seq<Segment>, xs: seq<Interval>, i: int, lo: int, hi: int)
    requires lo <= hi && Within(segs, lo, hi) && IsUnion(xs, segs, i)
    ensures Sum(Talk(segs, i), Range(lo, hi)) == Length(xs)
  {
    forall r | r in xs ensures lo <= r.start && r.end <= hi {
      assert Inside(xs, r.start) && Inside(xs, r.end - 1);
      assert i in Active(segs, r.start) && i in Active(segs, r.end - 1);
    }
    SeparatedLength(xs, lo, hi);
    forall t ensures Talk(segs, i)(t) == Covered(xs)(t) { TalkIffActive(segs, i, t); }
    Congruent(Talk(segs, i), Covered(xs), Range(lo, hi));
  }

  // ---------- where the guarantee ends ----------

  const TWICE_REF := [Segment(0, 2, 1), Segment(0, 1, 2), Segment(0, 1, 2)]
  const TWICE_PRED := [Segment(0, 2, 1), Segment(0, 1, 1), Segment(0, 1, 1), Segment(0, 1, 2)]

  /** Both sides say the same under the same names, but each overlaps a speaker with themselves:
      the solver must then swap the two speakers, and the error rate is not zero. */
  lemma {:induction false} SelfOverlapCostsErrors(qs: seq<Match>)
    requires Best(TWICE_REF, TWICE_PRED, qs)
    ensures SameSpeech(map[1 := 1, 2 := 2], TWICE_REF, TWICE_PRED)
    ensures Tally(Trial(TWICE_REF, TWICE_PRED, PairMap(qs), []), 0, 2).Errors() > 0
  {
    TwiceSpeech();
    TwiceSwapped(qs);
    DistinctSides(qs, Labels(TWICE_REF), Labels(TWICE_PRED));
    TwiceTimes();
    var c := Trial(TWICE_REF, TWICE_PRED, PairMap(qs), []);
    if Tally(c, 0, 2).Errors() <= 0 {
      NonNegativeErrors(c, 0, 2);
      ZeroSumMeansNoErrors(c, 0, 2);
      NoErrorsMeans(TWICE_REF, TWICE_PRED, qs, 1);
      SameTalk(TWICE_REF, TWICE_PRED, Match(2, 1), 1);
      assert false;
    }
  }

  lemma {:induction false} NonNegativeErrors(c: Trial, lo: int, hi: int)
    requires lo <= hi
    ensures Tally(c, lo, hi).Errors() >= 0
  {
    NonNegative(FalseAlarmAt(c), Range(lo, hi));
    NonNegative(MissedAt(c), Range(lo, hi));
    NonNegative(ConfusionAt(c), Range(lo, hi));
  }

  function Bit(b: bool): int { if b then 1 else 0 }

  lemma {:induction false} TimesAppend(front: seq<Segment>, last: Segment, i: int, t: int)
    ensures Times(front + [last], i, t) == Times(front, i, t) + Bit(last.speaker == i && Covers(last, t))
  {
    assert (front + [last])[..|front|] == front;
  }

  lemma {:induction false} TwiceTimes()
    ensures forall t :: Times(TWICE_REF, 1, t) == Bit(0 <= t < 2)
    ensures forall t :: Times(TWICE_REF, 2, t) == 2 * Bit(0 <= t < 1)
    ensures forall t :: Times(TWICE_PRED, 1, t) == Bit(0 <= t < 2) + 2 * Bit(0 <= t < 1)
    ensures forall t :: Times(TWICE_PRED, 2, t) == Bit(0 <= t < 1)
  {
    var long, first, second := Segment(0, 2, 1), Segment(0, 1, 1), Segment(0, 1, 2);
    forall i, t
      ensures Times(TWICE_REF, i, t) == Bit(i == 1 && 0 <= t < 2) + 2 * Bit(i == 2 && 0 <= t < 1)
      ensures Times(TWICE_PRED, i, t) ==
        Bit(i == 1 && 0 <= t < 2) + 2 * Bit(i == 1 && 0 <= t < 1) + Bit(i == 2 && 0 <= t < 1)
    {
      assert TWICE_REF == [] + [long] + [second] + [second];
      TimesAppend([], long, i, t);
      TimesAppend([] + [long], second, i, t);
      TimesAppend([] + [long] + [second], second, i, t);
      assert TWICE_PRED == [] + [long] + [first] + [first] + [second];
      TimesAppend([] + [long], first, i, t);
      TimesAppend([] + [long] + [first], first, i, t);
      TimesAppend([] + [long] + [first] + [first], second, i, t);
    }
  }

  lemma {:induction false} TwiceSpeakers()
    ensures Speakers(TWICE_REF) == {1, 2} == Speakers(TWICE_PRED)
    ensures Framed(TWICE_REF, TWICE_PRED, 0, 2)
  {
    assert TWICE_REF[0] in TWICE_REF && TWICE_REF[1] in TWICE_REF;
    assert TWICE_PRED[0] in TWICE_PRED && TWICE_PRED[3] in TWICE_PRED;
  }

  lemma {:induction false} TwiceSpeech()
    ensures SameSpeech(map[1 := 1, 2 := 2], TWICE_REF, TWICE_PRED)
  {
    TwiceTimes();
    TwiceSpeakers();
    hide Times, Speakers, SameSpeech, Renaming;
    SpeechOfTwo(map[1 := 1, 2 := 2], TWICE_REF, TWICE_PRED);
  }

  lemma {:induction false} SpeechOfTwo(same: map<int, int>, ref: seq<Segment>, pred: seq<Segment>)
    requires same.Keys == {1, 2} == Speakers(ref) == Speakers(pred) && forall i | i in same :: same[i] == i
    requires forall i, t | i in same :: Times(pred, i, t) > 0 <==> Times(ref, i, t) > 0
    ensures SameSpeech(same, ref, pred)
  {
    hide Times;
    forall j ensures j in Speakers(pred) <==> exists i :: i in same && same[i] == j {
      assert j in same ==> same[j] == j;
    }
  }

  /** Overlap of two speakers within two ticks. */
  lemma {:induction false} TwoTicks(i: int, j: int)
    ensures OverlapOf(TWICE_REF, TWICE_PRED)(Match(i, j)) ==
      Times(TWICE_REF, i, 0) * Times(TWICE_PRED, j, 0) + Times(TWICE_REF, i, 1) * Times(TWICE_PRED, j, 1)
  {
    TwiceSpeakers();
    OverlapIsShared(TWICE_REF, TWICE_PRED, i, j, 0, 2);
    var f := Shared(TWICE_REF, TWICE_PRED, i, j);
    assert Range(0, 2) == [0, 1];
    TwoTerms(f, 0, 1);
  }

  lemma {:induction false} TwoTerms<T>(f: T -> int, x: T, y: T)
    ensures Sum(f, [x, y]) == f(x) + f(y)
  {
    Concat(f, [x], [y]);
    assert [x] + [y] == [x, y] && [x][..|[x]| - 1] == [] && [y][..|[y]| - 1] == [];
  }

  lemma {:induction false} TwiceSwapped(qs: seq<Match>)
    requires Best(TWICE_REF, TWICE_PRED, qs)
    ensures Match(2, 1) in qs
  {
    TwiceSpeakers();
    TwoLabels(TWICE_REF);
    TwoLabels(TWICE_PRED);
    var swap := [Match(1, 2), Match(2, 1)];
    assert Matches(swap, Labels(TWICE_REF), Labels(TWICE_PRED));
    BestBeats(TWICE_REF, TWICE_PRED, qs, swap);
    PairsOfTwo(qs, Labels(TWICE_REF), Labels(TWICE_PRED));
    TwiceOverlaps();
    hide *;
    TwoTerms(OverlapOf(TWICE_REF, TWICE_PRED), Match(1, 2), Match(2, 1));
    TwoTerms(OverlapOf(TWICE_REF, TWICE_PRED), qs[0], qs[1]);
  }

  lemma {:induction false} TwiceOverlaps()
    ensures var O := OverlapOf(TWICE_REF, TWICE_PRED);
      O(Match(1, 1)) == 4 && O(Match(2, 2)) == 2 && O(Match(1, 2)) == 1 && O(Match(2, 1)) == 6
  {
    TwiceTimes();
    hide Times;
    hide OverlapOf;
    TwoTicks(1, 1);
    TwoTicks(2, 2);
    TwoTicks(1, 2);
    TwoTicks(2, 1);
  }

  lemma {:induction false} TwoLabels(segs: seq<Segment>)
    requires Speakers(segs) == {1, 2}
    ensures |Labels(segs)| == 2 && forall x :: x in Labels(segs) <==> x == 1 || x == 2
  {
    hide Labels;
    var l := Labels(segs);
    assert forall x :: x in [1, 2] <==> x == 1 || x == 2;
    if |l| >= 2 { Fills(l, [1, 2]); } else { Fills([1, 2], l); }
  }

  lemma {:induction false} PairsOfTwo(qs: seq<Match>, xs: seq<int>, ys: seq<int>)
    requires Matches(qs, xs, ys) && |xs| == |ys| == 2
    requires forall x :: x in xs <==> x == 1 || x == 2
    requires forall y :: y in ys <==> y == 1 || y == 2
    ensures qs == [qs[0], qs[1]]
    ensures Match(2, 1) in qs ||
      (qs[0] == Match(1, 1) && qs[1] == Match(2, 2)) || (qs[0] == Match(2, 2) && qs[1] == Match(1, 1))
  {
    assert qs[0] in qs && qs[1] in qs;
    assert Lefts(qs)[0] != Lefts(qs)[1] && Rights(qs)[0] != Rights(qs)[1];
  }
}
