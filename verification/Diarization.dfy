/** What the diarization error rate guarantees, for every optimum the solver may return. */
module Diarization {
  import opened Sums
  import opened Segments
  import opened Intervals
  import opened Assignment
  import opened SpeakerMapping
  import opened SpeakerAgreement
  import opened ErrorRate
  import opened Wrappers

  // ---------- counting speakers and hits at one instant ----------

  function Talkers(segs: seq<Segment>, t: int): int -> int { i => Talk(segs, i)(t) }

  lemma {:induction false} TalkIffActive(segs: seq<Segment>, i: int, t: int)
    ensures Talk(segs, i)(t) == if i in Active(segs, t) then 1 else 0
  {
    ActiveIffCovered(segs, i, t);
  }

  lemma {:induction false} ActiveCount(segs: seq<Segment>, t: int)
    ensures |Active(segs, t)| == Sum(Talkers(segs, t), Labels(segs))
  {
    forall i { TalkIffActive(segs, i, t); }
    assert forall i | i in Active(segs, t) :: i in Speakers(segs);
    hide Talk;
    CountsMembers(Active(segs, t), Talkers(segs, t), Labels(segs));
  }

  /** 1 for a pair whose two speakers are both heard at t. */
  function Together(ref: seq<Segment>, pred: seq<Segment>, t: int): Match -> int {
    (q: Match) => if Talk(ref, q.left)(t) == 1 && Talk(pred, q.right)(t) == 1 then 1 else 0
  }

  lemma {:induction false} PairMapAt(qs: seq<Match>, q: Match)
    requires Distinct(Rights(qs)) && q in qs
    ensures q.right in PairMap(qs) && PairMap(qs)[q.right] == q.left
  {
    var front, last := qs[..|qs| - 1], qs[|qs| - 1];
    if q != last {
      var k :| 0 <= k < |qs| && qs[k] == q;
      assert Rights(qs)[k] != Rights(qs)[|qs| - 1];
      assert Rights(front) == Rights(qs)[..|qs| - 1];
      PairMapAt(front, q);
    }
  }

  lemma {:induction false} PairMapFrom(qs: seq<Match>, j: int)
    requires j in PairMap(qs)
    ensures Match(PairMap(qs)[j], j) in qs
  {
    if qs[|qs| - 1].right != j { PairMapFrom(qs[..|qs| - 1], j); }
  }

  function HitsOf(ref: seq<Segment>, pred: seq<Segment>, qs: seq<Match>): int -> int {
    t => |Hits(Active(ref, t), Active(pred, t), PairMap(qs))|
  }

  /** The correctly attributed speakers are counted by the pairs heard together. */
  lemma {:induction false} HitCount(ref: seq<Segment>, pred: seq<Segment>, qs: seq<Match>, t: int)
    requires Distinct(Lefts(qs)) && Distinct(Rights(qs))
    ensures HitsOf(ref, pred, qs)(t) == Sum(Together(ref, pred, t), qs)
  {
    var hits := Hits(Active(ref, t), Active(pred, t), PairMap(qs));
    var f := i => if i in hits then 1 else 0;
    forall i | i in hits ensures i in Lefts(qs) {
      var p :| p in PairMap(qs) && PairMap(qs)[p] == i;
      PairMapFrom(qs, p);
      var k :| 0 <= k < |qs| && qs[k] == Match(i, p);
      assert Lefts(qs)[k] == i;
    }
    forall k | 0 <= k < |qs| ensures f(Lefts(qs)[k]) == Together(ref, pred, t)(qs[k]) {
      HitIffTogether(ref, pred, qs, k, t);
    }
    CountsMembers(hits, f, Lefts(qs));
    Mapped(f, Together(ref, pred, t), 1, Lefts(qs), qs);
  }

  lemma {:induction false} HitIffTogether(ref: seq<Segment>, pred: seq<Segment>, qs: seq<Match>, k: int, t: int)
    requires Distinct(Lefts(qs)) && Distinct(Rights(qs)) && 0 <= k < |qs|
    ensures qs[k].left in Hits(Active(ref, t), Active(pred, t), PairMap(qs)) <==> Together(ref, pred, t)(qs[k]) == 1
  {
    var q := qs[k];
    TalkIffActive(ref, q.left, t);
    TalkIffActive(pred, q.right, t);
    PairMapAt(qs, q);
    hide Talk;
    hide Active;
    hide PairMap;
    if q.left in Hits(Active(ref, t), Active(pred, t), PairMap(qs)) {
      var p :| p in Active(pred, t) && p in PairMap(qs) && PairMap(qs)[p] == q.left;
      PairMapFrom(qs, p);
      var j :| 0 <= j < |qs| && qs[j] == Match(q.left, p);
      assert Lefts(qs)[j] == Lefts(qs)[k];
    }
  }

  function RightTalk(pred: seq<Segment>, t: int): Match -> int { (q: Match) => Talkers(pred, t)(q.right) }

  function LeftTalk(ref: seq<Segment>, t: int): Match -> int { (q: Match) => Talkers(ref, t)(q.left) }

  /** The pairs heard on one side are at most the active speakers, and if as many, all of them. */
  lemma {:induction false} SideBound(segs: seq<Segment>, g: Match -> int, side: seq<int>, qs: seq<Match>, t: int)
    requires Distinct(side) && |side| == |qs|
    requires forall k | 0 <= k < |qs| :: g(qs[k]) == Talkers(segs, t)(side[k])
    ensures Sum(g, qs) <= |Active(segs, t)|
    ensures Sum(g, qs) == |Active(segs, t)| <==> forall i | i in Active(segs, t) :: i in side
  {
    var heard := set i | i in Active(segs, t) && i in side;
    var f := i => if i in heard then 1 else 0;
    forall k | 0 <= k < |qs| ensures f(side[k]) == g(qs[k]) { TalkIffActive(segs, side[k], t); }
    CountsMembers(heard, f, side);
    Mapped(g, f, 1, qs, side);
    Subset(heard, Active(segs, t));
    if forall i | i in Active(segs, t) :: i in side { assert heard == Active(segs, t); }
  }

  lemma {:induction false} SideBounds(ref: seq<Segment>, pred: seq<Segment>, qs: seq<Match>, t: int)
    requires Distinct(Lefts(qs)) && Distinct(Rights(qs))
    ensures Sum(LeftTalk(ref, t), qs) <= |Active(ref, t)|
    ensures Sum(LeftTalk(ref, t), qs) == |Active(ref, t)| <==> forall i | i in Active(ref, t) :: i in Lefts(qs)
    ensures Sum(RightTalk(pred, t), qs) <= |Active(pred, t)|
    ensures Sum(RightTalk(pred, t), qs) == |Active(pred, t)| <==> forall i | i in Active(pred, t) :: i in Rights(qs)
  {
    SideBound(ref, LeftTalk(ref, t), Lefts(qs), qs, t);
    SideBound(pred, RightTalk(pred, t), Rights(qs), qs, t);
  }

  lemma {:induction false} TogetherBelow(ref: seq<Segment>, pred: seq<Segment>, q: Match, t: int)
    ensures 0 <= Together(ref, pred, t)(q) <= LeftTalk(ref, t)(q)
    ensures Together(ref, pred, t)(q) <= RightTalk(pred, t)(q)
  {
    assert LeftTalk(ref, t)(q) == Talkers(ref, t)(q.left) == Talk(ref, q.left)(t);
    assert RightTalk(pred, t)(q) == Talkers(pred, t)(q.right) == Talk(pred, q.right)(t);
  }

  /** No more hits than speakers on either side. */
  lemma {:induction false} HitBound(ref: seq<Segment>, pred: seq<Segment>, qs: seq<Match>, t: int)
    requires Distinct(Lefts(qs)) && Distinct(Rights(qs))
    ensures HitsOf(ref, pred, qs)(t) <= |Active(ref, t)|
    ensures HitsOf(ref, pred, qs)(t) <= |Active(pred, t)|
  {
    hide *;
    HitCount(ref, pred, qs, t);
    SideBounds(ref, pred, qs, t);
    forall q { TogetherBelow(ref, pred, q, t); }
    Monotone(Together(ref, pred, t), LeftTalk(ref, t), qs);
    Monotone(Together(ref, pred, t), RightTalk(pred, t), qs);
  }

  lemma {:induction false} Subset(a: set<int>, b: set<int>)
    requires a <= b
    ensures |a| <= |b|
    ensures |a| == |b| ==> a == b
  {
    assert b == a + (b - a);
  }

  // ---------- zero errors ----------

  ghost predicate NoErrors(c: Trial, t: int) {
    RateAt(c, t).falseAlarm == 0 && RateAt(c, t).missed == 0 && RateAt(c, t).confusion == 0
  }

  /** Speakers paired with someone heard at the same ticks leave no error at that tick. */
  lemma {:induction false} AgreeLeavesNone(ref: seq<Segment>, pred: seq<Segment>, qs: seq<Match>, regions: seq<Interval>, t: int)
    requires Matches(qs, Labels(ref), Labels(pred)) && |Labels(ref)| == |Labels(pred)|
    requires forall q | q in qs :: Talk(ref, q.left)(t) == Talk(pred, q.right)(t)
    ensures NoErrors(Trial(ref, pred, PairMap(qs), regions), t)
  {
    var left, right := (q: Match) => Talkers(ref, t)(q.left), (q: Match) => Talkers(pred, t)(q.right);
    forall q | q in qs ensures left(q) == right(q) == Together(ref, pred, t)(q) { TalkBits(ref, pred, q, t); }
    DistinctSides(qs, Labels(ref), Labels(pred));
    hide *;
    ActiveCount(ref, t);
    ActiveCount(pred, t);
    LeftSum(left, Talkers(ref, t), qs, Labels(ref), Labels(pred));
    RightSum(right, Talkers(pred, t), qs, Labels(ref), Labels(pred));
    Congruent(left, right, qs);
    HitCount(ref, pred, qs, t);
    Congruent(Together(ref, pred, t), left, qs);
    EqualCounts(ref, pred, qs, regions, t);
  }

  lemma {:induction false} DistinctSides(qs: seq<Match>, xs: seq<int>, ys: seq<int>)
    requires Matches(qs, xs, ys)
    ensures Distinct(Lefts(qs)) && Distinct(Rights(qs))
  {}

  lemma {:induction false} EqualCounts(ref: seq<Segment>, pred: seq<Segment>, qs: seq<Match>, regions: seq<Interval>, t: int)
    requires |Active(ref, t)| == |Active(pred, t)| == HitsOf(ref, pred, qs)(t)
    ensures NoErrors(Trial(ref, pred, PairMap(qs), regions), t)
  {}

  lemma {:induction false} TalkBits(ref: seq<Segment>, pred: seq<Segment>, q: Match, t: int)
    requires Talk(ref, q.left)(t) == Talk(pred, q.right)(t)
    ensures Talkers(ref, t)(q.left) == Talkers(pred, t)(q.right) == Together(ref, pred, t)(q)
  {
    assert 0 <= Talk(ref, q.left)(t) <= 1;
  }

  lemma {:induction false} NoErrorsAddUp(c: Trial, lo: int, hi: int)
    requires lo <= hi && forall t | lo <= t < hi :: NoErrors(c, t)
    ensures Tally(c, lo, hi).Errors() == 0
  {
    forall t | lo <= t < hi ensures FalseAlarmAt(c)(t) == MissedAt(c)(t) == ConfusionAt(c)(t) == 0 {
      assert NoErrors(c, t);
    }
    ConstantOn(FalseAlarmAt(c), 0, lo, hi);
    ConstantOn(MissedAt(c), 0, lo, hi);
    ConstantOn(ConfusionAt(c), 0, lo, hi);
  }

  /** The diarization error of a perfect prediction is exactly zero, with any collar and whatever
      optimum the solver returns: for a renamed copy of the reference segments, and for the same
      speech cut differently when one side never overlaps a speaker with themselves. */
  lemma {:induction false} PerfectPredictionScoresZero(rho: map<int, int>, ref: seq<Segment>, pred: seq<Segment>,
                                                       qs: seq<Match>, regions: seq<Interval>, lo: int, hi: int)
    requires lo <= hi && Framed(ref, pred, lo, hi) && Best(ref, pred, qs)
    requires RenamedCopy(rho, ref, pred) ||
      (SameSpeech(rho, ref, pred) && (NoSelfOverlap(ref) || NoSelfOverlap(pred)))
    ensures var score := Tally(Trial(ref, pred, PairMap(qs), regions), lo, hi);
      score.Errors() == 0 && (score.total > 0 ==> score.Rate() == Some(0.0))
  {
    hide *;
    if RenamedCopy(rho, ref, pred) { CopyHasSameTimes(rho, ref, pred); }
    BestAgrees(rho, ref, pred, qs, lo, hi);
    IsRenaming(rho, ref, pred);
    var follow := Followed(rho, ref, pred);
    BestBeats(ref, pred, qs, follow);
    var c := Trial(ref, pred, PairMap(qs), regions);
    forall t | lo <= t < hi ensures NoErrors(c, t) {
      AgreeTalks(ref, pred, qs, lo, hi, t);
      AgreeLeavesNone(ref, pred, qs, regions, t);
    }
    NoErrorsAddUp(c, lo, hi);
    RateOfZero(Tally(c, lo, hi));
  }

  lemma {:induction false} RateOfZero(score: Score)
    requires score.Errors() == 0
    ensures score.total > 0 ==> score.Rate() == Some(0.0)
  {}

  lemma {:induction false} AgreeTalks(ref: seq<Segment>, pred: seq<Segment>, qs: seq<Match>, lo: int, hi: int, t: int)
    requires Agree(ref, pred, qs, lo, hi) && lo <= t < hi
    ensures forall q | q in qs :: Talk(ref, q.left)(t) == Talk(pred, q.right)(t)
  {}

  /** A tick without errors: paired speakers are heard together or not at all, and everyone heard
      is paired. */
  lemma {:induction false} NoErrorsMeans(ref: seq<Segment>, pred: seq<Segment>, qs: seq<Match>, t: int)
    requires Distinct(Lefts(qs)) && Distinct(Rights(qs))
    requires NoErrors(Trial(ref, pred, PairMap(qs), []), t)
    ensures forall q | q in qs :: LeftTalk(ref, t)(q) == RightTalk(pred, t)(q)
    ensures forall i | i in Active(ref, t) :: i in Lefts(qs)
    ensures forall j | j in Active(pred, t) :: j in Rights(qs)
  {
    HitBound(ref, pred, qs, t);
    assert HitsOf(ref, pred, qs)(t) == |Active(ref, t)| == |Active(pred, t)|;
    hide *;
    HitCount(ref, pred, qs, t);
    SideBounds(ref, pred, qs, t);
    forall q { TogetherBelow(ref, pred, q, t); }
    Tight(Together(ref, pred, t), LeftTalk(ref, t), qs);
    Tight(Together(ref, pred, t), RightTalk(pred, t), qs);
  }

  /** f <= g with the sum of g at most the sum of f: the two agree everywhere. */
  lemma {:induction false} Tight(f: Match -> int, g: Match -> int, qs: seq<Match>)
    requires forall q | q in qs :: f(q) <= g(q)
    requires Sum(g, qs) <= Sum(f, qs)
    ensures Sum(g, qs) == Sum(f, qs)
    ensures forall q | q in qs :: f(q) == g(q)
  {
    var gap := (q: Match) => g(q) - f(q);
    Linear(f, gap, g, qs);
    NonNegative(gap, qs);
    AllZero(gap, qs);
    forall q | q in qs ensures f(q) == g(q) { assert gap(q) == 0; }
  }

  lemma {:induction false} ZeroSumMeansNoErrors(c: Trial, lo: int, hi: int)
    requires lo <= hi && Tally(c, lo, hi).Errors() == 0
    ensures forall t | lo <= t < hi :: NoErrors(c, t)
  {
    forall t ensures FalseAlarmAt(c)(t) >= 0 && MissedAt(c)(t) >= 0 && ConfusionAt(c)(t) >= 0 {}
    AllThreeZero(FalseAlarmAt(c), MissedAt(c), ConfusionAt(c), lo, hi);
    forall t | lo <= t < hi ensures NoErrors(c, t) {
      hide RateAt;
      assert FalseAlarmAt(c)(t) == MissedAt(c)(t) == ConfusionAt(c)(t) == 0;
    }
  }

  lemma {:induction false} AllThreeZero(f: int -> int, g: int -> int, h: int -> int, lo: int, hi: int)
    requires lo <= hi && forall t :: f(t) >= 0 && g(t) >= 0 && h(t) >= 0
    requires Sum(f, Range(lo, hi)) + Sum(g, Range(lo, hi)) + Sum(h, Range(lo, hi)) == 0
    ensures forall t | lo <= t < hi :: f(t) == g(t) == h(t) == 0
  {
    NonNegative(f, Range(lo, hi));
    NonNegative(g, Range(lo, hi));
    NonNegative(h, Range(lo, hi));
    AllZero(f, Range(lo, hi));
    AllZero(g, Range(lo, hi));
    AllZero(h, Range(lo, hi));
  }

  /** Conversely a zero error rate, under any pairing, means the prediction is the reference
      speech under other names. */
  lemma {:induction false} ZeroMeansSameSpeech(ref: seq<Segment>, pred: seq<Segment>, qs: seq<Match>, lo: int, hi: int)
    returns (rho: map<int, int>)
    requires lo <= hi && Framed(ref, pred, lo, hi) && Matches(qs, Labels(ref), Labels(pred))
    requires Tally(Trial(ref, pred, PairMap(qs), []), lo, hi).Errors() == 0
    ensures SameSpeech(rho, ref, pred)
  {
    hide *;
    DistinctSides(qs, Labels(ref), Labels(pred));
    ZeroSumMeansNoErrors(Trial(ref, pred, PairMap(qs), []), lo, hi);
    forall t | lo <= t < hi
      ensures forall i | i in Active(ref, t) :: i in Lefts(qs)
      ensures forall j | j in Active(pred, t) :: j in Rights(qs)
    {
      NoErrorsMeans(ref, pred, qs, t);
    }
    Sides(ref, pred, lo, hi);
    EverySpeakerHeard(ref, Lefts(qs), lo, hi);
    EverySpeakerHeard(pred, Rights(qs), lo, hi);
    forall q, t | q in qs ensures Times(ref, q.left, t) > 0 <==> Times(pred, q.right, t) > 0 {
      if lo <= t < hi {
        NoErrorsMeans(ref, pred, qs, t);
        SameTalk(ref, pred, q, t);
      } else {
        QuietOutside(ref, q.left, t, lo, hi);
        QuietOutside(pred, q.right, t, lo, hi);
      }
    }
    rho := PairMap(Flip(qs));
    PairsRename(ref, pred, qs);
    RenamedSpeech(rho, ref, pred);
  }

  lemma {:induction false} RenamedSpeech(rho: map<int, int>, ref: seq<Segment>, pred: seq<Segment>)
    requires Renaming(rho, ref, pred)
    requires forall i, t | i in rho :: Times(ref, i, t) > 0 <==> Times(pred, rho[i], t) > 0
    ensures SameSpeech(rho, ref, pred)
  {}

  lemma {:induction false} Sides(ref: seq<Segment>, pred: seq<Segment>, lo: int, hi: int)
    requires Framed(ref, pred, lo, hi)
    ensures Proper(ref) && Within(ref, lo, hi) && Proper(pred) && Within(pred, lo, hi)
  {}

  lemma {:induction false} SameTalk(ref: seq<Segment>, pred: seq<Segment>, q: Match, t: int)
    requires LeftTalk(ref, t)(q) == RightTalk(pred, t)(q)
    ensures Times(ref, q.left, t) > 0 <==> Times(pred, q.right, t) > 0
  {
    assert LeftTalk(ref, t)(q) == Talkers(ref, t)(q.left) == Talk(ref, q.left)(t);
    assert RightTalk(pred, t)(q) == Talkers(pred, t)(q.right) == Talk(pred, q.right)(t);
  }

  lemma {:induction false} EverySpeakerHeard(segs: seq<Segment>, names: seq<int>, lo: int, hi: int)
    requires Proper(segs) && Within(segs, lo, hi)
    requires forall t, i | lo <= t < hi && i in Active(segs, t) :: i in names
    ensures forall i | i in Speakers(segs) :: i in names
  {
    forall i | i in Speakers(segs) ensures i in names {
      var s :| s in segs && s.speaker == i;
      assert Covers(s, s.start) && i in Active(segs, s.start);
    }
  }

  lemma {:induction false} QuietOutside(segs: seq<Segment>, i: int, t: int, lo: int, hi: int)
    requires Within(segs, lo, hi) && !(lo <= t < hi)
    ensures Times(segs, i, t) == 0
  {
    ActiveIffCovered(segs, i, t);
  }

  lemma {:induction false} PairsRename(ref: seq<Segment>, pred: seq<Segment>, qs: seq<Match>)
    requires Matches(qs, Labels(ref), Labels(pred))
    requires forall i | i in Speakers(ref) :: i in Lefts(qs)
    requires forall j | j in Speakers(pred) :: j in Rights(qs)
    ensures Renaming(PairMap(Flip(qs)), ref, pred)
    ensures forall i | i in PairMap(Flip(qs)) :: Match(i, PairMap(Flip(qs))[i]) in qs
  {
    var rho := PairMap(Flip(qs));
    PairsAreMap(qs, Labels(ref), Labels(pred));
    assert forall i :: i in Labels(ref) <==> i in Speakers(ref);
    assert forall j :: j in Labels(pred) <==> j in Speakers(pred);
    hide *;
    forall i | i in Speakers(ref) ensures i in rho {
      var q := LeftMember(qs, i);
    }
    forall j | j in Speakers(pred) ensures exists i :: i in rho && rho[i] == j {
      var q := RightMember(qs, j);
      assert rho[q.left] == j;
    }
    IsRenamingOf(rho, ref, pred);
  }

  lemma {:induction false} LeftMember(qs: seq<Match>, i: int) returns (q: Match)
    requires i in Lefts(qs)
    ensures q in qs && q.left == i
  {
    var k :| 0 <= k < |qs| && Lefts(qs)[k] == i;
    q := qs[k];
  }

  lemma {:induction false} RightMember(qs: seq<Match>, j: int) returns (q: Match)
    requires j in Rights(qs)
    ensures q in qs && q.right == j
  {
    var k :| 0 <= k < |qs| && Rights(qs)[k] == j;
    q := qs[k];
  }

  lemma {:induction false} IsRenamingOf(rho: map<int, int>, ref: seq<Segment>, pred: seq<Segment>)
    requires forall i | i in Speakers(ref) :: i in rho
    requires forall i | i in rho :: i in Speakers(ref) && rho[i] in Speakers(pred)
    requires forall j | j in Speakers(pred) :: exists i :: i in rho && rho[i] == j
    requires forall i, k | i in rho && k in rho && rho[i] == rho[k] :: i == k
    ensures Renaming(rho, ref, pred)
  {
    SetsEqual(rho.Keys, Speakers(ref));
  }

  lemma {:induction false} SetsEqual(a: set<int>, b: set<int>)
    requires forall x | x in a :: x in b
    requires forall x | x in b :: x in a
    ensures a == b
  {
    forall x: int | x in a ensures x in b {}
    forall x: int | x in b ensures x in a {}
  }

  /** The flipped pair map is the matching as a one-to-one map from left to right. */
  lemma {:induction false} PairsAreMap(qs: seq<Match>, xs: seq<int>, ys: seq<int>)
    requires Matches(qs, xs, ys)
    ensures forall i | i in PairMap(Flip(qs)) ::
      Match(i, PairMap(Flip(qs))[i]) in qs && i in xs && PairMap(Flip(qs))[i] in ys
    ensures forall q | q in qs :: q.left in PairMap(Flip(qs)) && PairMap(Flip(qs))[q.left] == q.right
    ensures forall i, k | i in PairMap(Flip(qs)) && k in PairMap(Flip(qs)) && PairMap(Flip(qs))[i] == PairMap(Flip(qs))[k] :: i == k
  {
    var rho, back := PairMap(Flip(qs)), Flip(qs);
    FlipMatches(qs, xs, ys);
    DistinctSides(back, ys, xs);
    forall i | i in rho ensures Match(i, rho[i]) in qs { PairMapFrom(back, i); }
    forall q | q in qs ensures q.left in rho && rho[q.left] == q.right {
      assert Match(q.right, q.left) in back;
      PairMapAt(back, Match(q.right, q.left));
    }
    hide *;
    forall i, k | i in rho && k in rho && rho[i] == rho[k] ensures i == k {
      OneRight(qs, xs, ys, Match(i, rho[i]), Match(k, rho[k]));
    }
    forall i | i in rho ensures i in xs && rho[i] in ys { OneRight(qs, xs, ys, Match(i, rho[i]), Match(i, rho[i])); }
  }

  lemma {:induction false} OneRight(qs: seq<Match>, xs: seq<int>, ys: seq<int>, p: Match, q: Match)
    requires Matches(qs, xs, ys) && p in qs && q in qs
    ensures p.left in xs && p.right in ys && (p.right == q.right ==> p == q)
  {
    var a :| 0 <= a < |qs| && qs[a] == p;
    var b :| 0 <= b < |qs| && qs[b] == q;
    assert Lefts(qs)[a] == p.left && Rights(qs)[a] == p.right && Rights(qs)[b] == q.right;
  }

  /** Exactly when the error rate is zero, without collar, if one side has no self-overlap. */
  lemma {:induction false} ZeroIffSameSpeech(ref: seq<Segment>, pred: seq<Segment>, qs: seq<Match>, lo: int, hi: int)
    requires lo <= hi && Framed(ref, pred, lo, hi) && Best(ref, pred, qs)
    requires NoSelfOverlap(ref) || NoSelfOverlap(pred)
    ensures Tally(Trial(ref, pred, PairMap(qs), []), lo, hi).Errors() == 0 <==>
      exists rho :: SameSpeech(rho, ref, pred)
  {
    if Tally(Trial(ref, pred, PairMap(qs), []), lo, hi).Errors() == 0 {
      var rho := ZeroMeansSameSpeech(ref, pred, qs, lo, hi);
    }
    if rho :| SameSpeech(rho, ref, pred) {
      PerfectPredictionScoresZero(rho, ref, pred, qs, [], lo, hi);
    }
  }

  /** At a tick, paired speakers are heard together or not at all, and everyone heard is paired. */
  ghost predicate HeardInPairs(ref: seq<Segment>, pred: seq<Segment>, qs: seq<Match>, t: int) {
    && (forall q | q in qs :: Times(ref, q.left, t) > 0 <==> Times(pred, q.right, t) > 0)
    && (forall i | i in Active(ref, t) :: i in Lefts(qs))
    && (forall j | j in Active(pred, t) :: j in Rights(qs))
  }

  lemma {:induction false} NoErrorsIffInPairs(ref: seq<Segment>, pred: seq<Segment>, qs: seq<Match>, t: int)
    requires Distinct(Lefts(qs)) && Distinct(Rights(qs))
    ensures NoErrors(Trial(ref, pred, PairMap(qs), []), t) <==> HeardInPairs(ref, pred, qs, t)
  {
    if NoErrors(Trial(ref, pred, PairMap(qs), []), t) {
      NoErrorsMeans(ref, pred, qs, t);
      hide LeftTalk, RightTalk, NoErrors, Times, Active;
      forall q | q in qs ensures Times(ref, q.left, t) > 0 <==> Times(pred, q.right, t) > 0 { SameTalk(ref, pred, q, t); }
    }
    if HeardInPairs(ref, pred, qs, t) {
      var left, right := LeftTalk(ref, t), RightTalk(pred, t);
      forall q | q in qs ensures left(q) == right(q) == Together(ref, pred, t)(q) { PairTalk(ref, pred, q, t); }
      assert (forall i | i in Active(ref, t) :: i in Lefts(qs)) && (forall j | j in Active(pred, t) :: j in Rights(qs));
      hide *;
      SideBounds(ref, pred, qs, t);
      HitCount(ref, pred, qs, t);
      Congruent(left, right, qs);
      Congruent(Together(ref, pred, t), left, qs);
      EqualCounts(ref, pred, qs, [], t);
    }
  }

  lemma {:induction false} PairTalk(ref: seq<Segment>, pred: seq<Segment>, q: Match, t: int)
    requires Times(ref, q.left, t) > 0 <==> Times(pred, q.right, t) > 0
    ensures LeftTalk(ref, t)(q) == RightTalk(pred, t)(q) == Together(ref, pred, t)(q)
  {
    TalkBits(ref, pred, q, t);
  }

  lemma {:induction false} CollarHidesErrors(c: Trial, t: int)
    ensures NoErrors(c, t) <==> Inside(c.regions, t) || NoErrors(c.(regions := []), t)
  {
    assert !Inside([], t);
  }

  /** With any collar and any pairing of the speakers: there are no errors exactly when, at every
      tick outside the collar, paired speakers are heard together or not at all and everyone heard is
      paired. */
  lemma {:induction false} ZeroIffHeardInPairs(ref: seq<Segment>, pred: seq<Segment>, qs: seq<Match>,
                                               regions: seq<Interval>, lo: int, hi: int)
    requires lo <= hi && Matches(qs, Labels(ref), Labels(pred))
    ensures Tally(Trial(ref, pred, PairMap(qs), regions), lo, hi).Errors() == 0 <==>
      forall t | lo <= t < hi && !Inside(regions, t) :: HeardInPairs(ref, pred, qs, t)
  {
    hide *;
    var c := Trial(ref, pred, PairMap(qs), regions);
    DistinctSides(qs, Labels(ref), Labels(pred));
    forall t ensures NoErrors(c, t) <==> Inside(regions, t) || HeardInPairs(ref, pred, qs, t) {
      CollarHidesErrors(c, t);
      NoErrorsIffInPairs(ref, pred, qs, t);
    }
    if Tally(c, lo, hi).Errors() == 0 {
      ZeroSumMeansNoErrors(c, lo, hi);
    }
    if forall t | lo <= t < hi && !Inside(regions, t) :: HeardInPairs(ref, pred, qs, t) {
      NoErrorsAddUp(c, lo, hi);
    }
  }

  /** Between equally many speakers, a pairing has no errors without collar exactly when paired
      speakers are heard at the same ticks; nothing is asked about self-overlap. */
  lemma {:induction false} ZeroIffAgree(ref: seq<Segment>, pred: seq<Segment>, qs: seq<Match>, lo: int, hi: int)
    requires lo <= hi && Matches(qs, Labels(ref), Labels(pred)) && |Labels(ref)| == |Labels(pred)|
    ensures Tally(Trial(ref, pred, PairMap(qs), []), lo, hi).Errors() == 0 <==> Agree(ref, pred, qs, lo, hi)
  {
    hide *;
    var c := Trial(ref, pred, PairMap(qs), []);
    if Agree(ref, pred, qs, lo, hi) {
      forall t | lo <= t < hi ensures NoErrors(c, t) {
        AgreeTalks(ref, pred, qs, lo, hi, t);
        AgreeLeavesNone(ref, pred, qs, [], t);
      }
      NoErrorsAddUp(c, lo, hi);
    }
    if Tally(c, lo, hi).Errors() == 0 {
      DistinctSides(qs, Labels(ref), Labels(pred));
      ZeroSumMeansNoErrors(c, lo, hi);
      forall q, t | q in qs && lo <= t < hi ensures Times(ref, q.left, t) > 0 <==> Times(pred, q.right, t) > 0 {
        NoErrorsMeans(ref, pred, qs, t);
        SameTalk(ref, pred, q, t);
      }
      AgreeIf(ref, pred, qs, lo, hi);
    }
  }

  lemma {:induction false} AgreeIf(ref: seq<Segment>, pred: seq<Segment>, qs: seq<Match>, lo: int, hi: int)
    requires forall q, t | q in qs && lo <= t < hi :: Times(ref, q.left, t) > 0 <==> Times(pred, q.right, t) > 0
    ensures Agree(ref, pred, qs, lo, hi)
  {}

  /** For equal speech, with or without self-overlap: whatever optimum the solver returns has no
      errors, exactly when every full pairing of speakers that are not heard at the same ticks has
      less overlap than some other pairing. */
  lemma {:induction false} EveryOptimumZeroIff(rho: map<int, int>, ref: seq<Segment>, pred: seq<Segment>, lo: int, hi: int)
    requires lo <= hi && SameSpeech(rho, ref, pred)
    ensures (forall qs | Best(ref, pred, qs) :: Tally(Trial(ref, pred, PairMap(qs), []), lo, hi).Errors() == 0) <==>
      forall qs | Matches(qs, Labels(ref), Labels(pred)) && !Agree(ref, pred, qs, lo, hi) :: Beaten(ref, pred, qs)
  {
    SameSpeechRenames(rho, ref, pred);
    hide *;
    var follow := Followed(rho, ref, pred);
    forall qs | Matches(qs, Labels(ref), Labels(pred))
      ensures Tally(Trial(ref, pred, PairMap(qs), []), lo, hi).Errors() == 0 <==> Agree(ref, pred, qs, lo, hi)
      ensures Best(ref, pred, qs) <==> !Beaten(ref, pred, qs)
    {
      ZeroIffAgree(ref, pred, qs, lo, hi);
      BestIffUnbeaten(ref, pred, qs);
    }
    forall qs | Best(ref, pred, qs) ensures Matches(qs, Labels(ref), Labels(pred)) { BestMatches(ref, pred, qs); }
  }

  /** Some full pairing has more overlap. */
  ghost predicate Beaten(ref: seq<Segment>, pred: seq<Segment>, qs: seq<Match>) {
    exists other :: Matches(other, Labels(ref), Labels(pred)) &&
      Sum(OverlapOf(ref, pred), qs) < Sum(OverlapOf(ref, pred), other)
  }

  lemma {:induction false} BestIffUnbeaten(ref: seq<Segment>, pred: seq<Segment>, qs: seq<Match>)
    requires Matches(qs, Labels(ref), Labels(pred))
    ensures Best(ref, pred, qs) <==> !Beaten(ref, pred, qs)
  {
    hide Matches, Sum, OverlapOf, Labels;
  }

  lemma {:induction false} BestMatches(ref: seq<Segment>, pred: seq<Segment>, qs: seq<Match>)
    requires Best(ref, pred, qs)
    ensures Matches(qs, Labels(ref), Labels(pred))
  {}

  lemma {:induction false} SameSpeechRenames(rho: map<int, int>, ref: seq<Segment>, pred: seq<Segment>)
    requires SameSpeech(rho, ref, pred)
    ensures Renaming(rho, ref, pred)
  {}

  // ---------- conservation ----------

  function PredictedAt(c: Trial): int -> int { t => if Inside(c.regions, t) then 0 else |Active(c.pred, t)| }

  /** reference time + false alarm = predicted time + missed, with any collar and mapping */
  lemma {:induction false} TimeIsConserved(c: Trial, lo: int, hi: int)
    requires lo <= hi
    ensures Tally(c, lo, hi).total + Tally(c, lo, hi).falseAlarm ==
            Sum(PredictedAt(c), Range(lo, hi)) + Tally(c, lo, hi).missed
  {
    var both := t => TotalAt(c)(t) + FalseAlarmAt(c)(t);
    forall t ensures both(t) == PredictedAt(c)(t) + MissedAt(c)(t) {}
    hide TotalAt;
    hide FalseAlarmAt;
    hide MissedAt;
    hide PredictedAt;
    Linear(TotalAt(c), FalseAlarmAt(c), both, Range(lo, hi));
    Linear(PredictedAt(c), MissedAt(c), both, Range(lo, hi));
  }

  // ---------- what the four durations measure ----------

  /** The pairs of the mapping whose two speakers are both heard at t. */
  function PairsHeard(ref: seq<Segment>, pred: seq<Segment>, qs: seq<Match>, t: int): set<Match> {
    set q | q in qs && Times(ref, q.left, t) > 0 && Times(pred, q.right, t) > 0
  }

  lemma {:induction false} PairsHeardAreHits(ref: seq<Segment>, pred: seq<Segment>, qs: seq<Match>, t: int)
    requires Distinct(Lefts(qs)) && Distinct(Rights(qs))
    ensures |PairsHeard(ref, pred, qs, t)| == HitsOf(ref, pred, qs)(t)
  {
    HitCount(ref, pred, qs, t);
    assert Distinct(qs) by { DistinctPairs(qs); }
    forall q | q in qs ensures Together(ref, pred, t)(q) == if q in PairsHeard(ref, pred, qs, t) then 1 else 0 {
      assert Talk(ref, q.left)(t) == (if Times(ref, q.left, t) > 0 then 1 else 0);
      assert Talk(pred, q.right)(t) == (if Times(pred, q.right, t) > 0 then 1 else 0);
    }
    hide Together, Times, HitsOf;
    CountsMembers(PairsHeard(ref, pred, qs, t), Together(ref, pred, t), qs);
  }

  lemma {:induction false} DistinctPairs(qs: seq<Match>)
    requires Distinct(Lefts(qs))
    ensures Distinct(qs)
  {
    forall i, j | 0 <= i < j < |qs| ensures qs[i] != qs[j] { assert Lefts(qs)[i] != Lefts(qs)[j]; }
  }

  /** At one tick outside the collar: the speakers of the larger side less the pairs heard are in
      error, those of the smaller side less the pairs heard are confused. */
  lemma {:induction false} TickMeasured(ref: seq<Segment>, pred: seq<Segment>, qs: seq<Match>, regions: seq<Interval>, t: int)
    requires Distinct(Lefts(qs)) && Distinct(Rights(qs))
    ensures var c, r, p := Trial(ref, pred, PairMap(qs), regions), |Active(ref, t)|, |Active(pred, t)|;
      var n := |PairsHeard(ref, pred, qs, t)|;
      && TotalAt(c)(t) == (if Inside(regions, t) then 0 else r)
      && FalseAlarmAt(c)(t) + MissedAt(c)(t) + ConfusionAt(c)(t) ==
           (if Inside(regions, t) then 0 else if r >= p then r - n else p - n)
      && ConfusionAt(c)(t) == (if Inside(regions, t) then 0 else if r <= p then r - n else p - n)
  {
    HitBound(ref, pred, qs, t);
    PairsHeardAreHits(ref, pred, qs, t);
    hide Times, Active, PairMap;
  }

  /** Reference time, errors and confusion of a window, given as functions of the tick: outside the
      collar every tick counts its reference speakers, the larger side less the pairs heard, and the
      smaller side less the pairs heard. */
  lemma {:induction false} DurationsMeasured(ref: seq<Segment>, pred: seq<Segment>, qs: seq<Match>, regions: seq<Interval>,
                                             total: int -> int, errors: int -> int, confusion: int -> int, lo: int, hi: int)
    requires lo <= hi && Distinct(Lefts(qs)) && Distinct(Rights(qs))
    requires forall t :: total(t) == if Inside(regions, t) then 0 else |Active(ref, t)|
    requires forall t :: errors(t) == if Inside(regions, t) then 0
      else (if |Active(ref, t)| >= |Active(pred, t)| then |Active(ref, t)| else |Active(pred, t)|) - |PairsHeard(ref, pred, qs, t)|
    requires forall t :: confusion(t) == if Inside(regions, t) then 0
      else (if |Active(ref, t)| <= |Active(pred, t)| then |Active(ref, t)| else |Active(pred, t)|) - |PairsHeard(ref, pred, qs, t)|
    ensures var score := Tally(Trial(ref, pred, PairMap(qs), regions), lo, hi);
      && score.total == Sum(total, Range(lo, hi))
      && score.Errors() == Sum(errors, Range(lo, hi))
      && score.confusion == Sum(confusion, Range(lo, hi))
  {
    var c := Trial(ref, pred, PairMap(qs), regions);
    forall t ensures TotalAt(c)(t) == total(t) && ConfusionAt(c)(t) == confusion(t)
      ensures FalseAlarmAt(c)(t) + MissedAt(c)(t) + ConfusionAt(c)(t) == errors(t)
    {
      TickMeasured(ref, pred, qs, regions, t);
    }
    assert Tally(c, lo, hi).Errors() == Sum(FalseAlarmAt(c), Range(lo, hi)) + Sum(MissedAt(c), Range(lo, hi)) +
                                        Sum(ConfusionAt(c), Range(lo, hi));
    assert Tally(c, lo, hi).total == Sum(TotalAt(c), Range(lo, hi)) &&
           Tally(c, lo, hi).confusion == Sum(ConfusionAt(c), Range(lo, hi));
    hide *;
    ThreeSums(FalseAlarmAt(c), MissedAt(c), ConfusionAt(c), errors, Range(lo, hi));
    Congruent(TotalAt(c), total, Range(lo, hi));
    Congruent(ConfusionAt(c), confusion, Range(lo, hi));
  }

  lemma {:induction false} ThreeSums(f: int -> int, g: int -> int, h: int -> int, all: int -> int, xs: seq<int>)
    requires forall x :: all(x) == f(x) + g(x) + h(x)
    ensures Sum(all, xs) == Sum(f, xs) + Sum(g, xs) + Sum(h, xs)
  {
    var fg := x => f(x) + g(x);
    Linear(f, g, fg, xs);
    forall x ensures all(x) == fg(x) + h(x) { assert fg(x) == f(x) + g(x); }
    Linear(fg, h, all, xs);
  }

  /** False alarms and missed time, given as functions of the tick: the surplus of either side. */
  lemma {:induction false} SurplusMeasured(ref: seq<Segment>, pred: seq<Segment>, qs: seq<Match>, regions: seq<Interval>,
                                           surplus: int -> int, shortage: int -> int, lo: int, hi: int)
    requires lo <= hi
    requires forall t :: surplus(t) >= 0 && shortage(t) >= 0 && (surplus(t) == 0 || shortage(t) == 0)
    requires forall t :: surplus(t) - shortage(t) == if Inside(regions, t) then 0 else |Active(pred, t)| - |Active(ref, t)|
    ensures var score := Tally(Trial(ref, pred, PairMap(qs), regions), lo, hi);
      score.falseAlarm == Sum(surplus, Range(lo, hi)) && score.missed == Sum(shortage, Range(lo, hi))
  {
    var c := Trial(ref, pred, PairMap(qs), regions);
    forall t ensures FalseAlarmAt(c)(t) == surplus(t) && MissedAt(c)(t) == shortage(t) {
      assert surplus(t) - shortage(t) == if Inside(regions, t) then 0 else |Active(pred, t)| - |Active(ref, t)|;
    }
    assert Tally(c, lo, hi).falseAlarm == Sum(FalseAlarmAt(c), Range(lo, hi)) &&
           Tally(c, lo, hi).missed == Sum(MissedAt(c), Range(lo, hi));
    hide *;
    Congruent(FalseAlarmAt(c), surplus, Range(lo, hi));
    Congruent(MissedAt(c), shortage, Range(lo, hi));
  }

  /** An empty prediction misses everything and nothing else goes wrong: the rate is one. */
  lemma {:induction false} EmptyPrediction(ref: seq<Segment>, regions: seq<Interval>, lo: int, hi: int)
    requires lo <= hi
    ensures var score := Tally(Trial(ref, [], map[], regions), lo, hi);
      && score.missed == score.total && score.falseAlarm == score.confusion == 0
      && (score.total > 0 ==> score.Rate() == Some(1.0))
  {
    var c := Trial(ref, [], map[], regions);
    forall t ensures MissedAt(c)(t) == TotalAt(c)(t) && FalseAlarmAt(c)(t) == ConfusionAt(c)(t) == 0 {
      assert Active([], t) == {} && Hits(Active(ref, t), {}, map[]) == {};
    }
    var score := Tally(c, lo, hi);
    assert score == Score(Sum(TotalAt(c), Range(lo, hi)), Sum(FalseAlarmAt(c), Range(lo, hi)),
                          Sum(MissedAt(c), Range(lo, hi)), Sum(ConfusionAt(c), Range(lo, hi)));
    hide *;
    Congruent(MissedAt(c), TotalAt(c), Range(lo, hi));
    ConstantOn(FalseAlarmAt(c), 0, lo, hi);
    ConstantOn(ConfusionAt(c), 0, lo, hi);
    if score.total > 0 { WholeShare(score); }
  }

  lemma {:induction false} WholeShare(score: Score)
    requires score.total > 0 && score.falseAlarm + score.missed + score.confusion == score.total
    ensures score.Rate() == Some(1.0)
  {
    var time := score.total as real;
    assert score.Errors() == score.total && time / time == 1.0;
  }

  /** Against an empty reference all predicted time is false alarm, and there is no rate. */
  lemma {:induction false} EmptyReference(pred: seq<Segment>, regions: seq<Interval>, predicted: int -> int, lo: int, hi: int)
    requires lo <= hi && forall t :: predicted(t) == if Inside(regions, t) then 0 else |Active(pred, t)|
    ensures var score := Tally(Trial([], pred, map[], regions), lo, hi);
      && score.falseAlarm == Sum(predicted, Range(lo, hi))
      && score.missed == score.confusion == score.total == 0 && score.Rate() == None
  {
    var c := Trial([], pred, map[], regions);
    forall t ensures FalseAlarmAt(c)(t) == predicted(t) && MissedAt(c)(t) == ConfusionAt(c)(t) == TotalAt(c)(t) == 0 {
      assert Active([], t) == {} && Hits({}, Active(pred, t), map[]) == {};
    }
    var score := Tally(c, lo, hi);
    assert score == Score(Sum(TotalAt(c), Range(lo, hi)), Sum(FalseAlarmAt(c), Range(lo, hi)),
                          Sum(MissedAt(c), Range(lo, hi)), Sum(ConfusionAt(c), Range(lo, hi)));
    hide *;
    Congruent(FalseAlarmAt(c), predicted, Range(lo, hi));
    ConstantOn(MissedAt(c), 0, lo, hi);
    ConstantOn(ConfusionAt(c), 0, lo, hi);
    ConstantOn(TotalAt(c), 0, lo, hi);
    RateIsShare(score);
  }

  /** There is a rate exactly when there is reference time, and it is the share of errors in it. */
  lemma {:induction false} RateIsShare(score: Score)
    requires score.total >= 0
    ensures score.Rate().Some? <==> score.total != 0
    ensures score.total != 0 ==>
      score.Rate().value * score.total as real == (score.falseAlarm + score.missed + score.confusion) as real
  {}

  // ---------- the mapping of largest overlap minimises the error ----------

  function LesserAt(c: Trial): int -> int {
    t => var r, p := |Active(c.ref, t)|, |Active(c.pred, t)|; if r <= p then r else p
  }

  /** Confusion is what the hits leave of the smaller side. */
  lemma {:induction false} ConfusionAndHits(ref: seq<Segment>, pred: seq<Segment>, qs: seq<Match>, lo: int, hi: int)
    requires lo <= hi && Distinct(Lefts(qs)) && Distinct(Rights(qs))
    ensures var c := Trial(ref, pred, PairMap(qs), []);
      Sum(LesserAt(c), Range(lo, hi)) ==
      Tally(c, lo, hi).confusion + Sum(HitsOf(ref, pred, qs), Range(lo, hi))
  {
    var c := Trial(ref, pred, PairMap(qs), []);
    forall t ensures LesserAt(c)(t) == ConfusionAt(c)(t) + HitsOf(ref, pred, qs)(t) {
      HitBound(ref, pred, qs, t);
    }
    Linear(ConfusionAt(c), HitsOf(ref, pred, qs), LesserAt(c), Range(lo, hi));
  }

  function SharedBy(ref: seq<Segment>, pred: seq<Segment>): Match -> int -> int {
    (q: Match) => Shared(ref, pred, q.left, q.right)
  }

  function TogetherAt(ref: seq<Segment>, pred: seq<Segment>): int -> Match -> int {
    t => Together(ref, pred, t)
  }

  lemma {:induction false} SharedIsTogether(ref: seq<Segment>, pred: seq<Segment>, q: Match, t: int)
    requires NoSelfOverlap(ref) && NoSelfOverlap(pred)
    ensures SharedBy(ref, pred)(q)(t) == TogetherAt(ref, pred)(t)(q)
  {
    var m, n := Times(ref, q.left, t), Times(pred, q.right, t);
    hide Times;
    assert 0 <= m <= 1 && 0 <= n <= 1;
    assert Talk(ref, q.left)(t) == m && Talk(pred, q.right)(t) == n;
    assert SharedBy(ref, pred)(q)(t) == m * n;
    assert m * n == if m == 1 && n == 1 then 1 else 0;
  }

  /** Without self-overlap, the time of all hits is the overlap of the matching. */
  lemma {:induction false} HitsAreOverlap(ref: seq<Segment>, pred: seq<Segment>, qs: seq<Match>, lo: int, hi: int)
    requires lo <= hi && Framed(ref, pred, lo, hi) && NoSelfOverlap(ref) && NoSelfOverlap(pred)
    requires Distinct(Lefts(qs)) && Distinct(Rights(qs))
    ensures Sum(HitsOf(ref, pred, qs), Range(lo, hi)) == Sum(OverlapOf(ref, pred), qs)
  {
    forall q: Match, t { SharedIsTogether(ref, pred, q, t); }
    forall q: Match { OverlapIsShared(ref, pred, q.left, q.right, lo, hi); }
    forall t { HitCount(ref, pred, qs, t); }
    hide Overlap;
    hide Shared;
    hide Together;
    hide HitsOf;
    Swap(SharedBy(ref, pred), TogetherAt(ref, pred), OverlapOf(ref, pred), HitsOf(ref, pred, qs), qs, Range(lo, hi));
  }

  /** Only the confusion depends on the mapping. */
  lemma {:induction false} SameButConfusion(ref: seq<Segment>, pred: seq<Segment>, m: map<int, int>, n: map<int, int>,
                                            regions: seq<Interval>, lo: int, hi: int)
    requires lo <= hi
    ensures var a, b := Trial(ref, pred, m, regions), Trial(ref, pred, n, regions);
      && Tally(a, lo, hi).total == Tally(b, lo, hi).total
      && Tally(a, lo, hi).falseAlarm == Tally(b, lo, hi).falseAlarm
      && Tally(a, lo, hi).missed == Tally(b, lo, hi).missed
      && Sum(LesserAt(a), Range(lo, hi)) == Sum(LesserAt(b), Range(lo, hi))
  {
    var a, b := Trial(ref, pred, m, regions), Trial(ref, pred, n, regions);
    Congruent(TotalAt(a), TotalAt(b), Range(lo, hi));
    Congruent(FalseAlarmAt(a), FalseAlarmAt(b), Range(lo, hi));
    Congruent(MissedAt(a), MissedAt(b), Range(lo, hi));
    Congruent(LesserAt(a), LesserAt(b), Range(lo, hi));
  }

  /** Without collar and without self-overlap, the solver's mapping is optimal for the error rate
      itself: no other full pairing of the speakers has fewer errors. */
  lemma {:induction false} MappingMinimisesErrors(ref: seq<Segment>, pred: seq<Segment>, qs: seq<Match>, other: seq<Match>,
                                                  lo: int, hi: int)
    requires lo <= hi && Framed(ref, pred, lo, hi) && NoSelfOverlap(ref) && NoSelfOverlap(pred)
    requires Best(ref, pred, qs) && Matches(other, Labels(ref), Labels(pred))
    ensures Tally(Trial(ref, pred, PairMap(qs), []), lo, hi).Errors() <=
            Tally(Trial(ref, pred, PairMap(other), []), lo, hi).Errors()
  {
    BestBeats(ref, pred, qs, other);
    hide Best;
    hide Framed;
    hide Tally;
    hide Labels;
    hide LesserAt;
    hide HitsOf;
    hide NoSelfOverlap;
    ConfusionAndHits(ref, pred, qs, lo, hi);
    ConfusionAndHits(ref, pred, other, lo, hi);
    HitsAreOverlap(ref, pred, qs, lo, hi);
    HitsAreOverlap(ref, pred, other, lo, hi);
    SameButConfusion(ref, pred, PairMap(qs), PairMap(other), [], lo, hi);
  }
}
