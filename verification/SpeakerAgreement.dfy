/** Every matching of largest overlap pairs speakers who talk at the same time, provided the
prediction is a renamed copy of the reference or one side has no self-overlap. */
module SpeakerAgreement {
  import opened Sums
  import opened Segments
  import opened Assignment
  import opened SpeakerMapping

  /** Non-negative terms over pairs and ticks whose grand total is at most zero all vanish. */
  lemma {:induction false} GrandTotalZero(E: Match -> int -> int, e: Match -> int, qs: seq<Match>, lo: int, hi: int)
    requires lo <= hi
    requires forall q, t | q in qs && lo <= t < hi :: E(q)(t) >= 0
    requires forall q | q in qs :: e(q) == Sum(E(q), Range(lo, hi))
    requires Sum(e, qs) <= 0
    ensures forall q, t | q in qs && lo <= t < hi :: E(q)(t) == 0
  {
    forall q | q in qs ensures e(q) >= 0 { NonNegative(E(q), Range(lo, hi)); }
    AllZero(e, qs);
    forall q, t | q in qs && lo <= t < hi ensures E(q)(t) == 0 {
      AllZero(E(q), Range(lo, hi));
    }
  }

  // ---------- renaming speakers ----------

  /** rho is a one-to-one renaming of the reference speakers onto the predicted ones. */
  ghost predicate Renaming(rho: map<int, int>, ref: seq<Segment>, pred: seq<Segment>) {
    && rho.Keys == Speakers(ref)
    && (forall j :: j in Speakers(pred) <==> exists i :: i in rho && rho[i] == j)
    && (forall i, k | i in rho && k in rho && rho[i] == rho[k] :: i == k)
  }

  function Relabel(segs: seq<Segment>, rho: map<int, int>): (r: seq<Segment>)
    requires forall s | s in segs :: s.speaker in rho
    ensures |r| == |segs|
    ensures forall k | 0 <= k < |r| :: r[k] == segs[k].(speaker := rho[segs[k].speaker])
  {
    seq(|segs|, k requires 0 <= k < |segs| => segs[k].(speaker := rho[segs[k].speaker]))
  }

  /** The same segments under other names, in any order. */
  ghost predicate RenamedCopy(rho: map<int, int>, ref: seq<Segment>, pred: seq<Segment>) {
    && rho.Keys == Speakers(ref)
    && (forall i, k | i in rho && k in rho && rho[i] == rho[k] :: i == k)
    && multiset(pred) == multiset(Relabel(ref, rho))
  }

  /** Every speaker is covered equally often at every tick. */
  ghost predicate SameTimes(rho: map<int, int>, ref: seq<Segment>, pred: seq<Segment>) {
    && Renaming(rho, ref, pred)
    && forall i, t | i in rho :: Times(pred, rho[i], t) == Times(ref, i, t)
  }

  /** The same speech under other names, however it is cut into segments. */
  ghost predicate SameSpeech(rho: map<int, int>, ref: seq<Segment>, pred: seq<Segment>) {
    && Renaming(rho, ref, pred)
    && forall i, t | i in rho :: Times(pred, rho[i], t) > 0 <==> Times(ref, i, t) > 0
  }

  /** The matching that follows the renaming. */
  lemma {:induction false} Followed(rho: map<int, int>, ref: seq<Segment>, pred: seq<Segment>) returns (qs: seq<Match>)
    requires Renaming(rho, ref, pred)
    ensures Matches(qs, Labels(ref), Labels(pred))
    ensures |Labels(ref)| == |Labels(pred)|
    ensures forall q | q in qs :: q.left in rho && q.right == rho[q.left]
  {
    var rl, pl := Labels(ref), Labels(pred);
    qs := seq(|rl|, k requires 0 <= k < |rl| => Match(rl[k], if rl[k] in rho then rho[rl[k]] else 0));
    assert forall k | 0 <= k < |rl| :: rl[k] in rl && rl[k] in rho;
    forall y | y in pl ensures y in Rights(qs) {
      var i :| i in rho && rho[i] == y;
      assert i in rl;
      var k :| 0 <= k < |rl| && rl[k] == i;
      assert Rights(qs)[k] == y;
    }
    if |rl| > |pl| { Fills(Rights(qs), pl); }
    if |pl| > |rl| { Fills(pl, Rights(qs)); }
  }

  function CoversAt(i: int, t: int): Segment -> int {
    (s: Segment) => if s.speaker == i && Covers(s, t) then 1 else 0
  }

  lemma {:induction false} TimesIsSum(segs: seq<Segment>, i: int, t: int)
    ensures Times(segs, i, t) == Sum(CoversAt(i, t), segs)
  {
    if segs != [] { TimesIsSum(segs[..|segs| - 1], i, t); }
  }

  lemma {:induction false} CopyIsRenaming(rho: map<int, int>, ref: seq<Segment>, pred: seq<Segment>)
    requires RenamedCopy(rho, ref, pred)
    ensures Renaming(rho, ref, pred)
  {
    var copy := Relabel(ref, rho);
    assert forall s :: s in pred <==> s in multiset(pred);
    assert forall s :: s in copy <==> s in multiset(copy);
    forall j ensures j in Speakers(pred) <==> exists i :: i in rho && rho[i] == j {
      if j in Speakers(pred) {
        var s :| s in pred && s.speaker == j;
        var k :| 0 <= k < |copy| && copy[k] == s;
        assert ref[k].speaker in rho;
      }
      if i :| i in rho && rho[i] == j {
        var s :| s in ref && s.speaker == i;
        var k :| 0 <= k < |ref| && ref[k] == s;
        assert copy[k] in multiset(copy);
      }
    }
  }

  lemma {:induction false} CopyHasSameTimes(rho: map<int, int>, ref: seq<Segment>, pred: seq<Segment>)
    requires RenamedCopy(rho, ref, pred)
    ensures SameTimes(rho, ref, pred)
  {
    CopyIsRenaming(rho, ref, pred);
    var copy := Relabel(ref, rho);
    assert forall k | 0 <= k < |ref| :: ref[k] in ref && ref[k].speaker in rho;
    forall i, t | i in rho ensures Times(pred, rho[i], t) == Times(ref, i, t) {
      TimesIsSum(pred, rho[i], t);
      TimesIsSum(ref, i, t);
      Permuted(CoversAt(rho[i], t), pred, copy);
      Mapped(CoversAt(rho[i], t), CoversAt(i, t), 1, copy, ref);
    }
  }

  // ---------- every optimal matching pairs speakers with the same activity ----------

  /** Paired speakers are heard at the same ticks. */
  ghost predicate Agree(ref: seq<Segment>, pred: seq<Segment>, qs: seq<Match>, lo: int, hi: int) {
    forall q, t | q in qs && lo <= t < hi :: Times(ref, q.left, t) > 0 <==> Times(pred, q.right, t) > 0
  }

  function Norm(segs: seq<Segment>, lo: int, hi: int): int -> int
    requires lo <= hi
  { i => Sum(Shared(segs, segs, i, i), Range(lo, hi)) }

  /** Squared difference of the multiplicities of a pair, tick by tick. */
  function SquaredGap(ref: seq<Segment>, pred: seq<Segment>): Match -> int -> int {
    (q: Match) => (t: int) =>
      (Times(ref, q.left, t) - Times(pred, q.right, t)) * (Times(ref, q.left, t) - Times(pred, q.right, t))
  }

  function TotalGap(ref: seq<Segment>, pred: seq<Segment>, lo: int, hi: int): Match -> int
    requires lo <= hi
  { (q: Match) => Sum(SquaredGap(ref, pred)(q), Range(lo, hi)) }

  lemma {:induction false} Square(m: int, n: int)
    ensures (m - n) * (m - n) == m * m + n * n + -2 * (m * n)
    ensures (m - n) * (m - n) >= 0
    ensures (m - n) * (m - n) == 0 ==> m == n
  {}

  lemma {:induction false} GapSign(ref: seq<Segment>, pred: seq<Segment>, q: Match, t: int)
    ensures SquaredGap(ref, pred)(q)(t) >= 0
    ensures SquaredGap(ref, pred)(q)(t) == 0 ==> Times(ref, q.left, t) == Times(pred, q.right, t)
    ensures SquaredGap(ref, pred)(q)(t) ==
      Shared(ref, ref, q.left, q.left)(t) + Shared(pred, pred, q.right, q.right)(t) + -2 * Shared(ref, pred, q.left, q.right)(t)
  {
    Square(Times(ref, q.left, t), Times(pred, q.right, t));
  }

  /** |a - b|^2 = |a|^2 + |b|^2 - 2 <a, b>, summed over the window. */
  lemma {:induction false} GapExpands(ref: seq<Segment>, pred: seq<Segment>, q: Match, lo: int, hi: int)
    requires lo <= hi && Framed(ref, pred, lo, hi)
    ensures TotalGap(ref, pred, lo, hi)(q) ==
            Norm(ref, lo, hi)(q.left) + Norm(pred, lo, hi)(q.right) - 2 * OverlapOf(ref, pred)(q)
  {
    var i, j := q.left, q.right;
    var w := Range(lo, hi);
    OverlapIsShared(ref, pred, i, j, lo, hi);
    forall t { GapSign(ref, pred, q, t); }
    hide SquaredGap;
    hide Overlap;
    hide Shared;
    var both := t => Shared(ref, ref, i, i)(t) + Shared(pred, pred, j, j)(t);
    var cross := t => -2 * Shared(ref, pred, i, j)(t);
    Linear(Shared(ref, ref, i, i), Shared(pred, pred, j, j), both, w);
    Scaled(Shared(ref, pred, i, j), cross, -2, w);
    Linear(both, cross, SquaredGap(ref, pred)(q), w);
  }

  /** Following a renaming, overlap, left norm and right norm coincide. */
  lemma {:induction false} FollowedNorms(rho: map<int, int>, ref: seq<Segment>, pred: seq<Segment>, q: Match, lo: int, hi: int)
    requires lo <= hi && Framed(ref, pred, lo, hi)
    requires SameTimes(rho, ref, pred) && q.left in rho && q.right == rho[q.left]
    ensures OverlapOf(ref, pred)(q) == Norm(ref, lo, hi)(q.left) == Norm(pred, lo, hi)(q.right)
  {
    OverlapIsShared(ref, pred, q.left, q.right, lo, hi);
    Congruent(Shared(ref, pred, q.left, q.right), Shared(ref, ref, q.left, q.left), Range(lo, hi));
    Congruent(Shared(pred, pred, q.right, q.right), Shared(ref, ref, q.left, q.left), Range(lo, hi));
  }

  /** The squared gaps of any full matching, in terms of norms and overlap. */
  lemma {:induction false} GapsOfMatching(ref: seq<Segment>, pred: seq<Segment>, qs: seq<Match>, lo: int, hi: int)
    requires lo <= hi && Framed(ref, pred, lo, hi)
    requires Matches(qs, Labels(ref), Labels(pred)) && |Labels(ref)| == |Labels(pred)|
    ensures Sum(TotalGap(ref, pred, lo, hi), qs) ==
            Sum(Norm(ref, lo, hi), Labels(ref)) + Sum(Norm(pred, lo, hi), Labels(pred)) - 2 * Sum(OverlapOf(ref, pred), qs)
  {
    hide *;
    var O, A, B := OverlapOf(ref, pred), Norm(ref, lo, hi), Norm(pred, lo, hi);
    var left, right := (q: Match) => A(q.left), (q: Match) => B(q.right);
    var norms, twice := (q: Match) => left(q) + right(q), (q: Match) => -2 * O(q);
    forall q | q in qs ensures TotalGap(ref, pred, lo, hi)(q) == norms(q) + twice(q) {
      GapExpands(ref, pred, q, lo, hi);
    }
    LeftSum(left, A, qs, Labels(ref), Labels(pred));
    RightSum(right, B, qs, Labels(ref), Labels(pred));
    Linear(left, right, norms, qs);
    Scaled(O, twice, -2, qs);
    Linear(norms, twice, TotalGap(ref, pred, lo, hi), qs);
  }

  lemma {:induction false} BestBeats(ref: seq<Segment>, pred: seq<Segment>, qs: seq<Match>, other: seq<Match>)
    requires Best(ref, pred, qs) && Matches(other, Labels(ref), Labels(pred))
    ensures Matches(qs, Labels(ref), Labels(pred))
    ensures Sum(OverlapOf(ref, pred), other) <= Sum(OverlapOf(ref, pred), qs)
  {}

  /** Gram matrix argument: against a renamed copy, any matching of largest overlap pairs
      speakers with equal multiplicities at every tick. */
  lemma {:induction false} BestOfCopyIsEqual(rho: map<int, int>, ref: seq<Segment>, pred: seq<Segment>, qs: seq<Match>, lo: int, hi: int)
    requires lo <= hi && Framed(ref, pred, lo, hi)
    requires Renaming(rho, ref, pred) && SameTimes(rho, ref, pred) && Best(ref, pred, qs)
    ensures forall q, t | q in qs && lo <= t < hi :: Times(ref, q.left, t) == Times(pred, q.right, t)
  {
    hide *;
    var rl, pl := Labels(ref), Labels(pred);
    var follow := Followed(rho, ref, pred);
    forall q | q in follow { FollowedNorms(rho, ref, pred, q, lo, hi); }
    LeftSum(OverlapOf(ref, pred), Norm(ref, lo, hi), follow, rl, pl);
    RightSum(OverlapOf(ref, pred), Norm(pred, lo, hi), follow, rl, pl);
    BestBeats(ref, pred, qs, follow);
    GapsOfMatching(ref, pred, qs, lo, hi);
    GapsAddUp(ref, pred, qs, lo, hi);
    forall q, t | q in qs && lo <= t < hi ensures Times(ref, q.left, t) == Times(pred, q.right, t) {
      GapSign(ref, pred, q, t);
    }
  }

  lemma {:induction false} GapsAddUp(ref: seq<Segment>, pred: seq<Segment>, qs: seq<Match>, lo: int, hi: int)
    requires lo <= hi && Sum(TotalGap(ref, pred, lo, hi), qs) <= 0
    ensures forall q, t | q in qs && lo <= t < hi :: SquaredGap(ref, pred)(q)(t) == 0
  {
    forall q, t { GapSign(ref, pred, q, t); }
    hide SquaredGap;
    GrandTotalZero(SquaredGap(ref, pred), TotalGap(ref, pred, lo, hi), qs, lo, hi);
  }

  // ---------- the same speech, cut differently ----------

  function Talk(segs: seq<Segment>, i: int): int -> int { t => if Times(segs, i, t) > 0 then 1 else 0 }

  function TalkTime(segs: seq<Segment>, lo: int, hi: int): int -> int
    requires lo <= hi
  { i => Sum(Talk(segs, i), Range(lo, hi)) }

  function SegmentTime(segs: seq<Segment>, lo: int, hi: int): int -> int
    requires lo <= hi
  { i => Sum(t => Times(segs, i, t), Range(lo, hi)) }

  /** Predicted speech of a pair that falls outside the reference speaker's. */
  function Stray(ref: seq<Segment>, pred: seq<Segment>): Match -> int -> int {
    (q: Match) => (t: int) => Times(pred, q.right, t) - Shared(ref, pred, q.left, q.right)(t)
  }

  function TotalStray(ref: seq<Segment>, pred: seq<Segment>, lo: int, hi: int): Match -> int
    requires lo <= hi
  { (q: Match) => Sum(Stray(ref, pred)(q), Range(lo, hi)) }

  lemma {:induction false} StrayAt(ref: seq<Segment>, pred: seq<Segment>, q: Match, t: int)
    requires NoSelfOverlap(ref)
    ensures Stray(ref, pred)(q)(t) == if Times(ref, q.left, t) == 0 then Times(pred, q.right, t) else 0
  {
    var m, n := Times(ref, q.left, t), Times(pred, q.right, t);
    hide Times;
    assert 0 <= m <= 1;
    assert Shared(ref, pred, q.left, q.right)(t) == m * n;
    assert m * n == if m == 0 then 0 else n;
  }

  lemma {:induction false} StraySign(ref: seq<Segment>, pred: seq<Segment>, q: Match, t: int)
    requires NoSelfOverlap(ref)
    ensures Stray(ref, pred)(q)(t) >= 0
    ensures Stray(ref, pred)(q)(t) == 0 ==> Talk(pred, q.right)(t) <= Talk(ref, q.left)(t)
  {
    StrayAt(ref, pred, q, t);
  }

  lemma {:induction false} StrayExpands(ref: seq<Segment>, pred: seq<Segment>, q: Match, lo: int, hi: int)
    requires lo <= hi && Framed(ref, pred, lo, hi)
    ensures SegmentTime(pred, lo, hi)(q.right) == TotalStray(ref, pred, lo, hi)(q) + OverlapOf(ref, pred)(q)
  {
    OverlapIsShared(ref, pred, q.left, q.right, lo, hi);
    Linear(Stray(ref, pred)(q), Shared(ref, pred, q.left, q.right), t => Times(pred, q.right, t), Range(lo, hi));
  }

  lemma {:induction false} StraysOfMatching(ref: seq<Segment>, pred: seq<Segment>, qs: seq<Match>, lo: int, hi: int)
    requires lo <= hi && Framed(ref, pred, lo, hi)
    requires Matches(qs, Labels(ref), Labels(pred)) && |Labels(ref)| == |Labels(pred)|
    ensures Sum(SegmentTime(pred, lo, hi), Labels(pred)) ==
            Sum(TotalStray(ref, pred, lo, hi), qs) + Sum(OverlapOf(ref, pred), qs)
  {
    hide *;
    var right := (q: Match) => SegmentTime(pred, lo, hi)(q.right);
    forall q | q in qs { StrayExpands(ref, pred, q, lo, hi); }
    RightSum(right, SegmentTime(pred, lo, hi), qs, Labels(ref), Labels(pred));
    Linear(TotalStray(ref, pred, lo, hi), OverlapOf(ref, pred), right, qs);
  }

  /** Following a renaming of a reference without self-overlap, nothing strays. */
  lemma {:induction false} FollowedStray(rho: map<int, int>, ref: seq<Segment>, pred: seq<Segment>, q: Match, lo: int, hi: int)
    requires lo <= hi && Framed(ref, pred, lo, hi)
    requires NoSelfOverlap(ref) && SameSpeech(rho, ref, pred) && q.left in rho && q.right == rho[q.left]
    ensures TotalStray(ref, pred, lo, hi)(q) == 0
    ensures TalkTime(ref, lo, hi)(q.left) == TalkTime(pred, lo, hi)(q.right)
  {
    forall t ensures Stray(ref, pred)(q)(t) == 0 {
      StrayAt(ref, pred, q, t);
    }
    Constant(Stray(ref, pred)(q), 0, Range(lo, hi));
    Congruent(Talk(ref, q.left), Talk(pred, q.right), Range(lo, hi));
  }

  /** In a matching of largest overlap each predicted speaker stays inside the reference speaker. */
  lemma {:induction false} BestHasNoStray(rho: map<int, int>, ref: seq<Segment>, pred: seq<Segment>, qs: seq<Match>, lo: int, hi: int)
    requires lo <= hi && Framed(ref, pred, lo, hi)
    requires NoSelfOverlap(ref) && Renaming(rho, ref, pred) && SameSpeech(rho, ref, pred) && Best(ref, pred, qs)
    ensures forall q, t | q in qs && lo <= t < hi :: Talk(pred, q.right)(t) <= Talk(ref, q.left)(t)
    ensures Sum(TalkTime(ref, lo, hi), Labels(ref)) == Sum(TalkTime(pred, lo, hi), Labels(pred))
  {
    hide *;
    var rl, pl := Labels(ref), Labels(pred);
    var follow := Followed(rho, ref, pred);
    forall q | q in follow { FollowedStray(rho, ref, pred, q, lo, hi); }
    var left := (q: Match) => TalkTime(ref, lo, hi)(q.left);
    LeftSum(left, TalkTime(ref, lo, hi), follow, rl, pl);
    RightSum(left, TalkTime(pred, lo, hi), follow, rl, pl);
    Constant(TotalStray(ref, pred, lo, hi), 0, follow);
    BestBeats(ref, pred, qs, follow);
    StraysOfMatching(ref, pred, follow, lo, hi);
    StraysOfMatching(ref, pred, qs, lo, hi);
    StraysAddUp(ref, pred, qs, lo, hi);
    forall q, t | q in qs && lo <= t < hi ensures Talk(pred, q.right)(t) <= Talk(ref, q.left)(t) {
      StraySign(ref, pred, q, t);
    }
  }

  lemma {:induction false} StraysAddUp(ref: seq<Segment>, pred: seq<Segment>, qs: seq<Match>, lo: int, hi: int)
    requires lo <= hi && NoSelfOverlap(ref) && Sum(TotalStray(ref, pred, lo, hi), qs) <= 0
    ensures forall q, t | q in qs && lo <= t < hi :: Stray(ref, pred)(q)(t) == 0
  {
    forall q, t { StraySign(ref, pred, q, t); }
    hide Stray;
    GrandTotalZero(Stray(ref, pred), TotalStray(ref, pred, lo, hi), qs, lo, hi);
  }

  /** Reference speech of a pair that the predicted speaker misses. */
  function Silence(ref: seq<Segment>, pred: seq<Segment>): Match -> int -> int {
    (q: Match) => (t: int) => Talk(ref, q.left)(t) - Talk(pred, q.right)(t)
  }

  function TotalSilence(ref: seq<Segment>, pred: seq<Segment>, lo: int, hi: int): Match -> int
    requires lo <= hi
  { (q: Match) => Sum(Silence(ref, pred)(q), Range(lo, hi)) }

  lemma {:induction false} SilenceExpands(ref: seq<Segment>, pred: seq<Segment>, q: Match, lo: int, hi: int)
    requires lo <= hi
    ensures TalkTime(ref, lo, hi)(q.left) == TalkTime(pred, lo, hi)(q.right) + TotalSilence(ref, pred, lo, hi)(q)
  {
    Linear(Talk(pred, q.right), Silence(ref, pred)(q), Talk(ref, q.left), Range(lo, hi));
  }

  lemma {:induction false} SilenceSign(ref: seq<Segment>, pred: seq<Segment>, q: Match, t: int)
    ensures Talk(pred, q.right)(t) <= Talk(ref, q.left)(t) ==> Silence(ref, pred)(q)(t) >= 0
    ensures Silence(ref, pred)(q)(t) == 0 ==> (Times(ref, q.left, t) > 0 <==> Times(pred, q.right, t) > 0)
  {}

  /** If every predicted speaker stays inside their reference speaker and both sides talk equally
      long in all, the pairs talk at exactly the same ticks. */
  lemma {:induction false} NoStrayNoSilence(ref: seq<Segment>, pred: seq<Segment>, qs: seq<Match>, lo: int, hi: int)
    requires lo <= hi
    requires Matches(qs, Labels(ref), Labels(pred)) && |Labels(ref)| == |Labels(pred)|
    requires forall q, t | q in qs && lo <= t < hi :: Talk(pred, q.right)(t) <= Talk(ref, q.left)(t)
    requires Sum(TalkTime(ref, lo, hi), Labels(ref)) == Sum(TalkTime(pred, lo, hi), Labels(pred))
    ensures forall q, t | q in qs && lo <= t < hi :: Times(ref, q.left, t) > 0 <==> Times(pred, q.right, t) > 0
  {
    hide *;
    var left, right := (q: Match) => TalkTime(ref, lo, hi)(q.left), (q: Match) => TalkTime(pred, lo, hi)(q.right);
    forall q | q in qs { SilenceExpands(ref, pred, q, lo, hi); }
    LeftSum(left, TalkTime(ref, lo, hi), qs, Labels(ref), Labels(pred));
    RightSum(right, TalkTime(pred, lo, hi), qs, Labels(ref), Labels(pred));
    Linear(right, TotalSilence(ref, pred, lo, hi), left, qs);
    SilenceAddsUp(ref, pred, qs, lo, hi);
    forall q, t | q in qs && lo <= t < hi
      ensures Times(ref, q.left, t) > 0 <==> Times(pred, q.right, t) > 0
    {
      SilenceSign(ref, pred, q, t);
    }
  }

  lemma {:induction false} SilenceAddsUp(ref: seq<Segment>, pred: seq<Segment>, qs: seq<Match>, lo: int, hi: int)
    requires lo <= hi
    requires forall q, t | q in qs && lo <= t < hi :: Talk(pred, q.right)(t) <= Talk(ref, q.left)(t)
    requires Sum(TotalSilence(ref, pred, lo, hi), qs) <= 0
    ensures forall q, t | q in qs && lo <= t < hi :: Silence(ref, pred)(q)(t) == 0
  {
    forall q, t | q in qs && lo <= t < hi { SilenceSign(ref, pred, q, t); }
    hide Silence;
    hide Talk;
    GrandTotalZero(Silence(ref, pred), TotalSilence(ref, pred, lo, hi), qs, lo, hi);
  }

  lemma {:induction false} BestOfSpeechIsEqual(rho: map<int, int>, ref: seq<Segment>, pred: seq<Segment>, qs: seq<Match>, lo: int, hi: int)
    requires lo <= hi && Framed(ref, pred, lo, hi)
    requires NoSelfOverlap(ref) && Renaming(rho, ref, pred) && SameSpeech(rho, ref, pred) && Best(ref, pred, qs)
    ensures forall q, t | q in qs && lo <= t < hi :: Times(ref, q.left, t) > 0 <==> Times(pred, q.right, t) > 0
  {
    hide *;
    BestHasNoStray(rho, ref, pred, qs, lo, hi);
    var follow := Followed(rho, ref, pred);
    BestBeats(ref, pred, qs, follow);
    NoStrayNoSilence(ref, pred, qs, lo, hi);
  }

  // ---------- the main result, for either side ----------

  lemma {:induction false} OverlapSymmetric(ref: seq<Segment>, pred: seq<Segment>, i: int, j: int, lo: int, hi: int)
    requires lo <= hi && Framed(ref, pred, lo, hi)
    ensures Overlap(ref, pred, i, j) == Overlap(pred, ref, j, i)
  {
    OverlapIsShared(ref, pred, i, j, lo, hi);
    OverlapIsShared(pred, ref, j, i, lo, hi);
    Congruent(Shared(ref, pred, i, j), Shared(pred, ref, j, i), Range(lo, hi));
  }

  /** Swapping the two transcripts flips the best matchings. */
  lemma {:induction false} BestFlips(ref: seq<Segment>, pred: seq<Segment>, qs: seq<Match>, lo: int, hi: int)
    requires lo <= hi && Framed(ref, pred, lo, hi)
    requires Best(ref, pred, qs)
    ensures Best(pred, ref, Flip(qs))
  {
    FlipMatches(qs, Labels(ref), Labels(pred));
    FlippedSum(ref, pred, qs, lo, hi);
    forall other | Matches(other, Labels(pred), Labels(ref))
      ensures Sum(OverlapOf(pred, ref), other) <= Sum(OverlapOf(pred, ref), Flip(qs))
    {
      FlipMatches(other, Labels(pred), Labels(ref));
      FlippedSum(pred, ref, other, lo, hi);
    }
  }

  lemma {:induction false} FlippedSum(ref: seq<Segment>, pred: seq<Segment>, qs: seq<Match>, lo: int, hi: int)
    requires lo <= hi && Framed(ref, pred, lo, hi)
    ensures Sum(OverlapOf(pred, ref), Flip(qs)) == Sum(OverlapOf(ref, pred), qs)
  {
    forall k | 0 <= k < |qs| { OverlapSymmetric(ref, pred, qs[k].left, qs[k].right, lo, hi); }
    Mapped(OverlapOf(pred, ref), OverlapOf(ref, pred), 1, Flip(qs), qs);
  }

  lemma {:induction false} InverseRenaming(rho: map<int, int>, ref: seq<Segment>, pred: seq<Segment>) returns (inv: map<int, int>)
    requires SameSpeech(rho, ref, pred)
    ensures SameSpeech(inv, pred, ref)
  {
    inv := map j | j in Speakers(pred) :: var i :| i in rho && rho[i] == j; i;
    assert forall j | j in inv :: inv[j] in rho && rho[inv[j]] == j;
    assert forall i | i in rho :: rho[i] in inv && inv[rho[i]] == i;
  }

  /** For every optimum of the solver: paired speakers are heard at the same ticks whenever the
      prediction is a renamed copy of the reference, or says the same under other names and one
      of the two transcripts never overlaps a speaker with themselves. */
  lemma {:induction false} BestAgrees(rho: map<int, int>, ref: seq<Segment>, pred: seq<Segment>, qs: seq<Match>, lo: int, hi: int)
    requires lo <= hi && Framed(ref, pred, lo, hi)
    requires Best(ref, pred, qs)
    requires SameTimes(rho, ref, pred) ||
      (SameSpeech(rho, ref, pred) && (NoSelfOverlap(ref) || NoSelfOverlap(pred)))
    ensures Agree(ref, pred, qs, lo, hi)
  {
    hide *;
    IsRenaming(rho, ref, pred);
    if SameTimes(rho, ref, pred) {
      BestOfCopyIsEqual(rho, ref, pred, qs, lo, hi);
      EqualAgree(ref, pred, qs, lo, hi);
    } else if NoSelfOverlap(ref) {
      BestOfSpeechIsEqual(rho, ref, pred, qs, lo, hi);
      EqualAgree(ref, pred, qs, lo, hi);
    } else {
      var inv := InverseRenaming(rho, ref, pred);
      IsRenaming(inv, pred, ref);
      BestFlips(ref, pred, qs, lo, hi);
      FramedFlips(ref, pred, qs, lo, hi);
      BestOfSpeechIsEqual(inv, pred, ref, Flip(qs), lo, hi);
      EqualAgree(pred, ref, Flip(qs), lo, hi);
      AgreeFlips(ref, pred, qs, lo, hi);
    }
  }

  lemma {:induction false} IsRenaming(rho: map<int, int>, ref: seq<Segment>, pred: seq<Segment>)
    requires SameTimes(rho, ref, pred) || SameSpeech(rho, ref, pred)
    ensures Renaming(rho, ref, pred)
  {}

  lemma {:induction false} FramedFlips(ref: seq<Segment>, pred: seq<Segment>, qs: seq<Match>, lo: int, hi: int)
    requires lo <= hi && Framed(ref, pred, lo, hi) && Best(ref, pred, qs)
    ensures Framed(pred, ref, lo, hi) && Matches(qs, Labels(ref), Labels(pred))
  {}

  lemma {:induction false} EqualAgree(ref: seq<Segment>, pred: seq<Segment>, qs: seq<Match>, lo: int, hi: int)
    requires forall q, t | q in qs && lo <= t < hi :: Times(ref, q.left, t) > 0 <==> Times(pred, q.right, t) > 0
    ensures Agree(ref, pred, qs, lo, hi)
  {}

  lemma {:induction false} AgreeFlips(ref: seq<Segment>, pred: seq<Segment>, qs: seq<Match>, lo: int, hi: int)
    requires Matches(qs, Labels(ref), Labels(pred)) && Agree(pred, ref, Flip(qs), lo, hi)
    ensures Agree(ref, pred, qs, lo, hi)
  {
    FlipMatches(qs, Labels(ref), Labels(pred));
    forall q, t | q in qs && lo <= t < hi
      ensures Times(ref, q.left, t) > 0 <==> Times(pred, q.right, t) > 0
    {
      assert Match(q.right, q.left) in Flip(qs);
    }
  }
}
