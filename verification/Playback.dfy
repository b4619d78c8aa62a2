/** Client-side playback continuity: how long the player falls silent while it waits for a chunk.

Times are exact reals, in seconds. */
module Playback {
  import opened Wrappers

  function Later(x: real, y: real): real { if x >= y then x else y }

  /** The moment the sound of chunks 0..k runs out. */
  function Deadline(arrivals: seq<real>, durations: seq<real>, k: nat): real
    requires k < |arrivals| == |durations|
  {
    if k == 0 then arrivals[0] + durations[0]
    else Later(Deadline(arrivals, durations, k - 1), arrivals[k]) + durations[k]
  }

  /** The silence just before chunk k. */
  function Underrun(arrivals: seq<real>, durations: seq<real>, k: nat): real
    requires 0 < k < |arrivals| == |durations|
  { Later(0.0, arrivals[k] - Deadline(arrivals, durations, k - 1)) }

  /** v is the longest silence before any of the chunks 1..k, or zero. */
  ghost predicate Longest(v: real, arrivals: seq<real>, durations: seq<real>, k: nat)
    requires k <= |arrivals| == |durations|
  {
    && v >= 0.0 && (forall i | 0 < i < k :: Underrun(arrivals, durations, i) <= v)
    && (v == 0.0 || exists i :: 0 < i < k && v == Underrun(arrivals, durations, i))
  }

  datatype Outcome = LengthMismatch | TooFewChunks | NegativeDuration | Silence(seconds: real)

  method ComputeMaxPlaybackUnderrun(arrivals: seq<real>, durations: seq<real>) returns (result: Outcome)
    ensures result == LengthMismatch <==> |arrivals| != |durations|
    ensures result == TooFewChunks <==> |arrivals| == |durations| < 2
    ensures result == NegativeDuration <==>
      |arrivals| == |durations| >= 2 && exists k :: 0 <= k < |durations| && durations[k] < 0.0
    ensures result.Silence? ==> Longest(result.seconds, arrivals, durations, |arrivals|)
  {
    if |arrivals| != |durations| {
      return LengthMismatch;
    }
    if |arrivals| < 2 {
      return TooFewChunks;
    }
    if exists k :: 0 <= k < |durations| && durations[k] < 0.0 {
      return NegativeDuration;
    }
    var deadline, longest := arrivals[0] + durations[0], 0.0;
    for k := 1 to |arrivals|
      invariant deadline == Deadline(arrivals, durations, k - 1)
      invariant Longest(longest, arrivals, durations, k)
    {
      var underrun := Later(0.0, arrivals[k] - deadline);
      assert underrun == Underrun(arrivals, durations, k);
      if underrun > longest {
        longest := underrun;
      }
      deadline := Later(deadline, arrivals[k]) + durations[k];
    }
    result := Silence(longest);
  }

  /** The reported silence is determined by the chunks. */
  lemma {:induction false} LongestIsUnique(v: real, w: real, arrivals: seq<real>, durations: seq<real>)
    requires |arrivals| == |durations|
    requires Longest(v, arrivals, durations, |arrivals|) && Longest(w, arrivals, durations, |arrivals|)
    ensures v == w
  {}

  // ---------- what a deadline is ----------

  /** The playing time of chunks i..k-1. */
  function Playing(durations: seq<real>, i: nat, k: nat): real
    requires i <= k <= |durations|
  { if i == k then 0.0 else Playing(durations, i, k - 1) + durations[k - 1] }

  /** The deadline is the latest of: wait for chunk j, then play everything from j on. */
  lemma {:induction false} DeadlineIsLatestFinish(arrivals: seq<real>, durations: seq<real>, k: nat)
    requires k < |arrivals| == |durations|
    ensures forall j | 0 <= j <= k :: arrivals[j] + Playing(durations, j, k + 1) <= Deadline(arrivals, durations, k)
    ensures exists j :: 0 <= j <= k && arrivals[j] + Playing(durations, j, k + 1) == Deadline(arrivals, durations, k)
  {
    if k > 0 {
      DeadlineIsLatestFinish(arrivals, durations, k - 1);
      var j :| 0 <= j <= k - 1 && arrivals[j] + Playing(durations, j, k) == Deadline(arrivals, durations, k - 1);
      var latest := if arrivals[k] > Deadline(arrivals, durations, k - 1) then k else j;
      assert Playing(durations, latest, k + 1) == Playing(durations, latest, k) + durations[k];
      assert arrivals[latest] + Playing(durations, latest, k + 1) == Deadline(arrivals, durations, k);
    } else {
      assert Playing(durations, 0, 1) == Playing(durations, 0, 0) + durations[0];
    }
  }

  // ---------- the silences add up ----------

  /** All silences before chunks 1..k-1. */
  function TotalSilence(arrivals: seq<real>, durations: seq<real>, k: nat): real
    requires 0 < k <= |arrivals| == |durations|
  { if k == 1 then 0.0 else TotalSilence(arrivals, durations, k - 1) + Underrun(arrivals, durations, k - 1) }

  /** Between the first arrival and the last deadline there is only sound and silence. */
  lemma {:induction false} SoundAndSilence(arrivals: seq<real>, durations: seq<real>, k: nat)
    requires 0 < k <= |arrivals| == |durations|
    ensures Deadline(arrivals, durations, k - 1) ==
            arrivals[0] + Playing(durations, 0, k) + TotalSilence(arrivals, durations, k)
  {
    if k == 1 {
      assert Playing(durations, 0, 1) == Playing(durations, 0, 0) + durations[0];
    } else {
      SoundAndSilence(arrivals, durations, k - 1);
    }
  }

  /** Started this much after the first arrival, playback never waits for a chunk. */
  ghost predicate Gapless(delay: real, arrivals: seq<real>, durations: seq<real>, k: nat)
    requires 0 < k <= |arrivals| == |durations|
  { forall i | 0 <= i < k :: arrivals[i] <= arrivals[0] + delay + Playing(durations, 0, i) }

  /** The total silence is the least start-up delay that would have made playback gapless. */
  lemma {:induction false} SilenceIsLeastDelay(delay: real, arrivals: seq<real>, durations: seq<real>, k: nat)
    requires 0 < k <= |arrivals| == |durations|
    ensures Gapless(delay, arrivals, durations, k) <==> delay >= TotalSilence(arrivals, durations, k)
  {
    if k == 1 {
      assert Playing(durations, 0, 0) == 0.0;
    } else {
      SilenceIsLeastDelay(delay, arrivals, durations, k - 1);
      SoundAndSilence(arrivals, durations, k - 1);
      assert Gapless(delay, arrivals, durations, k) <==>
        Gapless(delay, arrivals, durations, k - 1) &&
        arrivals[k - 1] <= arrivals[0] + delay + Playing(durations, 0, k - 1);
    }
  }

  /** The longest silence lies between the mean and the total of the silences; it is zero exactly
      when playback is gapless with no delay at all. */
  lemma {:induction false} LongestAgainstTotal(v: real, arrivals: seq<real>, durations: seq<real>, k: nat)
    requires 0 < k <= |arrivals| == |durations| && Longest(v, arrivals, durations, k)
    ensures v <= TotalSilence(arrivals, durations, k) <= v * (k - 1) as real
    ensures v == 0.0 <==> Gapless(0.0, arrivals, durations, k)
  {
    TotalAtMost(v, arrivals, durations, k);
    TotalAtLeast(arrivals, durations, k);
    SilenceIsLeastDelay(0.0, arrivals, durations, k);
  }

  lemma {:induction false} TotalAtMost(v: real, arrivals: seq<real>, durations: seq<real>, k: nat)
    requires 0 < k <= |arrivals| == |durations|
    requires forall i | 0 < i < k :: Underrun(arrivals, durations, i) <= v
    ensures TotalSilence(arrivals, durations, k) <= v * (k - 1) as real
  {
    if k > 1 {
      TotalAtMost(v, arrivals, durations, k - 1);
      assert v * (k - 1) as real == v * (k - 2) as real + v;
    }
  }

  lemma {:induction false} TotalAtLeast(arrivals: seq<real>, durations: seq<real>, k: nat)
    requires 0 < k <= |arrivals| == |durations|
    ensures TotalSilence(arrivals, durations, k) >= 0.0
    ensures forall i | 0 < i < k :: Underrun(arrivals, durations, i) <= TotalSilence(arrivals, durations, k)
  {
    if k > 1 { TotalAtLeast(arrivals, durations, k - 1); }
  }

  // ---------- the clock does not matter ----------

  function Shifted(times: seq<real>, offset: real): (r: seq<real>)
    ensures |r| == |times| && forall k | 0 <= k < |r| :: r[k] == times[k] + offset
  { seq(|times|, k requires 0 <= k < |times| => times[k] + offset) }

  lemma {:induction false} ShiftedDeadline(arrivals: seq<real>, durations: seq<real>, offset: real, k: nat)
    requires k < |arrivals| == |durations|
    ensures Deadline(Shifted(arrivals, offset), durations, k) == Deadline(arrivals, durations, k) + offset
  {
    if k > 0 { ShiftedDeadline(arrivals, durations, offset, k - 1); }
  }

  /** Reading the clock from another origin reports the same silence. */
  lemma {:induction false} ClockOriginIsIrrelevant(v: real, arrivals: seq<real>, durations: seq<real>, offset: real)
    requires |arrivals| == |durations|
    ensures Longest(v, Shifted(arrivals, offset), durations, |arrivals|) <==> Longest(v, arrivals, durations, |arrivals|)
  {
    forall k | 0 < k < |arrivals|
      ensures Underrun(Shifted(arrivals, offset), durations, k) == Underrun(arrivals, durations, k)
    { ShiftedDeadline(arrivals, durations, offset, k - 1); }
  }

  // ---------- pass rates ----------

  datatype Rate = BadThreshold | NothingScored | Rate(passed: nat, scored: nat)

  function Scored(values: seq<Option<real>>): nat {
    if values == [] then 0 else Scored(values[..|values| - 1]) + if values[|values| - 1].Some? then 1 else 0
  }

  function Passed(values: seq<Option<real>>, threshold: real): nat {
    if values == [] then 0 else
      var last := values[|values| - 1];
      Passed(values[..|values| - 1], threshold) + if last.Some? && last.value <= threshold then 1 else 0
  }

  /** The share is kept as the fraction passed / scored. */
  function ContinuityPassRate(values: seq<Option<real>>, threshold: real): Rate {
    if threshold < 0.0 then BadThreshold
    else if Scored(values) == 0 then NothingScored
    else Rate(Passed(values, threshold), Scored(values))
  }

  lemma {:induction false} PassCounts(values: seq<Option<real>>, tight: real, loose: real)
    requires tight <= loose
    ensures Passed(values, tight) <= Passed(values, loose) <= Scored(values)
    ensures Passed(values, loose) == Scored(values) <==>
      forall k | 0 <= k < |values| && values[k].Some? :: values[k].value <= loose
    ensures Passed(values, tight) == Passed(values, loose) <==>
      forall k | 0 <= k < |values| && values[k].Some? && values[k].value <= loose :: values[k].value <= tight
  {
    if values != [] {
      var front := values[..|values| - 1];
      PassCounts(front, tight, loose);
      assert forall k | 0 <= k < |front| :: front[k] == values[k];
    }
  }

  lemma {:induction false} SomethingScored(values: seq<Option<real>>)
    ensures Scored(values) == 0 <==> forall k | 0 <= k < |values| :: values[k].None?
  {
    if values != [] {
      var front := values[..|values| - 1];
      SomethingScored(front);
      assert forall k | 0 <= k < |front| :: front[k] == values[k];
    }
  }

  /** The rate as a number. */
  function Value(rate: Rate): real
    requires rate.Rate? && rate.scored > 0
  { rate.passed as real / rate.scored as real }

  /** There is a rate exactly for a threshold that is not negative and some scored request.  A looser
      threshold never lowers it; it is at most one, and one exactly when every scored request stays
      within the threshold. */
  lemma {:induction false} PassRateIsMonotone(values: seq<Option<real>>, tight: real, loose: real)
    requires tight <= loose
    ensures ContinuityPassRate(values, tight).Rate? <==>
      tight >= 0.0 && exists k :: 0 <= k < |values| && values[k].Some?
    ensures ContinuityPassRate(values, tight).Rate? ==>
      var low, high := ContinuityPassRate(values, tight), ContinuityPassRate(values, loose);
      && high.Rate? && low.scored > 0 && high.scored > 0
      && 0.0 <= Value(low) <= Value(high) <= 1.0
      && (Value(high) == 1.0 <==> forall k | 0 <= k < |values| && values[k].Some? :: values[k].value <= loose)
      && (Value(low) == Value(high) <==>
            forall k | 0 <= k < |values| && values[k].Some? && values[k].value <= loose :: values[k].value <= tight)
  {
    PassCounts(values, tight, loose);
    SomethingScored(values);
    var p, q, n := Passed(values, tight), Passed(values, loose), Scored(values);
    hide Passed, Scored;
    if n > 0 { Shares(p, q, n); }
  }

  lemma {:induction false} Shares(p: nat, q: nat, n: nat)
    requires n > 0 && p <= q <= n
    ensures 0.0 <= p as real / n as real <= q as real / n as real <= 1.0
    ensures q as real / n as real == 1.0 <==> q == n
    ensures p as real / n as real == q as real / n as real <==> p == q
  {
    var x, y, r := p as real / n as real, q as real / n as real, n as real;
    assert x * r == p as real && y * r == q as real;
  }

  lemma {:induction false} ScoredCount(values: seq<Option<real>>)
    ensures Scored(values) == |set k | 0 <= k < |values| && values[k].Some?|
  {
    var all := set k | 0 <= k < |values| && values[k].Some?;
    if values == [] {
      assert all == {};
    } else {
      var front, last := values[..|values| - 1], |values| - 1;
      ScoredCount(front);
      var before := set k | 0 <= k < |front| && front[k].Some?;
      hide Scored;
      assert all == before + if values[last].Some? then {last} else {};
    }
  }

  lemma {:induction false} PassedCount(values: seq<Option<real>>, threshold: real)
    ensures Passed(values, threshold) == |set k | 0 <= k < |values| && values[k].Some? && values[k].value <= threshold|
  {
    var all := set k | 0 <= k < |values| && values[k].Some? && values[k].value <= threshold;
    if values == [] {
      assert all == {};
    } else {
      var front, last := values[..|values| - 1], |values| - 1;
      PassedCount(front, threshold);
      var before := set k | 0 <= k < |front| && front[k].Some? && front[k].value <= threshold;
      var one := if values[last].Some? && values[last].value <= threshold then {last} else {};
      assert Passed(values, threshold) == |before| + |one|;
      hide Passed;
      assert all == before + one;
    }
  }

  /** The counts behind the rate: the requests with a value, and those whose value is within the
      threshold. */
  lemma {:induction false} RateCounts(values: seq<Option<real>>, threshold: real)
    ensures ContinuityPassRate(values, threshold).Rate? ==>
      var rate := ContinuityPassRate(values, threshold);
      && rate.scored == |set k | 0 <= k < |values| && values[k].Some?|
      && rate.passed == |set k | 0 <= k < |values| && values[k].Some? && values[k].value <= threshold|
  {
    ScoredCount(values);
    PassedCount(values, threshold);
  }
}
