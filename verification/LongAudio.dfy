/** One long recording out of several clips: the first is cut at a segment boundary and padded with
silence so that the whole meets a target length; the others follow entire, separated by gaps.

Seconds are exact reals, except in the reference text, where times are whole hundredths; samples
are counted in whole numbers. */
module LongAudio {
  import opened Wrappers
  import SegmentText

  /** A clip: its waveform, its sample rate and its reference text. */
  datatype Clip = Clip(samples: seq<real>, rate: int, text: seq<SegmentText.Token>)

  /** The ends of the reference segments, in hundredths of a second. */
  function Ends(clip: Clip): seq<int> { Project((g: SegmentText.Group) => g.end, SegmentText.Groups(clip.text)) }

  /** The merger only accepts references that name a speaker above 0. */
  predicate Speaks(clip: Clip) { SegmentText.MaxSpeaker(SegmentText.Groups(clip.text)) != 0 }

  function Seconds(hundredths: int): real { hundredths as real / 100.0 }

  /** A time printed with two decimals. */
  function Hundredths(seconds: real): int { (seconds * 100.0 + 0.5).Floor }

  datatype Outcome =
    | RateMismatch | NoRoom | FillerTooShort | NoBoundary | NegativeGap | NoSegments
    | Built(audio: seq<real>, offsets: seq<real>, cut: int, reference: seq<SegmentText.Token>)

  /** int() on a float drops the fraction. */
  function Trunc(x: real): int { if x >= 0.0 then x.Floor else -(-x).Floor }

  /** A time in samples, and in whole samples. */
  function AtRate(seconds: real, rate: int): real { seconds * rate as real }

  function Ticks(seconds: real, rate: int): int { Trunc(AtRate(seconds, rate)) }

  /** What so many gaps lose to whole samples. */
  function Drift(gaps: int, gap: real, rate: int): real {
    gaps as real * (AtRate(gap, rate) - Ticks(gap, rate) as real)
  }

  function Zeros(n: nat): (r: seq<real>)
    ensures |r| == n && forall k | 0 <= k < n :: r[k] == 0.0
  { seq(n, _ => 0.0) }

  /** All samples of the clips. */
  function Samples(clips: seq<Clip>): nat {
    if clips == [] then 0 else Samples(clips[..|clips| - 1]) + |clips[|clips| - 1].samples|
  }

  function InSeconds(n: int, rate: int): real
    requires rate > 0
  { n as real / rate as real }

  /** The time left for the first clip. */
  function FillerSeconds(clips: seq<Clip>, target: real, gap: real): real
    requires clips != [] && clips[0].rate > 0
  { target - InSeconds(Samples(clips[1..]), clips[0].rate) - gap * (|clips| - 1) as real }

  ghost predicate IsBoundary(cut: int, ends: seq<int>, limit: real) {
    cut in ends && Seconds(cut) <= limit && forall e | e in ends && Seconds(e) <= limit :: e <= cut
  }

  ghost predicate HasBoundary(ends: seq<int>, limit: real) { exists e :: e in ends && Seconds(e) <= limit }

  method FillerCutBoundary(ends: seq<int>, limit: real) returns (found: bool, cut: int)
    ensures found <==> HasBoundary(ends, limit)
    ensures found ==> IsBoundary(cut, ends, limit)
  {
    found, cut := false, 0;
    for k := 0 to |ends|
      invariant !found ==> forall e | e in ends[..k] :: Seconds(e) > limit
      invariant found ==> IsBoundary(cut, ends[..k], limit)
    {
      assert ends[..k + 1] == ends[..k] + [ends[k]];
      if Seconds(ends[k]) <= limit && (!found || ends[k] > cut) {
        found, cut := true, ends[k];
      }
    }
    assert ends[..|ends|] == ends;
  }

  /** Clip k stands whole at its start after a stretch of silence, and its recorded offset runs
      ahead of that start by less than one sample for each gap before it. */
  ghost predicate Placed(audio: seq<real>, start: int, offset: real, k: nat, clip: Clip, rate: int, quiet: int) {
    && 0 <= quiet <= start && start + |clip.samples| <= |audio|
    && (forall j | start - quiet <= j < start :: audio[j] == 0.0)
    && audio[start..start + |clip.samples|] == clip.samples
    && start as real <= AtRate(offset, rate)
    && AtRate(offset, rate) < start as real + k as real
  }

  /** The first clip up to the cut, and silence up to its share of the target. */
  ghost predicate FillerCut(audio: seq<real>, clip: Clip, cut: int, filler: real) {
    var kept, share := Ticks(Seconds(cut), clip.rate), Ticks(filler, clip.rate);
    && 0 <= kept <= share <= |audio| && kept <= |clip.samples|
    && audio[..kept] == clip.samples[..kept] && (forall k | kept <= k < share :: audio[k] == 0.0)
    && forall e | e in Ends(clip) && 0 <= e <= cut :: Ticks(Seconds(e), clip.rate) <= kept
  }

  /** The length reaches the target up to less than one sample for each clip. */
  ghost predicate Meets(length: nat, target: real, rate: int, clips: nat) {
    length as real <= AtRate(target, rate) < (length + clips) as real
  }

  /** What the merger is given: every reference with its recorded offset, the first one cut. */
  function MergeClips(clips: seq<Clip>, offsets: seq<real>, cut: int): (r: seq<SegmentText.Clip>)
    requires |offsets| == |clips|
    ensures |r| == |clips|
    ensures forall k | 0 <= k < |r| ::
      r[k] == SegmentText.Clip(clips[k].text, Hundredths(offsets[k]), if k == 0 then Some(cut) else None)
  {
    seq(|clips|, k requires 0 <= k < |clips| =>
      SegmentText.Clip(clips[k].text, Hundredths(offsets[k]), if k == 0 then Some(cut) else None))
  }

  lemma {:induction false} AllSpeakIff(clips: seq<Clip>, offsets: seq<real>, cut: int)
    requires |offsets| == |clips|
    ensures SegmentText.AllSpeak(MergeClips(clips, offsets, cut)) <==> forall c | c in clips :: Speaks(c)
  {
    var texts := MergeClips(clips, offsets, cut);
    forall k | 0 <= k < |clips|
      ensures SegmentText.MaxSpeaker(SegmentText.Groups(texts[k].text)) != 0 <==> Speaks(clips[k])
    {}
  }

  /** The first clip is long enough and can be cut within its share. */
  ghost predicate Fits(clips: seq<Clip>, filler: real)
    requires clips != [] && clips[0].rate > 0
  {
    0.0 < filler <= InSeconds(|clips[0].samples|, clips[0].rate) && HasBoundary(Ends(clips[0]), filler)
  }

  // ---------- the same in terms of the reference segments ----------

  /** The cut is the end of a reference segment within the time left, and none within it ends later. */
  ghost predicate CutAtSegmentEnd(clip: Clip, cut: int, filler: real) {
    && (exists g :: g in SegmentText.Groups(clip.text) && g.end == cut)
    && cut as real / 100.0 <= filler
    && forall g | g in SegmentText.Groups(clip.text) && g.end as real / 100.0 <= filler :: g.end <= cut
  }

  /** Of the audio, a stretch is taken from the clip that reaches the end, to the sample, of every
      reference segment up to the cut; the rest of the clip's share is silence. */
  ghost predicate HoldsKeptSegments(audio: seq<real>, clip: Clip, cut: int, filler: real) {
    exists kept: nat ::
      && kept <= |audio| && kept <= |clip.samples| && audio[..kept] == clip.samples[..kept]
      && (forall g | g in SegmentText.Groups(clip.text) && 0 <= g.end <= cut ::
            g.end as real / 100.0 * clip.rate as real < kept as real + 1.0)
      && kept as real <= cut as real / 100.0 * clip.rate as real
      && forall k | kept <= k < |audio| && k as real <= filler * clip.rate as real - 1.0 :: audio[k] == 0.0
  }

  lemma {:induction false} EndsAreSegmentEnds(clip: Clip, e: int)
    ensures e in Ends(clip) <==> exists g :: g in SegmentText.Groups(clip.text) && g.end == e
  {
    var gs := SegmentText.Groups(clip.text);
    if e in Ends(clip) {
      var k :| 0 <= k < |gs| && Ends(clip)[k] == e;
      assert gs[k] in gs && gs[k].end == e;
    }
    if g :| g in gs && g.end == e {
      var k :| 0 <= k < |gs| && gs[k] == g;
      assert Ends(clip)[k] == e;
    }
  }

  ghost predicate NoSegmentFits(clip: Clip, filler: real) {
    forall g | g in SegmentText.Groups(clip.text) :: g.end as real / 100.0 > filler
  }

  lemma {:induction false} BoundaryIsSegmentEnd(clip: Clip, cut: int, filler: real)
    ensures HasBoundary(Ends(clip), filler) <==> !NoSegmentFits(clip, filler)
    ensures IsBoundary(cut, Ends(clip), filler) ==> CutAtSegmentEnd(clip, cut, filler)
  {
    var gs, ends := SegmentText.Groups(clip.text), Ends(clip);
    forall g | g in gs ensures g.end in ends && Seconds(g.end) == g.end as real / 100.0 { EndsAreSegmentEnds(clip, g.end); }
    if HasBoundary(ends, filler) {
      var e :| e in ends && Seconds(e) <= filler;
      EndsAreSegmentEnds(clip, e);
    }
    if IsBoundary(cut, ends, filler) {
      EndsAreSegmentEnds(clip, cut);
    }
  }

  lemma {:induction false} CutHoldsSegments(audio: seq<real>, clip: Clip, cut: int, filler: real)
    requires clip.rate > 0 && 0 <= cut && filler >= 0.0 && FillerCut(audio, clip, cut, filler)
    ensures HoldsKeptSegments(audio, clip, cut, filler)
  {
    var kept, share := Ticks(Seconds(cut), clip.rate), Ticks(filler, clip.rate);
    TicksBounds(Seconds(cut), clip.rate);
    TicksBounds(filler, clip.rate);
    forall g | g in SegmentText.Groups(clip.text) && 0 <= g.end <= cut
      ensures g.end as real / 100.0 * clip.rate as real < kept as real + 1.0
    {
      EndsAreSegmentEnds(clip, g.end);
      TicksBounds(Seconds(g.end), clip.rate);
      assert AtRate(Seconds(g.end), clip.rate) == g.end as real / 100.0 * clip.rate as real;
    }
    assert AtRate(Seconds(cut), clip.rate) == cut as real / 100.0 * clip.rate as real;
    assert AtRate(filler, clip.rate) == filler * clip.rate as real;
  }

  method BuildLongAudioConcat(clips: seq<Clip>, target: real, gap: real) returns (outcome: Outcome, ghost starts: seq<int>)
    requires clips != [] && (forall c | c in clips :: c.rate > 0) && forall g | g in SegmentText.Groups(clips[0].text) :: g.end >= 0
    ensures outcome.RateMismatch? <==> exists c :: c in clips && c.rate != clips[0].rate
    ensures !outcome.RateMismatch? ==>
      var rate, filler := clips[0].rate, FillerSeconds(clips, target, gap);
      && (outcome.NoRoom? <==> filler <= 0.0)
      && (outcome.FillerTooShort? <==> filler > 0.0 && filler > InSeconds(|clips[0].samples|, rate))
      && (outcome.NoBoundary? <==> 0.0 < filler <= InSeconds(|clips[0].samples|, rate) && !HasBoundary(Ends(clips[0]), filler))
      && (outcome.NegativeGap? <==> Fits(clips, filler) && Ticks(gap, rate) < 0)
      && (outcome.NoSegments? <==> Fits(clips, filler) && Ticks(gap, rate) >= 0 && exists c :: c in clips && !Speaks(c))
      && (outcome.Built? <==> Fits(clips, filler) && Ticks(gap, rate) >= 0 && forall c | c in clips :: Speaks(c))
      && (outcome.NoBoundary? <==> 0.0 < filler <= InSeconds(|clips[0].samples|, rate) && NoSegmentFits(clips[0], filler))
      && (outcome.Built? ==> CutAtSegmentEnd(clips[0], outcome.cut, filler))
      && (outcome.Built? && gap >= 0.0 ==> HoldsKeptSegments(outcome.audio, clips[0], outcome.cut, filler))
      && (outcome.Built? ==>
            && |outcome.offsets| == |clips|
            && outcome.reference ==
                 SegmentText.PrintAll(SegmentText.AllGroups(MergeClips(clips, outcome.offsets, outcome.cut))))
      && (outcome.Built? && gap >= 0.0 ==>
            && IsBoundary(outcome.cut, Ends(clips[0]), filler) && FillerCut(outcome.audio, clips[0], outcome.cut, filler)
            && Meets(|outcome.audio|, target, rate, |clips|)
            && |starts| == |outcome.offsets| == |clips| && starts[0] == 0 && outcome.offsets[0] == 0.0
            && forall k | 0 < k < |clips| ::
                 Placed(outcome.audio, starts[k], outcome.offsets[k], k, clips[k], rate, Ticks(gap, rate)))
  {
    starts := [];
    if exists c :: c in clips && c.rate != clips[0].rate {
      return RateMismatch, starts;
    }
    var rate, filler := clips[0].rate, FillerSeconds(clips, target, gap);
    if filler <= 0.0 {
      return NoRoom, starts;
    }
    if filler > InSeconds(|clips[0].samples|, rate) {
      return FillerTooShort, starts;
    }
    var found, cut := FillerCutBoundary(Ends(clips[0]), filler);
    BoundaryIsSegmentEnd(clips[0], cut, filler);
    if !found {
      return NoBoundary, starts;
    }
    CutFits(clips[0], cut, filler);
    hide Ticks, InSeconds, FillerSeconds, Seconds, Ends, Speaks, HoldsKeptSegments;
    var kept := clips[0].samples[..Ticks(Seconds(cut), rate)];
    var first := kept + Zeros(Ticks(filler, rate) - |kept|);
    if Ticks(gap, rate) < 0 {
      return NegativeGap, starts;
    }
    assert FillerCut(first, clips[0], cut, filler);
    var audio: seq<real>, offsets: seq<real>;
    audio, offsets, starts := AppendClips(first, clips, gap);
    var merged := SegmentText.MergeConcatReferences(MergeClips(clips, offsets, cut));
    AllSpeakIff(clips, offsets, cut);
    if merged.NoSegments? {
      return NoSegments, starts;
    }
    outcome := Built(audio, offsets, cut, merged.tokens);
    if gap >= 0.0 {
      hide Placed, Samples;
      assert forall k | 0 <= k < |first| :: audio[..|first|][k] == first[k];
      assert FillerCut(audio, clips[0], cut, filler) by { LongerKeepsCut(audio, first, clips[0], cut, filler); }
      CutHoldsSegments(audio, clips[0], cut, filler);
      MeetsTarget(clips, target, gap, |audio|);
    }
  }

  /** The loop that lays out the clips and records their offsets. */
  method AppendClips(first: seq<real>, clips: seq<Clip>, gap: real)
    returns (audio: seq<real>, offsets: seq<real>, ghost starts: seq<int>)
    requires clips != [] && clips[0].rate > 0 && Ticks(gap, clips[0].rate) >= 0
    ensures |audio| == |first| + (|clips| - 1) * Ticks(gap, clips[0].rate) + Samples(clips[1..])
    ensures |first| <= |audio| && audio[..|first|] == first
    ensures |starts| == |offsets| == |clips| && starts[0] == 0 && offsets[0] == 0.0
    ensures gap >= 0.0 ==> forall k | 0 < k < |clips| ::
      Placed(audio, starts[k], offsets[k], k, clips[k], clips[0].rate, Ticks(gap, clips[0].rate))
  {
    var rate := clips[0].rate;
    var silence := Zeros(Ticks(gap, rate));
    audio, offsets, starts := first, [0.0], [0];
    var cursor := InSeconds(|first|, rate);
    LaidFirst(first, clips, gap, rate);
    hide *;
    for k := 1 to |clips|
      invariant Laid(audio, offsets, starts, cursor, first, clips, gap, rate, k)
    {
      LayNext(audio, offsets, starts, cursor, first, clips, gap, rate, k, silence);
      audio := audio + silence;
      starts := starts + [|audio|];
      cursor := cursor + gap;
      offsets := offsets + [cursor];
      audio := audio + clips[k].samples;
      cursor := cursor + InSeconds(|clips[k].samples|, rate);
    }
    LaidAll(audio, offsets, starts, cursor, first, clips, gap, rate);
  }

  /** The cursor is ahead of the audio by what the gaps lost to whole samples. */
  ghost predicate Ahead(length: int, cursor: real, gap: real, rate: int, gaps: int) {
    AtRate(cursor, rate) == length as real + Drift(gaps, gap, rate)
  }

  ghost predicate AllPlaced(audio: seq<real>, offsets: seq<real>, starts: seq<int>, clips: seq<Clip>, rate: int, k: nat,
                            quiet: int)
    requires |starts| == |offsets| == k <= |clips|
  { forall j | 0 < j < k :: Placed(audio, starts[j], offsets[j], j, clips[j], rate, quiet) }

  /** The first k clips are laid out. */
  ghost predicate Laid(audio: seq<real>, offsets: seq<real>, starts: seq<int>, cursor: real, first: seq<real>,
                       clips: seq<Clip>, gap: real, rate: int, k: nat)
    requires 1 <= k <= |clips|
  {
    && |starts| == |offsets| == k && starts[0] == 0 && offsets[0] == 0.0
    && |audio| == |first| + (k - 1) * Ticks(gap, rate) + Samples(clips[1..k])
    && first <= audio && Ahead(|audio|, cursor, gap, rate, k - 1)
    && (gap >= 0.0 ==> AllPlaced(audio, offsets, starts, clips, rate, k, Ticks(gap, rate)))
  }

  lemma {:induction false} LaidFirst(first: seq<real>, clips: seq<Clip>, gap: real, rate: int)
    requires clips != [] && rate > 0
    ensures Laid(first, [0.0], [0], InSeconds(|first|, rate), first, clips, gap, rate, 1)
  {
    InSecondsBack(0.0, |first|, rate);
    assert clips[1..1] == [] && Samples([]) == 0;
    hide Ticks, InSeconds;
  }

  lemma {:induction false} LaidAll(audio: seq<real>, offsets: seq<real>, starts: seq<int>, cursor: real, first: seq<real>,
                                   clips: seq<Clip>, gap: real, rate: int)
    requires clips != [] && Laid(audio, offsets, starts, cursor, first, clips, gap, rate, |clips|)
    ensures |audio| == |first| + (|clips| - 1) * Ticks(gap, rate) + Samples(clips[1..])
    ensures |first| <= |audio| && audio[..|first|] == first
    ensures |starts| == |offsets| == |clips| && starts[0] == 0 && offsets[0] == 0.0
    ensures gap >= 0.0 ==> forall k | 0 < k < |clips| ::
      Placed(audio, starts[k], offsets[k], k, clips[k], rate, Ticks(gap, rate))
  {
    hide Ticks, Placed, Samples;
    assert clips[1..|clips|] == clips[1..];
  }

  lemma {:induction false} LayNext(audio: seq<real>, offsets: seq<real>, starts: seq<int>, cursor: real, first: seq<real>,
                                   clips: seq<Clip>, gap: real, rate: int, k: nat, silence: seq<real>)
    requires rate > 0 && 1 <= k < |clips| && Ticks(gap, rate) >= 0 && silence == Zeros(Ticks(gap, rate))
    requires Laid(audio, offsets, starts, cursor, first, clips, gap, rate, k)
    ensures Laid(audio + silence + clips[k].samples, offsets + [cursor + gap], starts + [|audio + silence|],
                 cursor + gap + InSeconds(|clips[k].samples|, rate), first, clips, gap, rate, k + 1)
  {
    hide Ticks, InSeconds, Samples, AllPlaced, Ahead, Placed;
    OneMoreClip(clips, k);
    TicksBounds(gap, rate);
    assert cursor + gap - gap == cursor;
    NextClip(audio, silence, clips[k], cursor + gap, gap, k, rate);
    if gap >= 0.0 { PlaceNext(audio, offsets, starts, clips, rate, k, silence, cursor + gap); }
    Grown(k, |silence|);
  }

  lemma {:induction false} Grown(k: int, n: int)
    ensures k * n == (k - 1) * n + n
  {}

  lemma {:induction false} PlaceNext(audio: seq<real>, offsets: seq<real>, starts: seq<int>, clips: seq<Clip>, rate: int,
                                     k: nat, silence: seq<real>, offset: real)
    requires |starts| == |offsets| == k < |clips| && AllPlaced(audio, offsets, starts, clips, rate, k, |silence|)
    requires Placed(audio + silence + clips[k].samples, |audio + silence|, offset, k, clips[k], rate, |silence|)
    ensures AllPlaced(audio + silence + clips[k].samples, offsets + [offset], starts + [|audio + silence|], clips, rate, k + 1,
                      |silence|)
  {
    hide Placed;
    var after := audio + silence + clips[k].samples;
    forall j | 0 < j < k ensures Placed(after, starts[j], offsets[j], j, clips[j], rate, |silence|) {
      StaysPlaced(audio, after, starts[j], offsets[j], j, clips[j], rate, |silence|);
    }
  }

  lemma {:induction false} OneMoreClip(clips: seq<Clip>, k: nat)
    requires 1 <= k < |clips|
    ensures Samples(clips[1..k + 1]) == Samples(clips[1..k]) + |clips[k].samples|
  {
    assert clips[1..k + 1][..k - 1] == clips[1..k];
  }

  /** Appending keeps what is placed. */
  lemma {:induction false} StaysPlaced(before: seq<real>, after: seq<real>, start: int, offset: real, k: nat, clip: Clip, rate: int,
                                       quiet: int)
    requires Placed(before, start, offset, k, clip, rate, quiet) && before <= after
    ensures Placed(after, start, offset, k, clip, rate, quiet)
  {
    assert after[start..start + |clip.samples|] == before[start..start + |clip.samples|];
  }

  lemma {:induction false} NextClip(before: seq<real>, silence: seq<real>, clip: Clip, offset: real, gap: real, k: nat, rate: int)
    requires k >= 1 && rate > 0 && |silence| == Ticks(gap, rate) && (forall j | 0 <= j < |silence| :: silence[j] == 0.0)
    requires Ahead(|before|, offset - gap, gap, rate, k - 1)
    ensures Ahead(|before| + |silence| + |clip.samples|, offset + InSeconds(|clip.samples|, rate), gap, rate, k)
    ensures gap >= 0.0 ==> Placed(before + silence + clip.samples, |before + silence|, offset, k, clip, rate, |silence|)
  {
    hide AtRate, Ticks, Drift, InSeconds;
    assert (before + silence + clip.samples)[|before + silence|..|before + silence| + |clip.samples|] == clip.samples;
    AtRateAdds(offset - gap, gap, rate);
    DriftNext(k, gap, rate);
    InSecondsBack(offset, |clip.samples|, rate);
    assert offset - gap + gap == offset;
    if gap >= 0.0 { DriftBounds(k, gap, rate); }
  }

  lemma {:induction false} AtRateAdds(x: real, y: real, rate: int)
    ensures AtRate(x + y, rate) == AtRate(x, rate) + AtRate(y, rate)
  {}

  lemma {:induction false} DriftNext(k: int, gap: real, rate: int)
    ensures Drift(k, gap, rate) == Drift(k - 1, gap, rate) + AtRate(gap, rate) - Ticks(gap, rate) as real
  {
    var lead := AtRate(gap, rate) - Ticks(gap, rate) as real;
    hide AtRate, Ticks;
    assert k as real * lead == (k - 1) as real * lead + lead;
  }

  lemma {:induction false} DriftBounds(k: nat, gap: real, rate: int)
    requires rate > 0 && gap >= 0.0
    ensures 0.0 <= Drift(k, gap, rate) <= k as real
    ensures k > 0 ==> Drift(k, gap, rate) < k as real
  {
    var lead := AtRate(gap, rate) - Ticks(gap, rate) as real;
    TicksBounds(gap, rate);
    hide AtRate, Ticks;
    Product(k as real, lead);
    if k > 0 {
      Product((k - 1) as real, 1.0 - lead);
      assert k as real * (1.0 - lead) == (k - 1) as real * (1.0 - lead) + (1.0 - lead);
      assert k as real * (1.0 - lead) == k as real - k as real * lead;
    }
  }

  lemma {:induction false} Product(x: real, y: real)
    requires x >= 0.0 && y >= 0.0
    ensures x * y >= 0.0
  {}

  lemma {:induction false} LongerKeepsCut(audio: seq<real>, first: seq<real>, clip: Clip, cut: int, filler: real)
    requires FillerCut(first, clip, cut, filler) && first <= audio && Ticks(filler, clip.rate) <= |first|
    ensures FillerCut(audio, clip, cut, filler)
  {
    hide Ticks, Seconds, Ends;
    var kept := Ticks(Seconds(cut), clip.rate);
    assert audio[..kept] == first[..kept];
  }

  lemma {:induction false} MeetsTarget(clips: seq<Clip>, target: real, gap: real, total: nat)
    requires clips != [] && clips[0].rate > 0 && gap >= 0.0 && FillerSeconds(clips, target, gap) >= 0.0
    requires total == Ticks(FillerSeconds(clips, target, gap), clips[0].rate) +
                      (|clips| - 1) * Ticks(gap, clips[0].rate) + Samples(clips[1..])
    ensures Meets(total, target, clips[0].rate, |clips|)
  {
    var rate, n, tail, filler := clips[0].rate, |clips| - 1, Samples(clips[1..]), FillerSeconds(clips, target, gap);
    assert target == filler + InSeconds(tail, rate) + gap * n as real;
    hide FillerSeconds, Samples, InSeconds, Ticks, AtRate, Drift;
    TicksBounds(filler, rate);
    InSecondsBack(0.0, tail, rate);
    AtRateAdds(0.0, InSeconds(tail, rate), rate);
    AtRateAdds(filler, InSeconds(tail, rate), rate);
    AtRateAdds(filler + InSeconds(tail, rate), gap * n as real, rate);
    GapsAtRate(n, gap, rate);
    DriftBounds(n, gap, rate);
  }

  lemma {:induction false} GapsAtRate(n: int, gap: real, rate: int)
    ensures AtRate(gap * n as real, rate) == (n * Ticks(gap, rate)) as real + Drift(n, gap, rate)
  {
    var ticks := Ticks(gap, rate);
    hide Ticks;
    assert (n * ticks) as real == n as real * ticks as real;
    assert gap * n as real * rate as real == n as real * (gap * rate as real);
  }

  // ---------- whole samples ----------

  lemma {:induction false} TicksBounds(seconds: real, rate: int)
    requires rate > 0
    ensures seconds >= 0.0 ==> 0.0 <= AtRate(seconds, rate) - Ticks(seconds, rate) as real < 1.0
    ensures seconds >= 0.0 ==> Ticks(seconds, rate) >= 0
  {
    if seconds >= 0.0 {
      Product(seconds, rate as real);
    }
  }

  /** Times in samples, and in whole samples, as plain numbers. */
  lemma {:induction false} SampleUnits(seconds: real, rate: int)
    requires rate > 0
    ensures AtRate(seconds, rate) == seconds * rate as real
    ensures seconds >= 0.0 ==> Ticks(seconds, rate) as real <= seconds * rate as real < Ticks(seconds, rate) as real + 1.0
    ensures seconds < 0.0 ==> Ticks(seconds, rate) as real - 1.0 < seconds * rate as real <= Ticks(seconds, rate) as real <= 0.0
  {
    TicksBounds(seconds, rate);
    if seconds < 0.0 { Product(-seconds, rate as real); }
  }

  lemma {:induction false} TruncMonotone(x: real, y: real)
    requires x <= y
    ensures Trunc(x) <= Trunc(y)
  {}

  lemma {:induction false} TicksMonotone(x: real, y: real, rate: int)
    requires rate > 0 && x <= y
    ensures Ticks(x, rate) <= Ticks(y, rate)
  {
    AtRateAdds(x, y - x, rate);
    Product(y - x, rate as real);
    assert AtRate(y - x, rate) >= 0.0;
    assert x + (y - x) == y;
    TruncMonotone(AtRate(x, rate), AtRate(y, rate));
  }

  lemma {:induction false} InSecondsBack(start: real, n: int, rate: int)
    requires rate > 0
    ensures AtRate(start + InSeconds(n, rate), rate) == AtRate(start, rate) + n as real
    ensures Ticks(InSeconds(n, rate), rate) == n
    ensures AtRate(0.0, rate) == 0.0
  {
    AtRateAdds(start, InSeconds(n, rate), rate);
    assert AtRate(InSeconds(n, rate), rate) == n as real;
  }

  lemma {:induction false} CutFits(clip: Clip, cut: int, filler: real)
    requires clip.rate > 0 && 0 <= cut && Seconds(cut) <= filler <= InSeconds(|clip.samples|, clip.rate)
    ensures 0 <= Ticks(Seconds(cut), clip.rate) <= Ticks(filler, clip.rate)
    ensures Ticks(Seconds(cut), clip.rate) <= |clip.samples|
    ensures forall e | e in Ends(clip) && 0 <= e <= cut :: Ticks(Seconds(e), clip.rate) <= Ticks(Seconds(cut), clip.rate)
  {
    assert Seconds(cut) >= 0.0 && forall e | e <= cut :: Seconds(e) <= Seconds(cut);
    hide *;
    TicksMonotone(Seconds(cut), filler, clip.rate);
    TicksMonotone(filler, InSeconds(|clip.samples|, clip.rate), clip.rate);
    InSecondsBack(0.0, |clip.samples|, clip.rate);
    TicksBounds(Seconds(cut), clip.rate);
    forall e | e in Ends(clip) && 0 <= e <= cut
      ensures Ticks(Seconds(e), clip.rate) <= Ticks(Seconds(cut), clip.rate)
    {
      TicksMonotone(Seconds(e), Seconds(cut), clip.rate);
    }
  }

  // ---------- the merged reference against the audio ----------

  /** The offset printed for clip k is within half a hundredth of a second, and the drift of the
      recorded one, of where its samples start. */
  lemma {:induction false} PrintedOffset(audio: seq<real>, start: int, offset: real, k: nat, clip: Clip, rate: int, quiet: int)
    requires rate > 0 && Placed(audio, start, offset, k, clip, rate, quiet)
    ensures var printed, slack := AtRate(Seconds(Hundredths(offset)), rate), AtRate(0.005, rate);
      start as real - slack < printed < start as real + k as real + slack
  {
    var x, h := offset, Hundredths(offset);
    assert h as real <= x * 100.0 + 0.5 < h as real + 1.0;
    assert x - 0.005 < Seconds(h) <= x + 0.005;
    hide Hundredths, Seconds;
    AtRateStrict(x - 0.005, Seconds(h), rate);
    AtRateAdds(x - 0.005, 0.005, rate);
    AtRateAdds(x, 0.005, rate);
    AtRateAdds(Seconds(h), x + 0.005 - Seconds(h), rate);
    Product(x + 0.005 - Seconds(h), rate as real);
    assert x - 0.005 + 0.005 == x && Seconds(h) + (x + 0.005 - Seconds(h)) == x + 0.005;
  }

  lemma {:induction false} AtRateStrict(x: real, y: real, rate: int)
    requires rate > 0 && x < y
    ensures AtRate(x, rate) < AtRate(y, rate)
  {
    AtRateAdds(x, y - x, rate);
    assert x + (y - x) == y;
    assert (y - x) * rate as real > 0.0;
  }

  /** On tidy references, what the scorer reads from the merged one is what it reads from each clip,
      cut, shifted by the printed offset and moved to its own labels. */
  lemma {:induction false} MergedReferenceReads(clips: seq<Clip>, offsets: seq<real>, cut: int)
    requires |offsets| == |clips| && forall c | c in clips :: SegmentText.Tidy(c.text)
    ensures var texts := MergeClips(clips, offsets, cut);
      SegmentText.Read(SegmentText.PrintAll(SegmentText.AllGroups(texts))) == SegmentText.AllMoved(texts)
  {
    SegmentText.ParseMergedIsMergeParsed(MergeClips(clips, offsets, cut));
  }

  /** Every match the merge keeps of the first clip ends by the cut, hence within the audio kept. */
  lemma {:induction false} KeptMatchesEndByCut(clips: seq<Clip>, offsets: seq<real>, cut: int)
    requires |offsets| == |clips| > 0 && offsets[0] == 0.0
    ensures var first := MergeClips(clips, offsets, cut)[0];
      && (forall g | g in SegmentText.Relabelled(first, SegmentText.Groups(first.text), 0) ::
            g in SegmentText.Groups(clips[0].text) && g.end <= cut)
      && (forall g | g in SegmentText.Groups(clips[0].text) && g.end <= cut ::
            g in SegmentText.Relabelled(first, SegmentText.Groups(first.text), 0))
  {
    var first := MergeClips(clips, offsets, cut)[0];
    assert first == SegmentText.Clip(clips[0].text, 0, Some(cut));
    KeptBelow(first, SegmentText.Groups(first.text), cut);
  }

  lemma {:induction false} KeptBelow(clip: SegmentText.Clip, gs: seq<SegmentText.Group>, cut: int)
    requires clip.offset == 0 && clip.keepUntil == Some(cut)
    ensures forall g :: g in SegmentText.Relabelled(clip, gs, 0) <==> g in gs && g.end <= cut
  {
    if gs != [] {
      var front, last := gs[..|gs| - 1], gs[|gs| - 1];
      KeptBelow(clip, front, cut);
      assert gs == front + [last];
      SegmentText.MoreGroups(clip, front, last, 0);
      assert SegmentText.Group(last.start + 0, last.speaker + 0, last.inner, last.end + 0) == last;
    }
  }

  /** The time left for the first clip is the target less everything else. */
  lemma {:induction false} FillerIsWhatIsLeft(clips: seq<Clip>, target: real, gap: real)
    requires clips != [] && clips[0].rate > 0
    ensures FillerSeconds(clips, target, gap) * clips[0].rate as real + Samples(clips[1..]) as real +
            gap * (|clips| - 1) as real * clips[0].rate as real == target * clips[0].rate as real
  {
    var rate, tail, gaps := clips[0].rate as real, Samples(clips[1..]) as real, gap * (|clips| - 1) as real;
    assert InSeconds(Samples(clips[1..]), clips[0].rate) * rate == tail;
    assert target == FillerSeconds(clips, target, gap) + InSeconds(Samples(clips[1..]), clips[0].rate) + gaps;
    hide FillerSeconds, InSeconds, Samples;
    Distributes(FillerSeconds(clips, target, gap), InSeconds(Samples(clips[1..]), clips[0].rate), gaps, rate);
  }

  lemma {:induction false} Distributes(a: real, b: real, c: real, r: real)
    ensures (a + b + c) * r == a * r + b * r + c * r
  {}
}
