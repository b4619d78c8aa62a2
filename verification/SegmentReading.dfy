/** What the parser and the merger return, said without their recursions: where every segment comes
from, which tags an open bracket hides, which matches the pattern finds, and what the merged text
holds. */
module SegmentReading {
  import opened Segments
  import opened SegmentText
  import opened Wrappers

  // ---------- where a segment comes from ----------

  predicate StampOf(t: Token, at: int) { t == Time(at) || t == LooseTime(at) }

  predicate VoiceOf(t: Token, number: int) { t == Speaker(number) || t == LooseSpeaker(number) }

  predicate IsStamp(t: Token) { t.Time? || t.LooseTime? }

  predicate IsVoice(t: Token) { t.Speaker? || t.LooseSpeaker? }

  /** s lies between the neighbouring times at i and j and has the number of the speaker tag at m,
      before j: the last one between them, if there is one. */
  ghost predicate Sourced(tags: seq<Token>, s: Segment, i: nat, j: nat, m: nat) {
    && i < j < |tags| && m < j
    && StampOf(tags[i], s.start) && StampOf(tags[j], s.end) && s.start < s.end
    && (forall n | i < n < j :: !IsStamp(tags[n]))
    && VoiceOf(tags[m], s.speaker)
    && (forall n | i < n < j && IsVoice(tags[n]) :: i < m && n <= m)
  }

  ghost predicate HasSource(tags: seq<Token>, s: Segment) { exists i, j, m :: Sourced(tags, s, i, j, m) }

  ghost predicate Known(tags: seq<Token>, from: nat, last: Option<int>)
    requires from <= |tags|
  { last.Some? ==> exists m :: 0 <= m < from && VoiceOf(tags[m], last.value) }

  /** The last speaker of a stretch of tags. */
  lemma {:induction false} LastSpeakerAt(tags: seq<Token>, from: nat, end: nat) returns (m: nat)
    requires from <= end <= |tags|
    ensures LastSpeaker(tags[from..end]).Some? ==>
      from <= m < end && VoiceOf(tags[m], LastSpeaker(tags[from..end]).value) && forall n | m < n < end :: !IsVoice(tags[n])
    ensures LastSpeaker(tags[from..end]).None? ==> forall n | from <= n < end :: !IsVoice(tags[n])
    decreases end
  {
    m := 0;
    if from < end {
      LastHeard(tags, from, end - 1);
      if IsSpeaker(tags[end - 1]) {
        m := end - 1;
      } else {
        m := LastSpeakerAt(tags, from, end - 1);
      }
    } else {
      NoneHeard(tags, from);
    }
  }

  /** Every segment read from a position on has a source. */
  lemma {:induction false} ReadFrom(tags: seq<Token>, from: nat, last: Option<int>)
    requires from <= |tags| && Known(tags, from, last)
    ensures forall s | s in Parse(tags[from..], last) :: HasSource(tags, s)
    decreases |tags| - from
  {
    ParseSkipAt(tags, from, last);
    if from < |tags| {
      if !IsTime(tags[from]) {
        StillKnown(tags, from, from + 1, last);
        hide *;
        ReadFrom(tags, from + 1, last);
      } else {
        var j := NextTime(tags, from + 1);
        ParseStepAt(tags, from, j, last);
        if j < |tags| { ReadPair(tags, from, j, last); }
      }
    }
  }

  lemma {:induction false} StillKnown(tags: seq<Token>, from: nat, end: nat, last: Option<int>)
    requires from <= end <= |tags| && Known(tags, from, last)
    ensures Known(tags, end, last)
  {}

  lemma {:induction false} ReadPair(tags: seq<Token>, i: nat, j: nat, last: Option<int>)
    requires i < j < |tags| && Known(tags, i, last) && IsTime(tags[i]) && IsTime(tags[j])
    requires forall n | i < n < j :: !IsTime(tags[n])
    requires Parse(tags[i..], last) ==
      var speaker := Or(LastSpeaker(tags[i + 1..j]), last);
      var accepted := Accept(TimeOf(tags[i]), TimeOf(tags[j]), speaker);
      accepted + Parse(tags[j + 1..], if accepted != [] then speaker else last)
    ensures forall s | s in Parse(tags[i..], last) :: HasSource(tags, s)
    decreases |tags| - i, 0
  {
    var speaker := Or(LastSpeaker(tags[i + 1..j]), last);
    var accepted := Accept(TimeOf(tags[i]), TimeOf(tags[j]), speaker);
    PairHasSource(tags, i, j, last);
    hide *;
    if accepted != [] {
      ReadFrom(tags, j + 1, speaker);
    } else {
      StillKnown(tags, i, j + 1, last);
      ReadFrom(tags, j + 1, last);
    }
  }

  /** The segment of one pair has a source, and its speaker is known from then on. */
  lemma {:induction false} PairHasSource(tags: seq<Token>, i: nat, j: nat, last: Option<int>)
    requires i < j < |tags| && Known(tags, i, last) && IsTime(tags[i]) && IsTime(tags[j])
    requires forall n | i < n < j :: !IsTime(tags[n])
    ensures var speaker := Or(LastSpeaker(tags[i + 1..j]), last);
      var accepted := Accept(TimeOf(tags[i]), TimeOf(tags[j]), speaker);
      (forall s | s in accepted :: HasSource(tags, s)) && (accepted != [] ==> Known(tags, j + 1, speaker))
  {
    var heard := LastSpeaker(tags[i + 1..j]);
    var speaker := Or(heard, last);
    var accepted := Accept(TimeOf(tags[i]), TimeOf(tags[j]), speaker);
    var m := LastSpeakerAt(tags, i + 1, j);
    if heard.None? && last.Some? { m :| 0 <= m < i && VoiceOf(tags[m], last.value); }
    hide LastSpeaker;
    if accepted != [] {
      assert Sourced(tags, accepted[0], i, j, m);
      assert VoiceOf(tags[m], speaker.value);
    }
  }

  /** Every segment of every text lies between two neighbouring times the parser sees and belongs to
      the last speaker tag between them, or else to an earlier one; so without a speaker tag before
      the closing time there is no segment. */
  lemma {:induction false} EverySegmentHasSource(ts: seq<Token>)
    ensures forall s | s in Read(ts) :: HasSource(Tags(ts, false), s)
  {
    var tags := Tags(ts, false);
    assert tags[0..] == tags;
    hide Tags, Parse;
    ReadFrom(tags, 0, None);
  }

  /** One pair of times after another: the pair gives its segment if it knows a speaker and has
      positive length, and what follows is read with the speaker of the last segment. */
  lemma {:induction false} PairReads(before: seq<Token>, a: Token, between: seq<Token>, b: Token, rest: seq<Token>,
                                     last: Option<int>)
    requires IsStamp(a) && IsStamp(b) && forall t | t in before + between :: !IsStamp(t)
    ensures var start, end := if a.Time? then a.at else a.looseAt, if b.Time? then b.at else b.looseAt;
      var speaker := if LastSpeaker(between).Some? then LastSpeaker(between) else last;
      Parse(before + [a] + between + [b] + rest, last) ==
      if speaker.Some? && start < end then [Segment(start, end, speaker.value)] + Parse(rest, speaker)
      else Parse(rest, last)
    decreases |before|
  {
    var ts := before + [a] + between + [b] + rest;
    if before == [] {
      var j := |between| + 1;
      assert ts == [a] + between + [b] + rest;
      forall k | 1 <= k < j ensures !IsTime(ts[k]) { assert ts[k] == between[k - 1] && between[k - 1] in before + between; }
      assert ts[j] == b && ts[1..j] == between && ts[j + 1..] == rest;
      hide Parse, LastSpeaker;
      ParseStep(ts, j, last);
    } else {
      assert before[0] in before + between && forall t | t in before[1..] + between :: t in before + between;
      assert ts[0] == before[0] && ts[1..] == before[1..] + [a] + between + [b] + rest;
      ParseSkip(ts, last);
      hide Parse, LastSpeaker;
      PairReads(before[1..], a, between, b, rest, last);
    }
  }

  /** Without a second time nothing is read. */
  lemma {:induction false} LoneTimeReadsNothing(before: seq<Token>, after: seq<Token>, a: Token, last: Option<int>)
    requires forall t | t in before + after :: !IsStamp(t)
    ensures Parse(before, last) == [] && Parse(before + [a] + after, last) == []
    decreases |before|
  {
    var ts := before + [a] + after;
    if before == [] {
      NoStamps(after, last);
      assert ts == [a] + after && ts[1..] == after;
      forall k | 1 <= k < |ts| ensures !IsTime(ts[k]) { assert ts[k] == after[k - 1] && after[k - 1] in before + after; }
      ParseSkip(ts, last);
      ParseSkip(before, last);
      hide Parse;
      if IsTime(a) { ParseStep(ts, |ts|, last); }
    } else {
      assert before[0] in before + after && forall t | t in before[1..] + after :: t in before + after;
      assert ts[0] == before[0] && ts[1..] == before[1..] + [a] + after;
      ParseSkip(ts, last);
      ParseSkip(before, last);
      hide Parse;
      LoneTimeReadsNothing(before[1..], after, a, last);
    }
  }

  lemma {:induction false} NoStamps(ts: seq<Token>, last: Option<int>)
    requires forall t | t in ts :: !IsStamp(t)
    ensures Parse(ts, last) == []
  {
    if ts != [] {
      assert ts[0] in ts && forall t | t in ts[1..] :: t in ts;
      NoStamps(ts[1..], last);
    }
  }

  // ---------- which tags the parser sees ----------

  /** Without an open bracket the parser sees every tag. */
  lemma {:induction false} NoBracketHidesNothing(ts: seq<Token>)
    requires forall t | t in ts :: !t.Open?
    ensures Tags(ts, false) == Filtered(ts) && !LeftOpen(ts, false)
  {
    if ts != [] {
      assert ts[0] in ts && forall t | t in ts[1..] :: t in ts;
      NoBracketHidesNothing(ts[1..]);
    }
  }

  function Filtered(ts: seq<Token>): seq<Token> {
    if ts == [] then [] else (if IsStamp(ts[0]) || IsVoice(ts[0]) then [ts[0]] else []) + Filtered(ts[1..])
  }

  /** An open bracket takes the text up to the next closing bracket with it, and nothing more. */
  lemma {:induction false} BracketTakesNext(before: seq<Token>, between: seq<Token>, closing: Token, rest: seq<Token>)
    requires !LeftOpen(before, false) && forall t | t in between :: t.Text? || t.Open?
    requires !closing.Text? && !closing.Open?
    ensures Tags(before + [Open] + between + [closing] + rest, false) == Tags(before, false) + Tags(rest, false)
  {
    var swallowed := [Open] + between + [closing];
    assert before + [Open] + between + [closing] + rest == before + (swallowed + rest);
    Swallowed(between, closing);
    hide *;
    TagsConcat(before, swallowed + rest, false);
    TagsConcat(swallowed, rest, false);
  }

  lemma {:induction false} Swallowed(between: seq<Token>, closing: Token)
    requires (forall t | t in between :: t.Text? || t.Open?) && !closing.Text? && !closing.Open?
    ensures Tags([Open] + between + [closing], false) == [] && !LeftOpen([Open] + between + [closing], false)
  {
    TagsConcat([Open] + between, [closing], false);
    TagsFirst(Open, between, false);
    OnlyOpen(between);
    assert [closing] + [] == [closing];
    TagsFirst(closing, [], true);
  }

  lemma {:induction false} OnlyOpen(ts: seq<Token>)
    requires forall t | t in ts :: t.Text? || t.Open?
    ensures Tags(ts, true) == [] && LeftOpen(ts, true)
  {
    if ts != [] {
      assert ts[0] in ts && forall t | t in ts[1..] :: t in ts;
      OnlyOpen(ts[1..]);
    }
  }

  // ---------- the round trip, match by match ----------

  /** Under the exact condition, segment k of the merged reading is kept match k, shifted and
      relabelled as the merger printed it. */
  lemma {:induction false} ReadsEachMatch(clips: seq<Clip>)
    requires var gs := AllGroups(clips); UntimedGroups(gs) && ClosedGroups(gs) && OwnVoices(gs) && PositiveGroups(gs)
    ensures var gs, segs := AllGroups(clips), Read(PrintAll(AllGroups(clips)));
      |segs| == |gs| && forall k | 0 <= k < |gs| :: segs[k] == Segment(gs[k].start, gs[k].end, gs[k].speaker)
  {
    hide *;
    MergeThenParse(clips);
    OneSegmentEach(AllGroups(clips));
  }

  // ---------- which matches the merger finds and prints ----------

  /** The pattern matches from i to j: a time, a speaker right after it, the next time. */
  ghost predicate MatchAt(ts: seq<Token>, g: Group, i: nat, j: nat) {
    && i + 2 <= j < |ts|
    && ts[i] == Time(g.start) && ts[i + 1] == Speaker(g.speaker) && ts[j] == Time(g.end)
    && g.inner == ts[i + 2..j] && forall t | t in g.inner :: !t.Time?
  }

  /** Matches are found from left to right: one that starts here is taken and the search goes on
      behind it, otherwise the search goes on one token later. */
  lemma {:induction false} LeftmostMatches(ts: seq<Token>)
    ensures forall g, j | MatchAt(ts, g, 0, j) :: Groups(ts) == [g] + Groups(ts[j + 1..])
    ensures (forall g, j :: !MatchAt(ts, g, 0, j)) ==> Groups(ts) == if ts == [] then [] else Groups(ts[1..])
  {
    forall g, j | MatchAt(ts, g, 0, j) ensures Groups(ts) == [g] + Groups(ts[j + 1..]) {
      FromPieces(ts, j, g, ts[j + 1..]);
      assert forall k | 0 <= k < |g.inner| :: g.inner[k] in g.inner;
      FirstGroup(ts, g, ts[j + 1..]);
    }
    if ts != [] && forall g, j :: !MatchAt(ts, g, 0, j) { NoMatchHere(ts); }
  }

  lemma {:induction false} NoMatchHere(ts: seq<Token>)
    requires ts != [] && forall g, j :: !MatchAt(ts, g, 0, j)
    ensures Groups(ts) == Groups(ts[1..])
  {
    if |ts| >= 3 && ts[0].Time? && ts[1].Speaker? {
      var j := NextTight(ts, 2);
      if j < |ts| {
        var g := Group(ts[0].at, ts[1].number, ts[2..j], ts[j].at);
        assert forall k | 0 <= k < |g.inner| :: g.inner[k] == ts[2 + k];
        assert MatchAt(ts, g, 0, j);
      }
    } else {
      assert |ts| <= 3 ==> Groups(ts[1..]) == [];
    }
  }

  lemma {:induction false} MatchesHoldNoTime(ts: seq<Token>)
    ensures forall g | g in Groups(ts) :: forall t | t in g.inner :: !t.Time?
    decreases |ts|
  {
    if |ts| >= 3 {
      if !(ts[0].Time? && ts[1].Speaker?) || NextTight(ts, 2) == |ts| {
        MatchesHoldNoTime(ts[1..]);
      } else {
        var j := NextTight(ts, 2);
        MatchesHoldNoTime(ts[j + 1..]);
        assert forall k | 0 <= k < j - 2 :: ts[2..j][k] == ts[2 + k];
      }
    }
  }

  /** What one clip contributes: match by match and in order, those that do not end beyond its
      limit, with times moved by its offset and the label by the base. */
  lemma {:induction false} ContributedMatches(clip: Clip, gs: seq<Group>, hs: seq<Group>, g: Group, base: int)
    ensures Relabelled(clip, [], base) == []
    ensures Relabelled(clip, [g], base) ==
      if clip.keepUntil.Some? && g.end > clip.keepUntil.value then []
      else [Group(g.start + clip.offset, g.speaker + base, g.inner, g.end + clip.offset)]
    ensures Relabelled(clip, gs + hs, base) == Relabelled(clip, gs, base) + Relabelled(clip, hs, base)
  {
    MoreGroups(clip, [], g, base);
    assert [] + [g] == [g];
    ContributedInOrder(clip, gs, hs, base);
  }

  lemma {:induction false} ContributedInOrder(clip: Clip, gs: seq<Group>, hs: seq<Group>, base: int)
    ensures Relabelled(clip, gs + hs, base) == Relabelled(clip, gs, base) + Relabelled(clip, hs, base)
  {
    if hs == [] {
      assert gs + hs == gs;
    } else {
      hide *;
      var front, last := hs[..|hs| - 1], hs[|hs| - 1];
      var one := if Dropped(clip, last) then []
                 else [Group(last.start + clip.offset, last.speaker + base, last.inner, last.end + clip.offset)];
      ContributedInOrder(clip, gs, front, base);
      MoreGroups(clip, front, last, base);
      MoreGroups(clip, gs + front, last, base);
      assert hs == front + [last];
      Regroup(gs, front, [last]);
      Regroup(Relabelled(clip, gs, base), Relabelled(clip, front, base), one);
    }
  }

  /** The merged text is made of the clips' contributions, in order, each on top of the largest
      labels of the clips before it. */
  lemma {:induction false} ContributedClips(front: seq<Clip>, last: Clip)
    ensures Base([]) == 0 && AllGroups([]) == []
    ensures Base(front + [last]) == Base(front) + MaxSpeaker(Groups(last.text))
    ensures AllGroups(front + [last]) == AllGroups(front) + Relabelled(last, Groups(last.text), Base(front))
  {
    hide Groups, MaxSpeaker, Relabelled;
    OneMore(front + [last], front, last);
  }

  lemma {:induction false} ContributionHoldsNoTime(clip: Clip, gs: seq<Group>, base: int)
    requires forall g | g in gs :: forall t | t in g.inner :: !t.Time?
    ensures forall g | g in Relabelled(clip, gs, base) :: forall t | t in g.inner :: !t.Time?
  {
    if gs != [] {
      assert gs[|gs| - 1] in gs && forall g | g in gs[..|gs| - 1] :: g in gs;
      ContributionHoldsNoTime(clip, gs[..|gs| - 1], base);
    }
  }

  lemma {:induction false} MergeHoldsNoTime(clips: seq<Clip>)
    ensures forall g | g in AllGroups(clips) :: forall t | t in g.inner :: !t.Time?
  {
    if clips != [] {
      var front, last := clips[..|clips| - 1], clips[|clips| - 1];
      MergeHoldsNoTime(front);
      MatchesHoldNoTime(last.text);
      ContributionHoldsNoTime(last, Groups(last.text), Base(front));
    }
  }

  lemma {:induction false} PrintedMatchesAreFound(gs: seq<Group>)
    requires forall g | g in gs :: forall t | t in g.inner :: !t.Time?
    ensures Groups(PrintAll(gs)) == gs
  {
    if gs != [] {
      var g, rest := gs[0], gs[1..];
      assert g in gs && forall h | h in rest :: h in gs;
      PrintedMatchesAreFound(rest);
      assert gs == [g] + rest && PrintAll([g]) == Print(g) by { assert [g][..0] == []; }
      PrintConcat([g], rest);
      assert PrintAll(gs) == Print(g) + PrintAll(rest);
      assert forall k | 0 <= k < |g.inner| :: g.inner[k] in g.inner;
      hide Groups, PrintAll;
      FirstGroup(PrintAll(gs), g, PrintAll(rest));
    } else {
      assert PrintAll(gs) == [];
    }
  }

  /** The merger's own pattern finds in the merged text exactly the matches it printed, texts and
      all: nothing inside a match is lost and no new match arises. */
  lemma {:induction false} MergedTextHoldsMatches(clips: seq<Clip>)
    ensures Groups(PrintAll(AllGroups(clips))) == AllGroups(clips)
  {
    MergeHoldsNoTime(clips);
    PrintedMatchesAreFound(AllGroups(clips));
  }

  ghost predicate SomeoneSpeaks(clip: Clip) { exists g :: g in Groups(clip.text) && g.speaker > 0 }

  /** The merge is accepted exactly when every clip has a match of a speaker above 0. */
  lemma {:induction false} AcceptedIfAllSpeak(clips: seq<Clip>)
    ensures AllSpeak(clips) <==> forall k | 0 <= k < |clips| :: SomeoneSpeaks(clips[k])
  {
    forall k | 0 <= k < |clips| ensures MaxSpeaker(Groups(clips[k].text)) != 0 <==> SomeoneSpeaks(clips[k]) {
      BelowMax(Groups(clips[k].text));
    }
    hide MaxSpeaker, Groups, SomeoneSpeaks;
  }
}
