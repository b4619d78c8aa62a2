/** Timestamped speaker text: the segment parser of the scorer, the clip merger of the long-audio
task, and the round trip between them.

A transcript is a list of tokens.  The two readers disagree on some of them.  The parser strips
blanks inside brackets and ignores the case of the speaker tag, the merger does not: such loose tags
are tokens that only the parser understands.  An opening bracket that the text leaves open runs, for
the parser, to the next closing bracket and swallows a tag on its way, while the merger still reads
that tag.  Times are in hundredths of a second, the precision the merger prints. */
module SegmentText {
  import opened Segments
  import opened Wrappers

  /** Text without brackets. */
  type Plain = s: string | '[' !in s && ']' !in s

  datatype Token =
    | Time(at: int)
    | LooseTime(looseAt: int)
    | Speaker(number: int)
    | LooseSpeaker(looseNumber: int)
    | Text(chars: Plain)
    | Event(name: string)  // a closed bracket that is no tag, as [laughs], or a stray closing bracket
    | Open                 // an opening bracket not closed before the next tag

  // ---------- the tags the parser sees ----------

  predicate IsTime(t: Token) { t.Time? || t.LooseTime? }

  function TimeOf(t: Token): int
    requires IsTime(t)
  { if t.Time? then t.at else t.looseAt }

  predicate IsSpeaker(t: Token) { t.Speaker? || t.LooseSpeaker? }

  function NumberOf(t: Token): int
    requires IsSpeaker(t)
  { if t.Speaker? then t.number else t.looseNumber }

  /** Whether a bracket is open after a token. */
  predicate OpenAfter(t: Token, open: bool) { if open then t.Text? || t.Open? else t.Open? }

  /** What one token shows the parser. */
  function Shown(t: Token, open: bool): seq<Token> { if !open && (IsTime(t) || IsSpeaker(t)) then [t] else [] }

  /** Times and speakers, except those that close an open bracket. */
  function Tags(ts: seq<Token>, open: bool): seq<Token> {
    if ts == [] then []
    else Shown(ts[0], open) + Tags(ts[1..], OpenAfter(ts[0], open))
  }

  predicate LeftOpen(ts: seq<Token>, open: bool) {
    if ts == [] then open else LeftOpen(ts[1..], OpenAfter(ts[0], open))
  }

  lemma {:induction false} TagsFirst(t: Token, rest: seq<Token>, open: bool)
    ensures Tags([t] + rest, open) == Shown(t, open) + Tags(rest, OpenAfter(t, open))
    ensures LeftOpen([t] + rest, open) == LeftOpen(rest, OpenAfter(t, open))
  {
    assert ([t] + rest)[1..] == rest;
  }

  lemma {:induction false} TagsConcat(a: seq<Token>, b: seq<Token>, open: bool)
    ensures Tags(a + b, open) == Tags(a, open) + Tags(b, LeftOpen(a, open))
    ensures LeftOpen(a + b, open) == LeftOpen(b, LeftOpen(a, open))
  {
    if a == [] {
      assert a + b == b;
    } else {
      hide *;
      var t, rest := a[0], a[1..];
      var next := OpenAfter(t, open);
      assert a == [t] + rest;
      Regroup([t], rest, b);
      TagsFirst(t, rest, open);
      TagsFirst(t, rest + b, open);
      TagsConcat(rest, b, next);
      Regroup(Shown(t, open), Tags(rest, next), Tags(b, LeftOpen(rest, next)));
    }
  }

  lemma {:induction false} TagsAt(ts: seq<Token>, k: nat, open: bool)
    requires k <= |ts|
    ensures k == |ts| ==> Tags(ts[k..], open) == []
    ensures k < |ts| ==> Tags(ts[k..], open) == Shown(ts[k], open) + Tags(ts[k + 1..], OpenAfter(ts[k], open))
  {
    assert k < |ts| ==> ts[k..][1..] == ts[k + 1..];
  }

  lemma {:induction false} ShownMeans(t: Token, open: bool)
    ensures Shown(t, open) == if !open && (IsTime(t) || IsSpeaker(t)) then [t] else []
  {}

  /** The first loop of the parser. */
  method ReadTags(tokens: seq<Token>) returns (tags: seq<Token>)
    ensures tags == Tags(tokens, false)
  {
    hide *;
    tags := [];
    var open := false;
    assert tokens[0..] == tokens;
    for k := 0 to |tokens|
      invariant tags + Tags(tokens[k..], open) == Tags(tokens, false)
    {
      TagsAt(tokens, k, open);
      ShownMeans(tokens[k], open);
      if !open && (IsTime(tokens[k]) || IsSpeaker(tokens[k])) {
        tags := tags + [tokens[k]];
      }
      open := OpenAfter(tokens[k], open);
    }
    TagsAt(tokens, |tokens|, open);
  }

  // ---------- pairing them up ----------

  /** Index of the first time tag at or after i, or the length. */
  function NextTime(ts: seq<Token>, i: nat): (j: nat)
    requires i <= |ts|
    ensures i <= j <= |ts|
    ensures forall k | i <= k < j :: !IsTime(ts[k])
    ensures j < |ts| ==> IsTime(ts[j])
    decreases |ts| - i
  {
    if i == |ts| || IsTime(ts[i]) then i else NextTime(ts, i + 1)
  }

  function LastSpeaker(ts: seq<Token>): Option<int> {
    if ts == [] then None
    else if IsSpeaker(ts[|ts| - 1]) then Some(NumberOf(ts[|ts| - 1]))
    else LastSpeaker(ts[..|ts| - 1])
  }

  function Or(a: Option<int>, b: Option<int>): Option<int> { if a.Some? then a else b }

  /** The segment of a pair of times, if there is a speaker and the end is later. */
  function Accept(start: int, end: int, speaker: Option<int>): seq<Segment> {
    if speaker.Some? && end > start then [Segment(start, end, speaker.value)] else []
  }

  /** Time tags pair up from left to right; a pair belongs to the last speaker tag inside it, or
      else to the speaker of the last accepted segment. */
  function Parse(ts: seq<Token>, lastSpeaker: Option<int>): (r: seq<Segment>)
    ensures Proper(r)
    decreases |ts|
  {
    if ts == [] then []
    else if !IsTime(ts[0]) then Parse(ts[1..], lastSpeaker)
    else
      var j := NextTime(ts, 1);
      if j >= |ts| then [] else
        var speaker := Or(LastSpeaker(ts[1..j]), lastSpeaker);
        var accepted := Accept(TimeOf(ts[0]), TimeOf(ts[j]), speaker);
        accepted + Parse(ts[j + 1..], if accepted != [] then speaker else lastSpeaker)
  }

  lemma {:induction false} ParseStep(ts: seq<Token>, j: nat, lastSpeaker: Option<int>)
    requires ts != [] && IsTime(ts[0]) && 1 <= j <= |ts|
    requires forall k | 1 <= k < j :: !IsTime(ts[k])
    requires j < |ts| ==> IsTime(ts[j])
    ensures Parse(ts, lastSpeaker) ==
      if j == |ts| then [] else
        var speaker := Or(LastSpeaker(ts[1..j]), lastSpeaker);
        var accepted := Accept(TimeOf(ts[0]), TimeOf(ts[j]), speaker);
        accepted + Parse(ts[j + 1..], if accepted != [] then speaker else lastSpeaker)
  {
    assert NextTime(ts, 1) == j;
  }

  lemma {:induction false} ParseSkip(ts: seq<Token>, lastSpeaker: Option<int>)
    ensures ts == [] ==> Parse(ts, lastSpeaker) == []
    ensures ts != [] && !IsTime(ts[0]) ==> Parse(ts, lastSpeaker) == Parse(ts[1..], lastSpeaker)
  {}

  lemma {:induction false} NoneHeard(tokens: seq<Token>, from: nat)
    requires from <= |tokens|
    ensures LastSpeaker(tokens[from..from]) == None
  {}

  lemma {:induction false} LastHeard(tokens: seq<Token>, from: nat, to: nat)
    requires from <= to < |tokens|
    ensures LastSpeaker(tokens[from..to + 1]) ==
      if IsSpeaker(tokens[to]) then Some(NumberOf(tokens[to])) else LastSpeaker(tokens[from..to])
  {
    assert tokens[from..to + 1][..to - from] == tokens[from..to];
  }

  /** The recursive reading, seen from a position in the whole text. */
  lemma {:induction false} ParseSkipAt(tokens: seq<Token>, index: nat, lastSpeaker: Option<int>)
    requires index <= |tokens|
    ensures index == |tokens| ==> Parse(tokens[index..], lastSpeaker) == []
    ensures index < |tokens| && !IsTime(tokens[index]) ==>
      Parse(tokens[index..], lastSpeaker) == Parse(tokens[index + 1..], lastSpeaker)
  {
    ParseSkip(tokens[index..], lastSpeaker);
    hide Parse;
    assert index < |tokens| ==> tokens[index..][1..] == tokens[index + 1..];
  }

  lemma {:induction false} ParseStepAt(tokens: seq<Token>, index: nat, next: nat, lastSpeaker: Option<int>)
    requires index < next <= |tokens| && IsTime(tokens[index])
    requires forall k | index < k < next :: !IsTime(tokens[k])
    requires next < |tokens| ==> IsTime(tokens[next])
    ensures Parse(tokens[index..], lastSpeaker) ==
      if next == |tokens| then [] else
        var speaker := Or(LastSpeaker(tokens[index + 1..next]), lastSpeaker);
        var accepted := Accept(TimeOf(tokens[index]), TimeOf(tokens[next]), speaker);
        accepted + Parse(tokens[next + 1..], if accepted != [] then speaker else lastSpeaker)
  {
    hide Parse, LastSpeaker;
    var rest := tokens[index..];
    assert forall k | 1 <= k < next - index :: rest[k] == tokens[index + k];
    ParseStep(rest, next - index, lastSpeaker);
    if next < |tokens| {
      assert rest[1..next - index] == tokens[index + 1..next];
      assert rest[next - index + 1..] == tokens[next + 1..];
    }
  }

  /** What the parser returns for a text. */
  function Read(ts: seq<Token>): seq<Segment> { Parse(Tags(ts, false), None) }

  method ParseSegments(tokens: seq<Token>) returns (segments: seq<Segment>)
    ensures segments == Read(tokens) && Proper(segments)
  {
    var tags := ReadTags(tokens);
    segments := PairTags(tags);
  }

  /** The second loop of the parser. */
  method PairTags(tokens: seq<Token>) returns (segments: seq<Segment>)
    ensures segments == Parse(tokens, None) && Proper(segments)
  {
    hide Parse, LastSpeaker, Proper, NumberOf;
    segments := [];
    var lastSpeaker: Option<int> := None;
    var index: nat := 0;
    assert tokens[0..] == tokens;
    while index < |tokens|
      invariant index <= |tokens|
      invariant segments + Parse(tokens[index..], lastSpeaker) == Parse(tokens, None)
    {
      ParseSkipAt(tokens, index, lastSpeaker);
      if !IsTime(tokens[index]) {
        index := index + 1;
        continue;
      }
      var nextIndex: nat := index + 1;
      var segmentSpeaker: Option<int> := None;
      NoneHeard(tokens, nextIndex);
      while nextIndex < |tokens| && !IsTime(tokens[nextIndex])
        invariant index < nextIndex <= |tokens|
        invariant forall k | index < k < nextIndex :: !IsTime(tokens[k])
        invariant segmentSpeaker == LastSpeaker(tokens[index + 1..nextIndex])
      {
        LastHeard(tokens, index + 1, nextIndex);
        if IsSpeaker(tokens[nextIndex]) {
          segmentSpeaker := Some(NumberOf(tokens[nextIndex]));
        }
        nextIndex := nextIndex + 1;
      }
      ParseStepAt(tokens, index, nextIndex, lastSpeaker);
      if nextIndex >= |tokens| {
        return;
      }
      var start, end := TimeOf(tokens[index]), TimeOf(tokens[nextIndex]);
      var speaker := Or(segmentSpeaker, lastSpeaker);
      if speaker.Some? && end > start {
        segments := segments + [Segment(start, end, speaker.value)];
        lastSpeaker := speaker;
      }
      index := nextIndex + 1;
    }
    ParseSkipAt(tokens, index, lastSpeaker);
  }

  // ---------- the clip merger ----------

  /** One match of the merger's pattern: [time][Sn]...[time], the text running to the next time. */
  datatype Group = Group(start: int, speaker: int, inner: seq<Token>, end: int)

  /** Index of the first tight time tag at or after i, or the length. */
  function NextTight(ts: seq<Token>, i: nat): (j: nat)
    requires i <= |ts|
    ensures i <= j <= |ts|
    ensures forall k | i <= k < j :: !ts[k].Time?
    ensures j < |ts| ==> ts[j].Time?
    decreases |ts| - i
  {
    if i == |ts| || ts[i].Time? then i else NextTight(ts, i + 1)
  }

  /** finditer: matches from left to right, each search starting where the last match ended. */
  function Groups(ts: seq<Token>): seq<Group>
    decreases |ts|
  {
    if |ts| < 3 then []
    else if !(ts[0].Time? && ts[1].Speaker?) || NextTight(ts, 2) == |ts| then Groups(ts[1..])
    else
      var j := NextTight(ts, 2);
      [Group(ts[0].at, ts[1].number, ts[2..j], ts[j].at)] + Groups(ts[j + 1..])
  }

  function MaxSpeaker(gs: seq<Group>): int {
    if gs == [] then 0 else
      var m, s := MaxSpeaker(gs[..|gs| - 1]), gs[|gs| - 1].speaker;
      if s > m then s else m
  }

  datatype Clip = Clip(text: seq<Token>, offset: int, keepUntil: Option<int>)

  predicate Dropped(clip: Clip, g: Group) { clip.keepUntil.Some? && g.end > clip.keepUntil.value }

  /** The groups one clip contributes: kept, shifted by its offset and relabelled. */
  function Relabelled(clip: Clip, gs: seq<Group>, base: int): seq<Group> {
    if gs == [] then [] else
      var g := gs[|gs| - 1];
      Relabelled(clip, gs[..|gs| - 1], base) +
      if Dropped(clip, g) then []
      else [Group(g.start + clip.offset, g.speaker + base, g.inner, g.end + clip.offset)]
  }

  /** Speaker labels already used by the clips before. */
  function Base(clips: seq<Clip>): int {
    if clips == [] then 0 else Base(clips[..|clips| - 1]) + MaxSpeaker(Groups(clips[|clips| - 1].text))
  }

  function AllGroups(clips: seq<Clip>): seq<Group> {
    if clips == [] then [] else
      var front, last := clips[..|clips| - 1], clips[|clips| - 1];
      AllGroups(front) + Relabelled(last, Groups(last.text), Base(front))
  }

  function Print(g: Group): seq<Token> { [Time(g.start), Speaker(g.speaker)] + g.inner + [Time(g.end)] }

  function PrintAll(gs: seq<Group>): seq<Token> {
    if gs == [] then [] else PrintAll(gs[..|gs| - 1]) + Print(gs[|gs| - 1])
  }

  lemma {:induction false} PrintConcat(xs: seq<Group>, ys: seq<Group>)
    ensures PrintAll(xs + ys) == PrintAll(xs) + PrintAll(ys)
  {
    if ys == [] {
      assert xs + ys == xs;
    } else {
      assert (xs + ys)[..|xs + ys| - 1] == xs + ys[..|ys| - 1];
      PrintConcat(xs, ys[..|ys| - 1]);
    }
  }

  datatype MergeResult = NoSegments | Merged(tokens: seq<Token>)

  /** Every clip must name some speaker above 0, otherwise the whole merge is an error. */
  ghost predicate AllSpeak(clips: seq<Clip>) {
    forall k | 0 <= k < |clips| :: MaxSpeaker(Groups(clips[k].text)) != 0
  }

  lemma {:induction false} MergeStep(clips: seq<Clip>, c: nat)
    requires c < |clips|
    ensures Base(clips[..c + 1]) == Base(clips[..c]) + MaxSpeaker(Groups(clips[c].text))
    ensures PrintAll(AllGroups(clips[..c + 1])) ==
      PrintAll(AllGroups(clips[..c])) + PrintAll(Relabelled(clips[c], Groups(clips[c].text), Base(clips[..c])))
    ensures MaxSpeaker(Groups(clips[c].text)) == 0 ==> !AllSpeak(clips)
    ensures MaxSpeaker(Groups(clips[c].text)) != 0 && AllSpeak(clips[..c]) ==> AllSpeak(clips[..c + 1])
  {
    hide Groups, PrintAll, MaxSpeaker, Relabelled;
    OneMore(clips[..c + 1], clips[..c], clips[c]);
    hide AllGroups, Base;
    PrintConcat(AllGroups(clips[..c]), Relabelled(clips[c], Groups(clips[c].text), Base(clips[..c])));
  }

  lemma {:induction false} OneMore(clips: seq<Clip>, front: seq<Clip>, last: Clip)
    requires clips == front + [last]
    ensures Base(clips) == Base(front) + MaxSpeaker(Groups(last.text))
    ensures AllGroups(clips) == AllGroups(front) + Relabelled(last, Groups(last.text), Base(front))
  {
    hide Groups, MaxSpeaker, Relabelled;
    assert clips[..|clips| - 1] == front;
  }

  method MergeConcatReferences(clips: seq<Clip>) returns (result: MergeResult)
    ensures result == if AllSpeak(clips) then Merged(PrintAll(AllGroups(clips))) else NoSegments
  {
    assert PrintAll(AllGroups([])) == [] && Base([]) == 0 && AllSpeak([]);
    hide *;
    var merged: seq<Token> := [];
    var speakerBase := 0;
    for c := 0 to |clips|
      invariant merged == PrintAll(AllGroups(clips[..c])) && speakerBase == Base(clips[..c])
      invariant AllSpeak(clips[..c])
    {
      var maxSpeaker, printed := PrintClip(clips[c], speakerBase);
      MergeStep(clips, c);
      merged := merged + printed;
      if maxSpeaker == 0 {
        return NoSegments;
      }
      speakerBase := speakerBase + maxSpeaker;
    }
    assert clips[..|clips|] == clips;
    result := Merged(merged);
  }

  lemma {:induction false} NoMatches(clip: Clip, base: int)
    ensures PrintAll(Relabelled(clip, [], base)) == [] && MaxSpeaker([]) == 0
  {}

  lemma {:induction false} ClipStep(clip: Clip, gs: seq<Group>, base: int, k: nat)
    requires k < |gs|
    ensures MaxSpeaker(gs[..k + 1]) == if gs[k].speaker > MaxSpeaker(gs[..k]) then gs[k].speaker else MaxSpeaker(gs[..k])
    ensures PrintAll(Relabelled(clip, gs[..k + 1], base)) ==
      PrintAll(Relabelled(clip, gs[..k], base)) +
      if Dropped(clip, gs[k]) then []
      else Print(Group(gs[k].start + clip.offset, gs[k].speaker + base, gs[k].inner, gs[k].end + clip.offset))
  {
    assert gs[..k + 1][..k] == gs[..k];
    var moved := Group(gs[k].start + clip.offset, gs[k].speaker + base, gs[k].inner, gs[k].end + clip.offset);
    var before := Relabelled(clip, gs[..k], base);
    assert (before + [moved])[..|before|] == before;
    assert before + [] == before;
  }

  /** The inner loop: one clip's matches, and the largest label among all of them. */
  method PrintClip(clip: Clip, speakerBase: int) returns (maxSpeaker: int, printed: seq<Token>)
    ensures maxSpeaker == MaxSpeaker(Groups(clip.text))
    ensures printed == PrintAll(Relabelled(clip, Groups(clip.text), speakerBase))
  {
    hide *;
    NoMatches(clip, speakerBase);
    var groups := Groups(clip.text);
    maxSpeaker, printed := 0, [];
    for k := 0 to |groups|
      invariant maxSpeaker == MaxSpeaker(groups[..k])
      invariant printed == PrintAll(Relabelled(clip, groups[..k], speakerBase))
    {
      ClipStep(clip, groups, speakerBase, k);
      var g := groups[k];
      maxSpeaker := if g.speaker > maxSpeaker then g.speaker else maxSpeaker;
      if Dropped(clip, g) {
        continue;
      }
      printed := printed + Print(Group(g.start + clip.offset, g.speaker + speakerBase, g.inner, g.end + clip.offset));
    }
    assert groups[..|groups|] == groups;
  }

  // ---------- the round trip ----------

  ghost predicate Untimed(ts: seq<Token>) { forall k | 0 <= k < |ts| :: !IsTime(ts[k]) }

  /** In no matched text does the parser see a time. */
  ghost predicate UntimedGroups(gs: seq<Group>) { forall g | g in gs :: Untimed(Tags(g.inner, false)) }

  /** No matched text leaves a bracket open, which would hide its closing time from the parser. */
  ghost predicate ClosedGroups(gs: seq<Group>) { forall g | g in gs :: !LeftOpen(g.inner, false) }

  ghost predicate PositiveGroups(gs: seq<Group>) { forall g | g in gs :: g.end > g.start }

  /** The parser listens to the last speaker tag it sees before the closing time. */
  function Voice(g: Group): int { Or(LastSpeaker(Tags(g.inner, false)), Some(g.speaker)).value }

  /** The matches of positive length as segments. */
  function SegmentsOf(gs: seq<Group>): seq<Segment> {
    if gs == [] then []
    else (if gs[0].end > gs[0].start then [Segment(gs[0].start, gs[0].end, gs[0].speaker)] else []) + SegmentsOf(gs[1..])
  }

  function Heard(gs: seq<Group>): seq<Segment> {
    if gs == [] then [] else Accept(gs[0].start, gs[0].end, Some(Voice(gs[0]))) + Heard(gs[1..])
  }

  /** The tags of one printed match, and what follows it starts outside any bracket. */
  lemma {:induction false} PrintedTags(g: Group)
    ensures Tags(Print(g), false) ==
      [Time(g.start), Speaker(g.speaker)] + Tags(g.inner, false) + if LeftOpen(g.inner, false) then [] else [Time(g.end)]
    ensures !LeftOpen(Print(g), false)
  {
    var head, tail := [Time(g.start), Speaker(g.speaker)], [Time(g.end)];
    TagsConcat(head + g.inner, tail, false);
    TagsConcat(head, g.inner, false);
    assert head[1..][1..] == [] && tail[1..] == [];
    assert Tags(head, false) == [head[0]] + ([head[1]] + Tags([], false)) == head && !LeftOpen(head, false);
    assert Tags(tail, false) == [tail[0]] + Tags([], false) == tail && Tags(tail, true) == [] + Tags([], false) == [];
  }

  lemma {:induction false} TagsOfFirst(gs: seq<Group>)
    requires gs != []
    ensures Tags(PrintAll(gs), false) == Tags(Print(gs[0]), false) + Tags(PrintAll(gs[1..]), false)
  {
    assert gs == [gs[0]] + gs[1..];
    PrintConcat([gs[0]], gs[1..]);
    assert [gs[0]][..0] == [] && PrintAll([gs[0]]) == PrintAll([]) + Print(gs[0]) == Print(gs[0]);
    hide PrintAll, Print;
    PrintedTags(gs[0]);
    TagsConcat(Print(gs[0]), PrintAll(gs[1..]), false);
  }

  /** One [time][speaker]...[time] parses to its segment, whatever follows and whoever spoke last. */
  lemma {:induction false} ParseGroup(ts: seq<Token>, g: Group, rest: seq<Token>, last: Option<int>) returns (next: Option<int>)
    requires ts == [Time(g.start), Speaker(g.speaker)] + Tags(g.inner, false) + [Time(g.end)] + rest
    requires Untimed(Tags(g.inner, false))
    ensures Parse(ts, last) == Accept(g.start, g.end, Some(Voice(g))) + Parse(rest, next)
  {
    hide Parse, LastSpeaker, Tags;
    var inner := Tags(g.inner, false);
    var j := |inner| + 2;
    forall k | 1 <= k < j ensures !IsTime(ts[k]) {
      if k > 1 { assert ts[k] == inner[k - 2]; }
    }
    assert ts[j] == Time(g.end);
    ParseStep(ts, j, last);
    assert ts[1..j] == [Speaker(g.speaker)] + inner;
    SpeakerFirst(g.speaker, inner);
    assert ts[j + 1..] == rest;
    next := if Accept(g.start, g.end, Some(Voice(g))) != [] then Some(Voice(g)) else last;
  }

  lemma {:induction false} SpeakerFirst(number: int, inner: seq<Token>)
    ensures LastSpeaker([Speaker(number)] + inner) == Or(LastSpeaker(inner), Some(number))
  {
    var ts := [Speaker(number)] + inner;
    if inner != [] {
      assert ts[..|ts| - 1] == [Speaker(number)] + inner[..|inner| - 1];
      SpeakerFirst(number, inner[..|inner| - 1]);
    } else {
      assert ts[..|ts| - 1] == [];
    }
  }

  lemma {:induction false} ParseAll(gs: seq<Group>, last: Option<int>)
    requires UntimedGroups(gs) && ClosedGroups(gs)
    ensures Parse(Tags(PrintAll(gs), false), last) == Heard(gs)
  {
    if gs != [] {
      TagsOfFirst(gs);
      PrintedTags(gs[0]);
      assert gs[0] in gs && forall g | g in gs[1..] :: g in gs;
      hide Tags, PrintAll, Parse;
      var next := ParseGroup(Tags(PrintAll(gs), false), gs[0], Tags(PrintAll(gs[1..]), false), last);
      ParseAll(gs[1..], next);
    }
  }

  // ---------- counting times ----------

  function TimeCount(ts: seq<Token>): nat { if ts == [] then 0 else TimeCount(ts[1..]) + if IsTime(ts[0]) then 1 else 0 }

  lemma {:induction false} TimeCountConcat(a: seq<Token>, b: seq<Token>)
    ensures TimeCount(a + b) == TimeCount(a) + TimeCount(b)
  {
    if a == [] {
      assert a + b == b;
    } else {
      assert (a + b)[1..] == a[1..] + b;
      TimeCountConcat(a[1..], b);
    }
  }

  lemma {:induction false} NoTimes(ts: seq<Token>)
    requires Untimed(ts)
    ensures TimeCount(ts) == 0
  {
    if ts != [] { NoTimes(ts[1..]); }
  }

  /** Every segment takes two times. */
  lemma {:induction false} TwoTimesEach(ts: seq<Token>, last: Option<int>)
    ensures 2 * |Parse(ts, last)| <= TimeCount(ts)
    decreases |ts|
  {
    if ts != [] {
      if !IsTime(ts[0]) {
        TwoTimesEach(ts[1..], last);
      } else {
        var j := NextTime(ts, 1);
        if j < |ts| {
          var speaker := Or(LastSpeaker(ts[1..j]), last);
          var accepted := Accept(TimeOf(ts[0]), TimeOf(ts[j]), speaker);
          TwoTimesEach(ts[j + 1..], if accepted != [] then speaker else last);
          assert ts == [ts[0]] + ts[1..j] + [ts[j]] + ts[j + 1..];
          hide Parse, NextTime, LastSpeaker;
          TimeCountConcat([ts[0]] + ts[1..j] + [ts[j]], ts[j + 1..]);
          TimeCountConcat([ts[0]] + ts[1..j], [ts[j]]);
          TimeCountConcat([ts[0]], ts[1..j]);
          ParseStep(ts, j, last);
        }
      }
    }
  }

  /** A match that leaves a bracket open shows the parser one time instead of two. */
  lemma {:induction false} TimesShown(gs: seq<Group>)
    requires UntimedGroups(gs)
    ensures TimeCount(Tags(PrintAll(gs), false)) <= 2 * |gs|
    ensures !ClosedGroups(gs) ==> TimeCount(Tags(PrintAll(gs), false)) < 2 * |gs|
  {
    if gs != [] {
      var g, rest := gs[0], gs[1..];
      assert g in gs && forall h | h in rest :: h in gs;
      assert forall h | h in gs :: h == g || h in rest;
      TagsOfFirst(gs);
      hide Tags, PrintAll, TimeCount;
      TimesOfOne(g);
      TimesShown(rest);
      TimeCountConcat(Tags(Print(g), false), Tags(PrintAll(rest), false));
    } else {
      assert PrintAll(gs) == [] && Tags([], false) == [];
    }
  }

  lemma {:induction false} TimesOfOne(g: Group)
    requires Untimed(Tags(g.inner, false))
    ensures TimeCount(Tags(Print(g), false)) == if LeftOpen(g.inner, false) then 1 else 2
  {
    PrintedTags(g);
    var head, inner := [Time(g.start), Speaker(g.speaker)], Tags(g.inner, false);
    var tail := if LeftOpen(g.inner, false) then [] else [Time(g.end)];
    NoTimes([Speaker(g.speaker)]);
    assert head[1..] == [Speaker(g.speaker)] && TimeCount(head) == TimeCount(head[1..]) + 1;
    assert TimeCount(tail) == |tail| by { assert tail != [] ==> tail[1..] == []; }
    NoTimes(inner);
    hide TimeCount, Tags;
    TimeCountConcat(head + inner, tail);
    TimeCountConcat(head, inner);
  }

  lemma {:induction false} OneSegmentEach(gs: seq<Group>)
    requires PositiveGroups(gs)
    ensures |SegmentsOf(gs)| == |gs|
    ensures forall k | 0 <= k < |gs| :: SegmentsOf(gs)[k] == Segment(gs[k].start, gs[k].end, gs[k].speaker)
  {
    if gs != [] {
      assert gs[0] in gs && forall g | g in gs[1..] :: g in gs;
      OneSegmentEach(gs[1..]);
      var segs, rest := SegmentsOf(gs), SegmentsOf(gs[1..]);
      assert segs == [Segment(gs[0].start, gs[0].end, gs[0].speaker)] + rest;
      hide SegmentsOf, PositiveGroups;
      forall k | 0 < k < |gs| ensures segs[k] == Segment(gs[k].start, gs[k].end, gs[k].speaker) {
        assert segs[k] == rest[k - 1] && gs[k] == gs[1..][k - 1];
      }
    }
  }

  // ---------- the round trip, exactly ----------

  /** Each group of positive length is heard under its own label. */
  ghost predicate OwnVoices(gs: seq<Group>) {
    forall k | 0 <= k < |gs| && gs[k].end > gs[k].start :: Voice(gs[k]) == gs[k].speaker
  }

  lemma {:induction false} HeardIffOwnVoices(gs: seq<Group>)
    ensures Heard(gs) == SegmentsOf(gs) <==> OwnVoices(gs)
    ensures |Heard(gs)| == |SegmentsOf(gs)|
  {
    if gs != [] {
      HeardIffOwnVoices(gs[1..]);
      var h, e := Accept(gs[0].start, gs[0].end, Some(Voice(gs[0]))), Accept(gs[0].start, gs[0].end, Some(gs[0].speaker));
      if Heard(gs) == SegmentsOf(gs) {
        assert h == Heard(gs)[..|h|] == SegmentsOf(gs)[..|h|] == e;
        assert Heard(gs)[|h|..] == Heard(gs[1..]) && SegmentsOf(gs)[|h|..] == SegmentsOf(gs[1..]);
      }
      assert OwnVoices(gs) <==> OwnVoices(gs[1..]) && (gs[0].end > gs[0].start ==> Voice(gs[0]) == gs[0].speaker) by {
        assert forall k | 0 <= k < |gs| - 1 :: gs[1..][k] == gs[k + 1];
        assert forall k | 0 < k < |gs| :: gs[k] == gs[1..][k - 1];
      }
    }
  }

  /** Merge, then parse, where the parser sees no time inside a kept match.  If no kept match leaves a
      bracket open, the result is exactly the kept matches, shifted and relabelled, if and only if
      each is heard under its own label; if all kept matches have positive length, it is so if and
      only if moreover none leaves a bracket open. */
  lemma {:induction false} MergeThenParse(clips: seq<Clip>)
    requires UntimedGroups(AllGroups(clips))
    ensures ClosedGroups(AllGroups(clips)) ==>
      (Read(PrintAll(AllGroups(clips))) == SegmentsOf(AllGroups(clips)) <==> OwnVoices(AllGroups(clips)))
    ensures PositiveGroups(AllGroups(clips)) ==>
      (Read(PrintAll(AllGroups(clips))) == SegmentsOf(AllGroups(clips)) <==>
        ClosedGroups(AllGroups(clips)) && OwnVoices(AllGroups(clips)))
  {
    var gs := AllGroups(clips);
    var tags := Tags(PrintAll(gs), false);
    assert Read(PrintAll(gs)) == Parse(tags, None);
    hide *;
    if ClosedGroups(gs) {
      ParseAll(gs, None);
      HeardIffOwnVoices(gs);
    } else if PositiveGroups(gs) {
      TimesShown(gs);
      TwoTimesEach(tags, None);
      OneSegmentEach(gs);
    }
  }

  /** One match of the pattern, and what follows it. */
  lemma {:induction false} FirstGroup(ts: seq<Token>, g: Group, rest: seq<Token>)
    requires ts == [Time(g.start), Speaker(g.speaker)] + g.inner + [Time(g.end)] + rest
    requires forall k | 0 <= k < |g.inner| :: !g.inner[k].Time?
    ensures Groups(ts) == [g] + Groups(rest)
  {
    var j := |g.inner| + 2;
    assert forall k | 2 <= k < j :: ts[k] == g.inner[k - 2];
    assert ts[j] == Time(g.end);
    assert NextTight(ts, 2) == j;
    assert ts[2..j] == g.inner && ts[j + 1..] == rest;
  }

  lemma {:induction false} NoGroups()
    ensures Groups([]) == [] && MaxSpeaker([]) == 0 && AllGroups([]) == []
    ensures forall clip, base :: Relabelled(clip, [], base) == []
  {}

  lemma {:induction false} MoreGroups(clip: Clip, front: seq<Group>, g: Group, base: int)
    ensures MaxSpeaker(front + [g]) == if g.speaker > MaxSpeaker(front) then g.speaker else MaxSpeaker(front)
    ensures Relabelled(clip, front + [g], base) == Relabelled(clip, front, base) +
      if Dropped(clip, g) then [] else [Group(g.start + clip.offset, g.speaker + base, g.inner, g.end + clip.offset)]
  {
    assert (front + [g])[..|front|] == front;
  }

  /** A text that is a single match around one token, as a merge of one clip. */
  lemma {:induction false} OneMatch(g: Group, clips: seq<Clip>)
    requires |g.inner| == 1 && !g.inner[0].Time? && g.speaker > 0
    requires clips == [Clip([Time(g.start), Speaker(g.speaker), g.inner[0], Time(g.end)], 0, None)]
    ensures AllSpeak(clips) && Groups(clips[0].text) == [g] && AllGroups(clips) == [g]
  {
    hide *;
    var text := clips[0].text;
    NoGroups();
    assert text == [Time(g.start), Speaker(g.speaker)] + g.inner + [Time(g.end)] + [];
    FirstGroup(text, g, []);
    MoreGroups(clips[0], [], g, 0);
    assert [] + [g] == [g];
    KeepsAll(clips[0], g);
    OneClip(clips, g);
  }

  /** What the parser sees of a text that is a single match. */
  lemma {:induction false} ReadOneMatch(g: Group)
    ensures Read(PrintAll([g])) == Parse(Tags(Print(g), false), None)
    ensures SegmentsOf([g]) == Accept(g.start, g.end, Some(g.speaker))
  {
    assert [g][..0] == [] && [g][1..] == [] && PrintAll([g]) == PrintAll([]) + Print(g) == Print(g);
    assert SegmentsOf([g]) == Accept(g.start, g.end, Some(g.speaker)) + SegmentsOf([]);
  }

  lemma {:induction false} OneTag(t: Token)
    ensures Tags([t], false) == if IsTime(t) || IsSpeaker(t) then [t] else []
    ensures LeftOpen([t], false) == t.Open?
  {
    assert [t][1..] == [];
  }

  /** A second speaker tag inside a matched text keeps its old number and takes the segment over,
      whatever the two numbers and times are. */
  lemma {:induction false} InnerTagTakesOver(start: int, speaker: int, inner: int, end: int) returns (clips: seq<Clip>)
    requires start < end && speaker > 0 && inner != speaker
    ensures clips == [Clip([Time(start), Speaker(speaker), Speaker(inner), Time(end)], 0, None)] && AllSpeak(clips)
    ensures UntimedGroups(AllGroups(clips)) && ClosedGroups(AllGroups(clips))
    ensures Read(PrintAll(AllGroups(clips))) != SegmentsOf(AllGroups(clips))
  {
    var g := Group(start, speaker, [Speaker(inner)], end);
    clips := [Clip([Time(start), Speaker(speaker), Speaker(inner), Time(end)], 0, None)];
    hide *;
    OneMatch(g, clips);
    OtherVoice(g, inner);
    MergeThenParse(clips);
  }

  lemma {:induction false} OtherVoice(g: Group, inner: int)
    requires g.inner == [Speaker(inner)] && inner != g.speaker && g.start < g.end
    ensures UntimedGroups([g]) && ClosedGroups([g]) && !OwnVoices([g])
  {
    OneTag(Speaker(inner));
    assert [g][0] == g && LastSpeaker(g.inner) == Some(inner);
    hide Tags, LeftOpen, LastSpeaker;
  }

  /** A time inside a matched text in a form only the parser reads, as in "[ 5 ]", cuts the segment
      short although the match is closed and heard under its own label. */
  lemma {:induction false} LooseTimeCutsShort(start: int, speaker: int, middle: int, end: int) returns (clips: seq<Clip>)
    requires start < end && speaker > 0 && middle != end
    ensures clips == [Clip([Time(start), Speaker(speaker), LooseTime(middle), Time(end)], 0, None)] && AllSpeak(clips)
    ensures ClosedGroups(AllGroups(clips)) && OwnVoices(AllGroups(clips))
    ensures Read(PrintAll(AllGroups(clips))) != SegmentsOf(AllGroups(clips))
  {
    var g := Group(start, speaker, [LooseTime(middle)], end);
    clips := [Clip([Time(start), Speaker(speaker), LooseTime(middle), Time(end)], 0, None)];
    hide *;
    OneMatch(g, clips);
    CutShort(g, middle);
  }

  lemma {:induction false} CutShort(g: Group, middle: int)
    requires g.inner == [LooseTime(middle)] && g.start < g.end && middle != g.end
    ensures ClosedGroups([g]) && OwnVoices([g]) && Read(PrintAll([g])) != SegmentsOf([g])
  {
    OneTag(LooseTime(middle));
    ReadOneMatch(g);
    PrintedTags(g);
    assert LastSpeaker(g.inner) == LastSpeaker(g.inner[..0]) == None && [g][0] == g;
    hide Parse, PrintAll, SegmentsOf, Tags, LeftOpen, Read, LastSpeaker;
    assert Tags(Print(g), false) == [Time(g.start), Speaker(g.speaker), LooseTime(middle), Time(g.end)];
    EarlyEnd(g.start, g.speaker, middle, g.end);
  }

  lemma {:induction false} EarlyEnd(start: int, speaker: int, middle: int, end: int)
    requires start < end && middle != end
    ensures Parse([Time(start), Speaker(speaker), LooseTime(middle), Time(end)], None) != Accept(start, end, Some(speaker))
  {
    var ts := [Time(start), Speaker(speaker), LooseTime(middle), Time(end)];
    hide Parse, LastSpeaker;
    var heard := Or(LastSpeaker(ts[1..2]), None);
    var got := Accept(start, middle, heard);
    NoTail(ts[3..], if got != [] then heard else None);
    ParseStep(ts, 2, None);
    assert Parse(ts, None) == got + [] == got;
    assert got != [] ==> got[0].end == middle;
    assert Accept(start, end, Some(speaker))[0].end == end;
  }

  lemma {:induction false} NoTail(ts: seq<Token>, last: Option<int>)
    requires |ts| == 1
    ensures Parse(ts, last) == []
  {
    ParseSkip(ts, last);
    ParseSkip(ts[1..], last);
    hide Parse;
    if IsTime(ts[0]) { ParseStep(ts, 1, last); }
  }

  /** An opening bracket left open inside a matched text, as in "a [ b", hides the closing time from
      the parser: the segment is lost, although the text holds neither a time nor a speaker tag. */
  lemma {:induction false} OpenBracketLosesSegment(start: int, speaker: int, end: int) returns (clips: seq<Clip>)
    requires start < end && speaker > 0
    ensures clips == [Clip([Time(start), Speaker(speaker), Open, Time(end)], 0, None)] && AllSpeak(clips)
    ensures UntimedGroups(AllGroups(clips)) && OwnVoices(AllGroups(clips)) && PositiveGroups(AllGroups(clips))
    ensures Read(PrintAll(AllGroups(clips))) != SegmentsOf(AllGroups(clips))
  {
    var g := Group(start, speaker, [Open], end);
    clips := [Clip([Time(start), Speaker(speaker), Open, Time(end)], 0, None)];
    hide *;
    OneMatch(g, clips);
    HiddenEnd(g);
    MergeThenParse(clips);
  }

  lemma {:induction false} HiddenEnd(g: Group)
    requires g.inner == [Open] && g.start < g.end
    ensures UntimedGroups([g]) && !ClosedGroups([g]) && OwnVoices([g]) && PositiveGroups([g])
  {
    OneTag(Open);
    assert [g][0] == g && LastSpeaker([]) == None;
    hide Tags, LeftOpen, LastSpeaker;
    assert g in [g];
  }

  lemma {:induction false} KeepsAll(clip: Clip, g: Group)
    requires clip.keepUntil == None && clip.offset == 0
    ensures !Dropped(clip, g) && Group(g.start + clip.offset, g.speaker + 0, g.inner, g.end + clip.offset) == g
  {}

  lemma {:induction false} OneClip(clips: seq<Clip>, g: Group)
    requires |clips| == 1 && Groups(clips[0].text) == [g] && Relabelled(clips[0], [g], 0) == [g] && MaxSpeaker([g]) != 0
    ensures AllSpeak(clips) && AllGroups(clips) == [g]
  {
    hide Groups, Relabelled, MaxSpeaker;
    assert clips[..0] == [];
    assert AllGroups(clips) == AllGroups([]) + [g];
  }

  // ---------- clips never share a speaker ----------

  /** A kept match of the clip carries this label, before any relabelling. */
  ghost predicate Keeps(clip: Clip, tag: int) { KeepsAmong(clip, Groups(clip.text), tag) }

  ghost predicate KeepsAmong(clip: Clip, gs: seq<Group>, tag: int) {
    exists g :: g in gs && !Dropped(clip, g) && g.speaker == tag
  }

  /** The labels one clip contributes are its kept labels moved by the base. */
  lemma {:induction false} PrintedLabels(clip: Clip, gs: seq<Group>, base: int, tag: int)
    ensures (exists g :: g in Relabelled(clip, gs, base) && g.speaker == tag) <==> KeepsAmong(clip, gs, tag - base)
  {
    if gs != [] {
      var front, g := gs[..|gs| - 1], gs[|gs| - 1];
      PrintedLabels(clip, front, base, tag);
      assert forall x :: x in gs <==> x in front || x == g;
      var moved := Group(g.start + clip.offset, g.speaker + base, g.inner, g.end + clip.offset);
      assert forall x :: x in Relabelled(clip, gs, base) <==>
        x in Relabelled(clip, front, base) || (!Dropped(clip, g) && x == moved);
      hide Relabelled;
      assert moved.speaker == tag <==> g.speaker == tag - base;
    }
  }

  lemma {:induction false} BelowMax(gs: seq<Group>)
    ensures MaxSpeaker(gs) >= 0 && forall g | g in gs :: g.speaker <= MaxSpeaker(gs)
    ensures MaxSpeaker(gs) == 0 || exists g :: g in gs && g.speaker == MaxSpeaker(gs)
  {
    if gs != [] {
      BelowMax(gs[..|gs| - 1]);
      assert forall g | g in gs :: g in gs[..|gs| - 1] || g == gs[|gs| - 1];
    }
  }

  /** The base grows by each clip's largest label, hence by at least one for each clip. */
  lemma {:induction false} BaseGrows(clips: seq<Clip>, a: nat, b: nat)
    requires a < b <= |clips| && AllSpeak(clips)
    ensures Base(clips[..b]) >= Base(clips[..a]) + MaxSpeaker(Groups(clips[a].text)) + (b - a - 1)
    ensures b == a + 1 ==> Base(clips[..b]) == Base(clips[..a]) + MaxSpeaker(Groups(clips[a].text))
  {
    BaseNext(clips, b - 1);
    hide *;
    if a < b - 1 { BaseGrows(clips, a, b - 1); }
  }

  lemma {:induction false} BaseNext(clips: seq<Clip>, k: nat)
    requires k < |clips| && AllSpeak(clips)
    ensures Base(clips[..k + 1]) == Base(clips[..k]) + MaxSpeaker(Groups(clips[k].text))
    ensures MaxSpeaker(Groups(clips[k].text)) >= 1
  {
    hide MaxSpeaker, Groups, Base;
    BelowMax(Groups(clips[k].text));
    assert clips[..k + 1] == clips[..k] + [clips[k]];
    OneMore(clips[..k + 1], clips[..k], clips[k]);
  }

  /** What clip k contributes to the merged text. */
  function Printed(clips: seq<Clip>, k: nat): seq<Group>
    requires k < |clips|
  { Relabelled(clips[k], Groups(clips[k].text), Base(clips[..k])) }

  lemma {:induction false} PrintedKeeps(clips: seq<Clip>, k: nat, g: Group)
    requires k < |clips| && g in Printed(clips, k)
    ensures Keeps(clips[k], g.speaker - Base(clips[..k]))
  {
    hide Base, Groups, Relabelled, KeepsAmong;
    PrintedLabels(clips[k], Groups(clips[k].text), Base(clips[..k]), g.speaker);
  }

  lemma {:induction false} KeepsPrinted(clips: seq<Clip>, k: nat, tag: int) returns (g: Group)
    requires k < |clips| && Keeps(clips[k], tag)
    ensures g in Printed(clips, k) && g.speaker == tag + Base(clips[..k])
  {
    hide Base, Groups, Relabelled, KeepsAmong;
    var printed := tag + Base(clips[..k]);
    PrintedLabels(clips[k], Groups(clips[k].text), Base(clips[..k]), printed);
    g :| g in Printed(clips, k) && g.speaker == printed;
  }

  lemma {:induction false} KeptBounds(clip: Clip, tag: int)
    requires Keeps(clip, tag)
    ensures tag <= MaxSpeaker(Groups(clip.text))
    ensures (forall g | g in Groups(clip.text) :: g.speaker >= 0) ==> tag >= 0
  {
    BelowMax(Groups(clip.text));
    hide Groups, MaxSpeaker;
  }

  /** Both clips contribute a group with the same speaker label. */
  ghost predicate ShareLabel(clips: seq<Clip>, a: nat, b: nat)
    requires a < |clips| && b < |clips|
  { exists g, h :: g in Printed(clips, a) && h in Printed(clips, b) && g.speaker == h.speaker }

  /** Exactly when two clips share a speaker label: they are neighbours, the later one keeps a match
      labelled 0, and the earlier one keeps a match with its own largest label. */
  lemma {:induction false} ClipsShareSpeakerIff(clips: seq<Clip>, a: nat, b: nat)
    requires a < b < |clips| && AllSpeak(clips)
    requires forall g | g in Groups(clips[b].text) :: g.speaker >= 0
    ensures ShareLabel(clips, a, b) <==>
      b == a + 1 && Keeps(clips[b], 0) && Keeps(clips[a], MaxSpeaker(Groups(clips[a].text)))
  {
    hide Keeps, AllSpeak, Base, Groups, MaxSpeaker, Printed;
    if ShareLabel(clips, a, b) {
      var g, h :| g in Printed(clips, a) && h in Printed(clips, b) && g.speaker == h.speaker;
      SharingForces(clips, a, b, g, h);
    }
    if b == a + 1 && Keeps(clips[b], 0) && Keeps(clips[a], MaxSpeaker(Groups(clips[a].text))) {
      SharingArises(clips, a);
    }
  }

  lemma {:induction false} SharingForces(clips: seq<Clip>, a: nat, b: nat, g: Group, h: Group)
    requires a < b < |clips| && AllSpeak(clips) && g.speaker == h.speaker
    requires forall x | x in Groups(clips[b].text) :: x.speaker >= 0
    requires g in Printed(clips, a) && h in Printed(clips, b)
    ensures b == a + 1 && Keeps(clips[b], 0) && Keeps(clips[a], MaxSpeaker(Groups(clips[a].text)))
  {
    hide *;
    BaseGrows(clips, a, b);
    LabelsAscend(clips, a, b, g, h);
    PrintedKeeps(clips, a, g);
    PrintedKeeps(clips, b, h);
    KeptBounds(clips[a], g.speaker - Base(clips[..a]));
  }

  lemma {:induction false} SharingArises(clips: seq<Clip>, a: nat)
    requires a + 1 < |clips| && AllSpeak(clips)
    requires Keeps(clips[a + 1], 0) && Keeps(clips[a], MaxSpeaker(Groups(clips[a].text)))
    ensures ShareLabel(clips, a, a + 1)
  {
    hide Keeps, AllSpeak, Base, Groups, MaxSpeaker, Printed;
    BaseGrows(clips, a, a + 1);
    var g := KeepsPrinted(clips, a, MaxSpeaker(Groups(clips[a].text)));
    var h := KeepsPrinted(clips, a + 1, 0);
  }

  /** The merged labels never decrease from clip to clip. */
  lemma {:induction false} LabelsAscend(clips: seq<Clip>, a: nat, b: nat, g: Group, h: Group)
    requires a < b < |clips| && AllSpeak(clips)
    requires forall x | x in Groups(clips[b].text) :: x.speaker >= 0
    requires g in Printed(clips, a) && h in Printed(clips, b)
    ensures g.speaker <= Base(clips[..b]) <= h.speaker
  {
    hide *;
    BaseGrows(clips, a, b);
    PrintedKeeps(clips, a, g);
    PrintedKeeps(clips, b, h);
    KeptBounds(clips[a], g.speaker - Base(clips[..a]));
    KeptBounds(clips[b], h.speaker - Base(clips[..b]));
  }

  /** Label 0 is accepted beside others and then coincides with a label of the clip before. */
  lemma {:induction false} LabelZeroCollides() returns (clips: seq<Clip>)
    ensures |clips| == 2 && AllSpeak(clips) && ShareLabel(clips, 0, 1)
    ensures forall k, g | 0 <= k < |clips| && g in Groups(clips[k].text) :: g.speaker >= 0
  {
    var one := [Time(0), Speaker(1), Time(100)];
    var two := [Time(0), Speaker(0), Time(100)] + one;
    var a, b := Group(0, 1, [], 100), Group(0, 0, [], 100);
    clips := [Clip(one, 0, None), Clip(two, 200, None)];
    hide *;
    NoGroups();
    assert one == [Time(0), Speaker(1)] + [] + [Time(100)] + [];
    assert two == [Time(0), Speaker(0)] + [] + [Time(100)] + one;
    FirstGroup(one, a, []);
    FirstGroup(two, b, one);
    MoreGroups(clips[0], [], a, 0);
    MoreGroups(clips[1], [], b, 0);
    MoreGroups(clips[1], [b], a, 0);
    assert Groups(one) == [a] && Groups(two) == [b, a] && [] + [a] == [a] && [] + [b] == [b] && [b] + [a] == [b, a];
    TwoSpeak(clips);
    KeepsMember(clips[0], a);
    KeepsMember(clips[1], b);
    ClipsShareSpeakerIff(clips, 0, 1);
  }

  lemma {:induction false} TwoSpeak(clips: seq<Clip>)
    requires |clips| == 2 && MaxSpeaker(Groups(clips[0].text)) != 0 && MaxSpeaker(Groups(clips[1].text)) != 0
    ensures AllSpeak(clips)
  {}

  lemma {:induction false} KeepsMember(clip: Clip, g: Group)
    requires g in Groups(clip.text) && clip.keepUntil == None
    ensures Keeps(clip, g.speaker)
  {
    assert !Dropped(clip, g);
    hide Groups;
  }

  // ---------- merging commutes with parsing ----------

  /** Time tags come in pairs, the first followed by its speaker tag and then by text and closed
      brackets only; outside the pairs no bracket is left open. */
  ghost predicate Tidy(ts: seq<Token>)
    decreases |ts|
  {
    if ts == [] then true
    else if !IsTime(ts[0]) then !ts[0].Open? && Tidy(ts[1..])
    else
      && |ts| >= 3 && ts[0].Time? && ts[1].Speaker?
      && NextTime(ts, 2) < |ts| && ts[NextTime(ts, 2)].Time?
      && (forall k | 2 <= k < NextTime(ts, 2) :: ts[k].Text? || ts[k].Event?)
      && Tidy(ts[NextTime(ts, 2) + 1..])
  }

  /** The parser sees nothing inside the matches. */
  ghost predicate PlainGroups(gs: seq<Group>) {
    forall g | g in gs :: Tags(g.inner, false) == [] && !LeftOpen(g.inner, false)
  }

  lemma {:induction false} SameTight(ts: seq<Token>, i: nat)
    requires i <= |ts| && NextTime(ts, i) < |ts| && ts[NextTime(ts, i)].Time?
    ensures NextTight(ts, i) == NextTime(ts, i)
  {}

  lemma {:induction false} NothingSeen(ts: seq<Token>)
    requires forall k | 0 <= k < |ts| :: ts[k].Text? || ts[k].Event?
    ensures Tags(ts, false) == [] && !LeftOpen(ts, false)
  {
    if ts != [] { NothingSeen(ts[1..]); }
  }

  /** In a tidy text the parser and the merger's pattern see the same groups. */
  lemma {:induction false} TidyParse(ts: seq<Token>, last: Option<int>)
    requires Tidy(ts)
    ensures Parse(Tags(ts, false), last) == SegmentsOf(Groups(ts))
    ensures PlainGroups(Groups(ts))
    decreases |ts|
  {
    if ts == [] {
    } else if !IsTime(ts[0]) {
      TidySkip(ts, last);
      hide *;
      TidyParse(ts[1..], last);
    } else {
      var g, rest := TidyGroup(ts);
      PrintedTags(g);
      TagsConcat(Print(g), rest, false);
      hide *;
      PlainVoice(g);
      var next := ParseGroup(Tags(ts, false), g, Tags(rest, false), last);
      TidyParse(rest, next);
      OneMorePlain(g, Groups(rest));
    }
  }

  lemma {:induction false} TidySkip(ts: seq<Token>, last: Option<int>)
    requires Tidy(ts) && ts != [] && !IsTime(ts[0])
    ensures Groups(ts) == Groups(ts[1..]) && Tidy(ts[1..])
    ensures Parse(Tags(ts, false), last) == Parse(Tags(ts[1..], false), last)
  {
    assert |ts| < 3 ==> Groups(ts[1..]) == [];
    var tags, rest := Tags(ts, false), Tags(ts[1..], false);
    assert tags == (if IsSpeaker(ts[0]) then [ts[0]] else []) + rest;
    hide Tidy, Groups, Tags, Parse;
    ParseSkip(tags, last);
    assert IsSpeaker(ts[0]) ==> tags[0] == ts[0] && tags[1..] == rest;
    assert !IsSpeaker(ts[0]) ==> tags == rest;
  }

  lemma {:induction false} TidyGroup(ts: seq<Token>) returns (g: Group, rest: seq<Token>)
    requires Tidy(ts) && ts != [] && IsTime(ts[0])
    ensures ts == Print(g) + rest && Groups(ts) == [g] + Groups(rest) && Tidy(rest) && |rest| < |ts|
    ensures Tags(g.inner, false) == [] && !LeftOpen(g.inner, false)
  {
    SameTight(ts, 2);
    var j := NextTight(ts, 2);
    g, rest := Group(ts[0].at, ts[1].number, ts[2..j], ts[j].at), ts[j + 1..];
    NothingSeen(g.inner);
    assert Groups(ts) == [g] + Groups(rest) && Tidy(rest);
    hide *;
    FromPieces(ts, j, g, rest);
  }

  lemma {:induction false} FromPieces(ts: seq<Token>, j: nat, g: Group, rest: seq<Token>)
    requires 2 <= j < |ts| && ts[0] == Time(g.start) && ts[1] == Speaker(g.speaker) && ts[j] == Time(g.end)
    requires g.inner == ts[2..j] && rest == ts[j + 1..]
    ensures ts == Print(g) + rest
  {}

  lemma {:induction false} PlainVoice(g: Group)
    requires Tags(g.inner, false) == []
    ensures Voice(g) == g.speaker && Untimed(Tags(g.inner, false))
  {
    assert LastSpeaker([]) == None;
  }

  lemma {:induction false} OneMorePlain(g: Group, gs: seq<Group>)
    requires Tags(g.inner, false) == [] && !LeftOpen(g.inner, false) && PlainGroups(gs)
    ensures SegmentsOf([g] + gs) == Accept(g.start, g.end, Some(g.speaker)) + SegmentsOf(gs)
    ensures PlainGroups([g] + gs)
  {
    hide Tags, LeftOpen;
    assert ([g] + gs)[1..] == gs;
  }

  /** The clip's parsed segments, those ending within the limit, shifted and relabelled. */
  function Moved(clip: Clip, segs: seq<Segment>, base: int): seq<Segment> {
    if segs == [] then [] else
      var s := segs[|segs| - 1];
      Moved(clip, segs[..|segs| - 1], base) +
      if clip.keepUntil.Some? && s.end > clip.keepUntil.value then []
      else [Segment(s.start + clip.offset, s.end + clip.offset, s.speaker + base)]
  }

  function AllMoved(clips: seq<Clip>): seq<Segment> {
    if clips == [] then [] else
      var front, last := clips[..|clips| - 1], clips[|clips| - 1];
      AllMoved(front) + Moved(last, Read(last.text), Base(front))
  }

  lemma {:induction false} SegmentsConcat(xs: seq<Group>, ys: seq<Group>)
    ensures SegmentsOf(xs + ys) == SegmentsOf(xs) + SegmentsOf(ys)
  {
    if xs == [] {
      assert xs + ys == ys;
    } else {
      assert (xs + ys)[1..] == xs[1..] + ys;
      SegmentsConcat(xs[1..], ys);
    }
  }

  lemma {:induction false} MovedConcat(clip: Clip, xs: seq<Segment>, ys: seq<Segment>, base: int)
    ensures Moved(clip, xs + ys, base) == Moved(clip, xs, base) + Moved(clip, ys, base)
  {
    if ys == [] {
      assert xs + ys == xs;
    } else {
      assert (xs + ys)[..|xs + ys| - 1] == xs + ys[..|ys| - 1];
      MovedConcat(clip, xs, ys[..|ys| - 1], base);
    }
  }

  lemma {:induction false} RelabelledIsMoved(clip: Clip, gs: seq<Group>, base: int)
    ensures SegmentsOf(Relabelled(clip, gs, base)) == Moved(clip, SegmentsOf(gs), base)
  {
    if gs != [] {
      var front, g := gs[..|gs| - 1], gs[|gs| - 1];
      var one := Accept(g.start, g.end, Some(g.speaker));
      var kept := if Dropped(clip, g) then [] else [Group(g.start + clip.offset, g.speaker + base, g.inner, g.end + clip.offset)];
      assert gs == front + [g];
      assert SegmentsOf([g]) == one;
      assert Relabelled(clip, gs, base) == Relabelled(clip, front, base) + kept;
      MovedOne(clip, g, base);
      hide *;
      RelabelledIsMoved(clip, front, base);
      SegmentsConcat(front, [g]);
      MovedConcat(clip, SegmentsOf(front), one, base);
      SegmentsConcat(Relabelled(clip, front, base), kept);
    }
  }

  lemma {:induction false} MovedOne(clip: Clip, g: Group, base: int)
    ensures Moved(clip, Accept(g.start, g.end, Some(g.speaker)), base) ==
      SegmentsOf(if Dropped(clip, g) then [] else [Group(g.start + clip.offset, g.speaker + base, g.inner, g.end + clip.offset)])
  {
    assert [Segment(g.start, g.end, g.speaker)][..0] == [];
  }

  lemma {:induction false} AllSegments(clips: seq<Clip>)
    requires forall k | 0 <= k < |clips| :: Tidy(clips[k].text)
    ensures SegmentsOf(AllGroups(clips)) == AllMoved(clips)
  {
    if clips != [] {
      var front, last := clips[..|clips| - 1], clips[|clips| - 1];
      AllSegments(front);
      TidyParse(last.text, None);
      RelabelledIsMoved(last, Groups(last.text), Base(front));
      SegmentsConcat(AllGroups(front), Relabelled(last, Groups(last.text), Base(front)));
    }
  }

  lemma {:induction false} RelabelledPlain(clip: Clip, gs: seq<Group>, base: int)
    requires PlainGroups(gs)
    ensures PlainGroups(Relabelled(clip, gs, base))
  {
    if gs != [] {
      var front, g := gs[..|gs| - 1], gs[|gs| - 1];
      assert g in gs && forall h | h in front :: h in gs;
      RelabelledPlain(clip, front, base);
    }
  }

  lemma {:induction false} AllPlain(clips: seq<Clip>)
    requires forall k | 0 <= k < |clips| :: Tidy(clips[k].text)
    ensures PlainGroups(AllGroups(clips))
  {
    if clips != [] {
      var front, last := clips[..|clips| - 1], clips[|clips| - 1];
      AllPlain(front);
      TidyParse(last.text, None);
      RelabelledPlain(last, Groups(last.text), Base(front));
    }
  }

  lemma {:induction false} PlainReads(gs: seq<Group>)
    requires PlainGroups(gs)
    ensures UntimedGroups(gs) && ClosedGroups(gs) && OwnVoices(gs)
  {
    forall g | g in gs ensures Untimed(Tags(g.inner, false)) && Voice(g) == g.speaker { PlainVoice(g); }
  }

  /** On tidy clips, parsing the merged reference gives what parsing each clip gives, cut at its
      limit, shifted by its offset and moved to its own label range. */
  lemma {:induction false} ParseMergedIsMergeParsed(clips: seq<Clip>)
    requires forall k | 0 <= k < |clips| :: Tidy(clips[k].text)
    ensures Read(PrintAll(AllGroups(clips))) == AllMoved(clips)
  {
    hide *;
    AllPlain(clips);
    PlainReads(AllGroups(clips));
    MergeThenParse(clips);
    AllSegments(clips);
  }
}
