/** Concatenated minimum-permutation character error rate.

A transcript is what is left after cleaning: whether the raw text carries speaker tags, the text
before the first tag, and the tagged runs in order.  The score pairs reference speakers with
predicted speakers so that the character errors are fewest. */
module CpCer {
  import opened Sums
  import opened Assignment
  import opened EditDistance
  import opened Pairings
  import opened Wrappers

  datatype Run = Run(speaker: int, content: string)
  datatype Transcript = Transcript(tagged: bool, leading: string, runs: seq<Run>)

  // ---------- one text per speaker ----------

  /** dict.get(speaker, "") + content, in insertion order */
  function Credit(texts: seq<Run>, speaker: int, content: string): seq<Run> {
    if texts == [] then [Run(speaker, content)]
    else if texts[0].speaker == speaker then [Run(speaker, texts[0].content + content)] + texts[1..]
    else [texts[0]] + Credit(texts[1..], speaker, content)
  }

  function Collected(runs: seq<Run>): seq<Run> {
    if runs == [] then [] else
      var front, last := Collected(runs[..|runs| - 1]), runs[|runs| - 1];
      if last.content == "" then front else Credit(front, last.speaker, last.content)
  }

  method SplitBySpeaker(t: Transcript, implicitSingleSpeaker: bool) returns (texts: seq<Run>)
    ensures texts == Split(t, implicitSingleSpeaker)
  {
    if t.runs == [] {
      if !implicitSingleSpeaker || t.leading == "" {
        return [];
      }
      return [Run(1, t.leading)];
    }
    texts := [];
    for k := 0 to |t.runs|
      invariant texts == Collected(t.runs[..k])
    {
      assert t.runs[..k + 1][..k] == t.runs[..k];
      if t.runs[k].content != "" {
        texts := Credit(texts, t.runs[k].speaker, t.runs[k].content);
      }
    }
    assert t.runs[..|t.runs|] == t.runs;
  }

  function Split(t: Transcript, implicitSingleSpeaker: bool): seq<Run> {
    if t.runs != [] then Collected(t.runs)
    else if implicitSingleSpeaker && t.leading != "" then [Run(1, t.leading)]
    else []
  }

  function Contents(texts: seq<Run>): (r: seq<string>)
    ensures |r| == |texts| && forall k | 0 <= k < |r| :: r[k] == texts[k].content
  { Project((r: Run) => r.content, texts) }

  /** The speakers' texts, padded with empty ones to a common number of speakers. */
  function Padded(texts: seq<string>, n: nat): (r: seq<string>)
    requires |texts| <= n
    ensures |r| == n
  { texts + seq(n - |texts|, _ => "") }

  // ---------- the scorer ----------

  datatype CharStats = CharStats(refChars: int, predChars: int, errors: int)

  method CharacterStats(reference: string, prediction: string) returns (stats: CharStats)
    ensures stats == CharStats(|reference|, |prediction|, Distance(reference, prediction))
  {
    if reference == "" {
      return CharStats(0, |prediction|, |prediction|);
    }
    var errors := Levenshtein(reference, prediction);
    stats := CharStats(|reference|, |prediction|, errors);
  }

  function StatsAt(reference: seq<string>, prediction: seq<string>, i: int, j: int): CharStats
    requires 0 <= i < |reference| && 0 <= j < |prediction|
  { CharStats(|reference[i]|, |prediction[j]|, Distance(reference[i], prediction[j])) }

  ghost predicate IsTable(table: seq<seq<CharStats>>, reference: seq<string>, prediction: seq<string>) {
    && |table| == |reference|
    && forall i | 0 <= i < |table| :: IsRow(table[i], reference, prediction, i)
  }

  ghost predicate IsRow(row: seq<CharStats>, reference: seq<string>, prediction: seq<string>, i: int) {
    && 0 <= i < |reference| && |row| == |prediction|
    && forall j | 0 <= j < |row| :: row[j] == StatsAt(reference, prediction, i, j)
  }

  method StatsTable(reference: seq<string>, prediction: seq<string>) returns (table: seq<seq<CharStats>>)
    ensures IsTable(table, reference, prediction)
  {
    table := [];
    for i := 0 to |reference|
      invariant |table| == i && forall k | 0 <= k < i :: IsRow(table[k], reference, prediction, k)
    {
      var row := [];
      for j := 0 to |prediction|
        invariant |row| == j && forall k | 0 <= k < j :: row[k] == StatsAt(reference, prediction, i, k)
      {
        var stats := CharacterStats(reference[i], prediction[j]);
        row := row + [stats];
      }
      table := table + [row];
    }
  }

  function CostOf(table: seq<seq<CharStats>>): (m: Matrix)
    ensures |m| == |table|
    ensures forall i | 0 <= i < |m| :: |m[i]| == |table[i]|
    ensures forall i, j | 0 <= i < |m| && 0 <= j < |m[i]| :: m[i][j] == table[i][j].errors
  {
    seq(|table|, i requires 0 <= i < |table| =>
      seq(|table[i]|, j requires 0 <= j < |table[i]| => table[i][j].errors))
  }

  /** An invalid score still carries the predicted characters. */
  datatype Result = Invalid(reason: string, predChars: int) | Valid(stats: CharStats)

  /** The texts to be paired: one for each speaker, padded to the larger number of speakers. */
  function Reference(reference: Transcript, prediction: Transcript): seq<string> {
    var r, p := Contents(Split(reference, false)), Contents(Split(prediction, true));
    Padded(r, if |r| >= |p| then |r| else |p|)
  }

  function Prediction(reference: Transcript, prediction: Transcript): seq<string> {
    var r, p := Contents(Split(reference, false)), Contents(Split(prediction, true));
    Padded(p, if |r| >= |p| then |r| else |p|)
  }

  /** What the score of a prediction must be: invalid exactly without reference tags or without
      reference text, and otherwise the fewest errors over all pairings with all characters counted. */
  ghost predicate Scores(reference: Transcript, prediction: Transcript, result: Result) {
    var r, p := Contents(Split(reference, false)), Contents(Split(prediction, true));
    && (!reference.tagged <==> result == Invalid("no_ref_speaker_tags", Chars(p)))
    && (reference.tagged && Chars(r) == 0 <==> result == Invalid("empty_ref_after_clean", Chars(p)))
    && (reference.tagged && Chars(r) > 0 <==> result.Valid?)
    && (result.Valid? ==>
          && Fewest(result.stats.errors, Reference(reference, prediction), Prediction(reference, prediction))
          && result.stats.refChars == Chars(r) && result.stats.predChars == Chars(p))
  }

  method CpCerStats(reference: Transcript, prediction: Transcript, solve: Matrix -> seq<Match>)
    returns (result: Result)
    requires CorrectSolver(solve)
    ensures Scores(reference, prediction, result)
  {
    var predSplit := SplitBySpeaker(prediction, true);
    var p := Contents(predSplit);
    if !reference.tagged {
      return Invalid("no_ref_speaker_tags", Chars(p));
    }
    var refSplit := SplitBySpeaker(reference, false);
    var r := Contents(refSplit);
    var n := if |r| >= |p| then |r| else |p|;
    var refTexts, predTexts := Padded(r, n), Padded(p, n);
    PaddingIsFree(r, n);
    PaddingIsFree(p, n);
    NonNegative((t: string) => |t|, r);
    if n == 0 || Chars(refTexts) == 0 {
      return Invalid("empty_ref_after_clean", Chars(p));
    }
    NonNegative((t: string) => |t|, refTexts);
    var table := StatsTable(refTexts, predTexts);
    var stats := Assigned(table, solve, refTexts, predTexts);
    result := if stats.refChars > 0 then Valid(stats) else Invalid("empty_ref_after_clean", stats.predChars);
  }

  lemma {:induction false} PaddingIsFree(texts: seq<string>, n: nat)
    requires |texts| <= n
    ensures Chars(Padded(texts, n)) == Chars(texts)
  {
    var size := (t: string) => |t|;
    Concat(size, texts, Padded(texts, n)[|texts|..]);
    assert Padded(texts, n) == texts + Padded(texts, n)[|texts|..];
    Constant(size, 0, Padded(texts, n)[|texts|..]);
  }

  /** Solve the assignment and add up the character statistics of the assigned pairs. */
  method Assigned(table: seq<seq<CharStats>>, solve: Matrix -> seq<Match>, ghost reference: seq<string>, ghost prediction: seq<string>)
    returns (summary: CharStats)
    requires CorrectSolver(solve)
    requires IsTable(table, reference, prediction) && |reference| == |prediction|
    ensures Fewest(summary.errors, reference, prediction)
    ensures summary.refChars == Chars(reference) && summary.predChars == Chars(prediction)
  {
    var ps := solve(CostOf(table));
    TableIsSquare(table, reference, prediction);
    assert Optimal(CostOf(table), ps);
    AssignsSquare(CostOf(table), ps);
    forall p | p in ps
      ensures 0 <= p.left < |table| && 0 <= p.right < |table[p.left]|
      ensures table[p.left][p.right] ==
              CharStats(RefSize(reference)(p), PredSize(prediction)(p), Entry(CostOf(table))(p))
    {}
    assert forall f: Match -> int :: Sum(f, []) == 0;
    hide *;
    summary := CharStats(0, 0, 0);
    for k := 0 to |ps|
      invariant summary.refChars == Sum(RefSize(reference), ps[..k])
      invariant summary.predChars == Sum(PredSize(prediction), ps[..k])
      invariant summary.errors == Sum(Entry(CostOf(table)), ps[..k])
    {
      OneMore(RefSize(reference), ps, k);
      OneMore(PredSize(prediction), ps, k);
      OneMore(Entry(CostOf(table)), ps, k);
      assert ps[k] in ps;
      var stats := table[ps[k].left][ps[k].right];
      summary := CharStats(summary.refChars + stats.refChars, summary.predChars + stats.predChars,
                           summary.errors + stats.errors);
    }
    assert ps[..|ps|] == ps;
    OptimalIsFewest(table, ps, reference, prediction);
  }

  function RefSize(reference: seq<string>): Match -> int {
    (q: Match) => if 0 <= q.left < |reference| then |reference[q.left]| else 0
  }

  function PredSize(prediction: seq<string>): Match -> int {
    (q: Match) => if 0 <= q.right < |prediction| then |prediction[q.right]| else 0
  }

  // ---------- the solver's optimum is the fewest errors ----------

  lemma {:induction false} TableIsSquare(table: seq<seq<CharStats>>, reference: seq<string>, prediction: seq<string>)
    requires IsTable(table, reference, prediction) && |reference| == |prediction|
    ensures Rectangular(CostOf(table)) && |CostOf(table)| == Width(CostOf(table)) == |reference|
    ensures forall p: Match | 0 <= p.left < |reference| && 0 <= p.right < |prediction| ::
      && p.left < |table| && p.right < |table[p.left]|
      && table[p.left][p.right] == StatsAt(reference, prediction, p.left, p.right)
      && Entry(CostOf(table))(p) == Distance(reference[p.left], prediction[p.right])
  {
    assert forall i | 0 <= i < |table| :: IsRow(table[i], reference, prediction, i);
  }

  lemma {:induction false} AssignsSquare(m: Matrix, ps: seq<Match>)
    requires Assigns(m, ps)
    ensures forall p | p in ps :: 0 <= p.left < |m| && 0 <= p.right < Width(m)
  {}

  lemma {:induction false} OptimalIsFewest(table: seq<seq<CharStats>>, ps: seq<Match>, reference: seq<string>, prediction: seq<string>)
    requires IsTable(table, reference, prediction) && |reference| == |prediction|
    requires Optimal(CostOf(table), ps)
    ensures Fewest(Sum(Entry(CostOf(table)), ps), reference, prediction)
    ensures Sum(RefSize(reference), ps) == Chars(reference)
    ensures Sum(PredSize(prediction), ps) == Chars(prediction)
  {
    var n, m := |reference|, CostOf(table);
    TableIsSquare(table, reference, prediction);
    AssignsSquare(m, ps);
    OptimalMeans(m, ps);
    hide IsTable;
    hide CostOf;
    hide Optimal;
    hide Entry;
    var perm := MatchPerm(ps, n);
    MatchCost(m, ps, perm, reference, prediction);
    forall other | Permutes(other, n)
      ensures Sum(Entry(m), ps) <= PairedErrors(reference, Reordered(prediction, other))
    {
      var qs := PermMatch(other, n);
      MatchCost(m, qs, other, reference, prediction);
    }
    AssignedSizes(ps, reference, prediction);
  }

  lemma {:induction false} OptimalMeans(m: Matrix, ps: seq<Match>)
    requires Optimal(m, ps)
    ensures Matches(ps, Range(0, |m|), Range(0, Width(m)))
    ensures forall qs | Matches(qs, Range(0, |m|), Range(0, Width(m))) :: Sum(Entry(m), ps) <= Sum(Entry(m), qs)
  {
    forall qs | Matches(qs, Range(0, |m|), Range(0, Width(m))) ensures Sum(Entry(m), ps) <= Sum(Entry(m), qs) {
      assert Assigns(m, qs);
    }
  }

  lemma {:induction false} AssignedSizes(ps: seq<Match>, reference: seq<string>, prediction: seq<string>)
    requires |reference| == |prediction| && Matches(ps, Range(0, |reference|), Range(0, |reference|))
    ensures Sum(RefSize(reference), ps) == Chars(reference)
    ensures Sum(PredSize(prediction), ps) == Chars(prediction)
  {
    var n := |reference|;
    forall q | q in ps ensures RefSize(reference)(q) == Size(reference)(q.left) {}
    forall q | q in ps ensures PredSize(prediction)(q) == Size(prediction)(q.right) {}
    hide *;
    LeftSum(RefSize(reference), Size(reference), ps, Range(0, n), Range(0, n));
    RightSum(PredSize(prediction), Size(prediction), ps, Range(0, n), Range(0, n));
    SizesAreChars(reference);
    SizesAreChars(prediction);
  }

  lemma {:induction false} MatchCost(m: Matrix, ps: seq<Match>, perm: seq<int>, reference: seq<string>, prediction: seq<string>)
    requires |reference| == |prediction| && Permutes(perm, |prediction|)
    requires Matches(ps, Range(0, |reference|), Range(0, |reference|))
    requires forall q | q in ps :: perm[q.left] == q.right
    requires forall p: Match | 0 <= p.left < |reference| && 0 <= p.right < |prediction| ::
      Entry(m)(p) == Distance(reference[p.left], prediction[p.right])
    ensures Sum(Entry(m), ps) == PairedErrors(reference, Reordered(prediction, perm))
  {
    var n := |reference|;
    LeftSum(Entry(m), Errors(reference, Reordered(prediction, perm)), ps, Range(0, n), Range(0, n));
  }

  // ---------- what splitting by speaker yields ----------

  /** Everything one speaker says, in order. */
  function SpokenBy(runs: seq<Run>, speaker: int): string {
    if runs == [] then "" else
      SpokenBy(runs[..|runs| - 1], speaker) +
      if runs[|runs| - 1].speaker == speaker then runs[|runs| - 1].content else ""
  }

  ghost predicate OneTextEach(texts: seq<Run>) {
    forall i, j | 0 <= i < j < |texts| :: texts[i].speaker != texts[j].speaker
  }

  function TextOf(texts: seq<Run>, speaker: int): string {
    if texts == [] then ""
    else if texts[0].speaker == speaker then texts[0].content
    else TextOf(texts[1..], speaker)
  }

  lemma {:induction false} CreditAdds(texts: seq<Run>, speaker: int, content: string, other: int)
    requires OneTextEach(texts)
    ensures OneTextEach(Credit(texts, speaker, content))
    ensures TextOf(Credit(texts, speaker, content), other) ==
      if other == speaker then TextOf(texts, other) + content else TextOf(texts, other)
    ensures forall r | r in Credit(texts, speaker, content) ::
      r.speaker == speaker || r in texts
  {
    if texts != [] && texts[0].speaker != speaker {
      CreditAdds(texts[1..], speaker, content, other);
      var rest := Credit(texts[1..], speaker, content);
      assert Credit(texts, speaker, content) == [texts[0]] + rest;
      forall r | r in rest ensures r.speaker != texts[0].speaker {
        if r in texts[1..] {
          var j :| 0 <= j < |texts| - 1 && texts[1..][j] == r;
          assert texts[j + 1] == r;
        }
      }
      NewFirst(texts[0], rest);
    }
  }

  lemma {:induction false} NewFirst(first: Run, rest: seq<Run>)
    requires OneTextEach(rest) && forall r | r in rest :: r.speaker != first.speaker
    ensures OneTextEach([first] + rest)
  {
    assert forall k | 0 <= k < |rest| :: rest[k] in rest;
  }

  /** One entry per speaker, holding everything that speaker says. */
  lemma {:induction false} CollectedMeans(runs: seq<Run>, speaker: int)
    ensures OneTextEach(Collected(runs))
    ensures TextOf(Collected(runs), speaker) == SpokenBy(runs, speaker)
  {
    if runs != [] {
      var front, last := runs[..|runs| - 1], runs[|runs| - 1];
      CollectedMeans(front, speaker);
      CreditAdds(Collected(front), last.speaker, last.content, speaker);
    }
  }

  function Rename(runs: seq<Run>, rho: int -> int): (r: seq<Run>)
    ensures |r| == |runs| && forall k | 0 <= k < |r| :: r[k] == Run(rho(runs[k].speaker), runs[k].content)
  { Project((r: Run) => Run(rho(r.speaker), r.content), runs) }

  ghost predicate Injective(rho: int -> int) { forall i, j | rho(i) == rho(j) :: i == j }

  lemma {:induction false} RenameCredit(texts: seq<Run>, speaker: int, content: string, rho: int -> int)
    requires Injective(rho)
    ensures Credit(Rename(texts, rho), rho(speaker), content) == Rename(Credit(texts, speaker, content), rho)
  {
    if texts != [] {
      RenameCredit(texts[1..], speaker, content, rho);
      assert Rename(texts, rho)[1..] == Rename(texts[1..], rho);
    }
  }

  lemma {:induction false} RenameCollected(runs: seq<Run>, rho: int -> int)
    requires Injective(rho)
    ensures Collected(Rename(runs, rho)) == Rename(Collected(runs), rho)
  {
    if runs != [] {
      var front, last := runs[..|runs| - 1], runs[|runs| - 1];
      RenameCollected(front, rho);
      assert Rename(runs, rho)[..|runs| - 1] == Rename(front, rho);
      RenameCredit(Collected(front), last.speaker, last.content, rho);
    }
  }

  /** Renaming the tags of a transcript one-to-one leaves the texts to be paired as they were,
      hence the score of any prediction or reference. */
  lemma {:induction false} NamesAreIrrelevant(t: Transcript, implicitSingleSpeaker: bool, rho: int -> int)
    requires Injective(rho)
    ensures Contents(Split(t.(runs := Rename(t.runs, rho)), implicitSingleSpeaker)) ==
            Contents(Split(t, implicitSingleSpeaker))
  {
    RenameCollected(t.runs, rho);
  }

  // ---------- the whole score ----------

  /** The score is determined by the two transcripts, whatever optimum the solver returns. */
  lemma {:induction false} ScoreIsDetermined(reference: Transcript, prediction: Transcript, a: Result, b: Result)
    requires Scores(reference, prediction, a) && Scores(reference, prediction, b)
    ensures a == b
  {
    NonNegative((t: string) => |t|, Contents(Split(reference, false)));
    assert Chars(Contents(Split(reference, false))) >= 0;
    hide Split, Contents, Chars, Reference, Prediction, Fewest;
    if a.Valid? {
      OneFewest(a.stats.errors, b.stats.errors, Reference(reference, prediction), Prediction(reference, prediction));
    }
  }

  lemma {:induction false} OneFewest(a: int, b: int, reference: seq<string>, prediction: seq<string>)
    requires Fewest(a, reference, prediction) && Fewest(b, reference, prediction)
    ensures a == b
  {
    hide Permutes, PairedErrors;
  }

  /** A valid score has no errors exactly when the padded predicted texts are the padded reference
      texts in some order. */
  lemma {:induction false} NoErrorsIff(reference: Transcript, prediction: Transcript, stats: CharStats)
    requires Scores(reference, prediction, Valid(stats))
    ensures var r, p := Reference(reference, prediction), Prediction(reference, prediction);
      stats.errors == 0 <==> exists perm :: Permutes(perm, |p|) && r == Reordered(p, perm)
  {
    var r, p := Reference(reference, prediction), Prediction(reference, prediction);
    hide Split, Contents, Chars, PairedErrors, Permutes;
    assert |r| == |p| && Fewest(stats.errors, r, p);
    ZeroIffReordered(r, p);
    if Fewest(0, r, p) { OneFewest(0, stats.errors, r, p); }
  }

  function Renamed(t: Transcript, rho: int -> int): Transcript { t.(runs := Rename(t.runs, rho)) }

  /** Renaming the speakers of either transcript one-to-one keeps the score. */
  lemma {:induction false} RenamingKeepsScore(reference: Transcript, prediction: Transcript, result: Result,
                                              rho: int -> int, sigma: int -> int)
    requires Injective(rho) && Injective(sigma)
    ensures Scores(Renamed(reference, rho), Renamed(prediction, sigma), result) <==> Scores(reference, prediction, result)
  {
    NamesAreIrrelevant(reference, false, rho);
    NamesAreIrrelevant(prediction, true, sigma);
    hide Split, Contents, Chars, Fewest, Injective, Rename, Padded;
  }

  /** A copy of a scorable reference under other speaker names has no errors. */
  lemma {:induction false} RenamedCopyHasNoErrors(reference: Transcript, rho: int -> int, result: Result)
    requires Injective(rho) && Scores(reference, Renamed(reference, rho), result) && result.Valid?
    ensures result.stats.errors == 0
  {
    CopyText(reference, rho);
    var copy := Renamed(reference, rho);
    assert Reference(reference, copy) == Prediction(reference, copy);
    hide *;
    ScoresFewest(reference, copy, result.stats);
    SameTexts(result.stats.errors, Reference(reference, copy));
  }

  /** A scorable reference has runs, so its copy splits into the same texts. */
  lemma {:induction false} CopyText(reference: Transcript, rho: int -> int)
    requires Injective(rho) && Chars(Contents(Split(reference, false))) > 0
    ensures Contents(Split(Renamed(reference, rho), true)) == Contents(Split(reference, false))
  {
    NamesAreIrrelevant(reference, true, rho);
    assert Chars([]) == 0;
    assert reference.runs == [] ==> Contents(Split(reference, false)) == [];
  }

  lemma {:induction false} ScoresFewest(reference: Transcript, prediction: Transcript, stats: CharStats)
    requires Scores(reference, prediction, Valid(stats))
    ensures Fewest(stats.errors, Reference(reference, prediction), Prediction(reference, prediction))
  {
    hide Split, Contents, Chars, Reference, Prediction, Fewest;
  }

  lemma {:induction false} SameTexts(errors: int, texts: seq<string>)
    requires Fewest(errors, texts, texts)
    ensures errors == 0
  {
    var same := seq(|texts|, i requires 0 <= i < |texts| => i);
    assert Permutes(same, |texts|) && texts == Reordered(texts, same);
    hide Fewest, PairedErrors;
    ZeroIffReordered(texts, texts);
    OneFewest(0, errors, texts, texts);
  }

  // ---------- no character is lost, and untagged text is one speaker ----------

  function RunChars(runs: seq<Run>): int { Sum((r: Run) => |r.content|, runs) }

  lemma {:induction false} CreditChars(texts: seq<Run>, speaker: int, content: string)
    ensures RunChars(Credit(texts, speaker, content)) == RunChars(texts) + |content|
  {
    var size := (r: Run) => |r.content|;
    if texts == [] {
      assert Credit(texts, speaker, content) == [Run(speaker, content)] && [Run(speaker, content)][..0] == [];
    } else {
      var first, rest := texts[0], texts[1..];
      assert texts == [first] + rest;
      Concat(size, [first], rest);
      One(size, first);
      if first.speaker == speaker {
        One(size, Run(speaker, first.content + content));
        Concat(size, [Run(speaker, first.content + content)], rest);
      } else {
        CreditChars(rest, speaker, content);
        Concat(size, [first], Credit(rest, speaker, content));
      }
    }
  }

  lemma {:induction false} One<T>(f: T -> int, x: T)
    ensures Sum(f, [x]) == f(x)
  {
    assert [x][..0] == [];
  }

  lemma {:induction false} CollectedChars(runs: seq<Run>)
    ensures RunChars(Collected(runs)) == RunChars(runs)
  {
    if runs != [] {
      var front, last := runs[..|runs| - 1], runs[|runs| - 1];
      CollectedChars(front);
      CreditChars(Collected(front), last.speaker, last.content);
    }
  }

  lemma {:induction false} ContentsChars(texts: seq<Run>)
    ensures Chars(Contents(texts)) == RunChars(texts)
  {
    Mapped((t: string) => |t|, (r: Run) => |r.content|, 1, Contents(texts), texts);
  }

  function PredictedChars(result: Result): int { if result.Valid? then result.stats.predChars else result.predChars }

  /** Every score, valid or not, counts all predicted characters: those of the tagged runs, or the
      whole text when it has none; a valid one counts all reference characters.  It is valid exactly
      when the reference has tags and some tagged text. */
  lemma {:induction false} AllCharactersCount(reference: Transcript, prediction: Transcript, result: Result)
    requires Scores(reference, prediction, result)
    ensures PredictedChars(result) ==
      if prediction.runs == [] then |prediction.leading| else Sum((r: Run) => |r.content|, prediction.runs)
    ensures result.Valid? ==> result.stats.refChars == Sum((r: Run) => |r.content|, reference.runs)
    ensures result.Valid? <==> reference.tagged && exists k :: 0 <= k < |reference.runs| && reference.runs[k].content != ""
  {
    SplitChars(prediction, true);
    SplitChars(reference, false);
    SomeText(reference.runs);
    hide Split, Contents, Chars, Collected, Reference, Prediction, Fewest;
  }

  lemma {:induction false} SplitChars(t: Transcript, implicitSingleSpeaker: bool)
    ensures Chars(Contents(Split(t, implicitSingleSpeaker))) ==
      if t.runs != [] then RunChars(t.runs) else if implicitSingleSpeaker then |t.leading| else 0
  {
    ContentsChars(Split(t, implicitSingleSpeaker));
    CollectedChars(t.runs);
    One((r: Run) => |r.content|, Run(1, t.leading));
  }

  lemma {:induction false} SomeText(runs: seq<Run>)
    ensures RunChars(runs) >= 0
    ensures RunChars(runs) > 0 <==> exists k :: 0 <= k < |runs| && runs[k].content != ""
  {
    if runs != [] {
      var front := runs[..|runs| - 1];
      SomeText(front);
      assert RunChars(runs) == RunChars(front) + |runs[|runs| - 1].content|;
      hide RunChars;
      assert forall k | 0 <= k < |front| :: front[k] == runs[k];
    }
  }

  lemma {:induction false} OneSpeakerCollected(runs: seq<Run>, speaker: int)
    requires forall r | r in runs :: r.speaker == speaker
    ensures Collected(runs) == if SpokenBy(runs, speaker) == "" then [] else [Run(speaker, SpokenBy(runs, speaker))]
  {
    if runs != [] {
      var front, last := runs[..|runs| - 1], runs[|runs| - 1];
      assert last in runs && forall r | r in front :: r in runs;
      OneSpeakerCollected(front, speaker);
      assert SpokenBy(runs, speaker) == SpokenBy(front, speaker) + last.content;
      CreditOne(SpokenBy(front, speaker), speaker, last.content);
      hide SpokenBy, Credit;
    }
  }

  lemma {:induction false} CreditOne(text: string, speaker: int, content: string)
    ensures Credit([], speaker, content) == [Run(speaker, content)]
    ensures Credit([Run(speaker, text)], speaker, content) == [Run(speaker, text + content)]
    ensures "" + content == content && text + "" == text
  {
    assert [Run(speaker, text)][1..] == [];
  }

  /** Against a prediction without tags, the errors of a one-speaker reference are the edit distance
      of the two texts; there are none exactly when the texts are equal. */
  lemma {:induction false} UntaggedIsOneSpeaker(reference: Transcript, prediction: Transcript, speaker: int, stats: CharStats)
    requires (forall r | r in reference.runs :: r.speaker == speaker) && prediction.runs == []
    requires Scores(reference, prediction, Valid(stats))
    ensures stats.errors == Distance(SpokenBy(reference.runs, speaker), prediction.leading)
    ensures stats.errors == 0 <==> prediction.leading == SpokenBy(reference.runs, speaker)
  {
    var text := SpokenBy(reference.runs, speaker);
    hide *;
    AllCharactersCount(reference, prediction, Valid(stats));
    ScoresFewest(reference, prediction, stats);
    OneTextEachSide(reference, prediction, speaker);
    OneAgainstOne(stats.errors, text, prediction.leading);
    Bounds(text, prediction.leading);
  }

  lemma {:induction false} OneTextEachSide(reference: Transcript, prediction: Transcript, speaker: int)
    requires (forall r | r in reference.runs :: r.speaker == speaker) && prediction.runs == []
    requires exists k :: 0 <= k < |reference.runs| && reference.runs[k].content != ""
    ensures Reference(reference, prediction) == [SpokenBy(reference.runs, speaker)]
    ensures Prediction(reference, prediction) == [prediction.leading]
  {
    var text := SpokenBy(reference.runs, speaker);
    OneSpeakerCollected(reference.runs, speaker);
    SomeText(reference.runs);
    CollectedChars(reference.runs);
    NoRunChars();
    var r, p := Contents(Split(reference, false)), Contents(Split(prediction, true));
    assert Split(reference, false) == Collected(reference.runs) && text != "";
    hide Collected, RunChars, SpokenBy;
    assert r == [text];
    assert p == if prediction.leading == "" then [] else [prediction.leading];
    hide Split, Contents;
  }

  lemma {:induction false} NoRunChars()
    ensures RunChars([]) == 0
  {}

  lemma {:induction false} OneAgainstOne(errors: int, a: string, b: string)
    requires Fewest(errors, [a], [b])
    ensures errors == Distance(a, b)
  {
    var perm :| Permutes(perm, 1) && errors == PairedErrors([a], Reordered([b], perm));
    assert perm[0] == 0 && Reordered([b], perm) == [b];
    hide Distance;
    assert Range(0, 1) == [0];
    One(Errors([a], [b]), 0);
  }

  lemma {:induction false} TextOfMember(texts: seq<Run>, k: nat)
    requires OneTextEach(texts) && k < |texts|
    ensures TextOf(texts, texts[k].speaker) == texts[k].content
  {
    if k > 0 {
      assert texts[0].speaker != texts[k].speaker;
      assert OneTextEach(texts[1..]) by { assert forall i | 0 <= i < |texts| - 1 :: texts[1..][i] == texts[i + 1]; }
      TextOfMember(texts[1..], k - 1);
    }
  }

  lemma {:induction false} TextOfFound(texts: seq<Run>, speaker: int)
    ensures TextOf(texts, speaker) != "" ==> exists k :: 0 <= k < |texts| && texts[k] == Run(speaker, TextOf(texts, speaker))
  {
    if texts != [] && texts[0].speaker != speaker && TextOf(texts, speaker) != "" {
      TextOfFound(texts[1..], speaker);
      var k :| 0 <= k < |texts| - 1 && texts[1..][k] == Run(speaker, TextOf(texts, speaker));
      assert texts[k + 1] == texts[1..][k];
    }
  }

  lemma {:induction false} InPadded(texts: seq<string>, n: nat, text: string)
    requires |texts| <= n
    ensures text in texts ==> text in Padded(texts, n)
    ensures text in Padded(texts, n) ==> text in texts || text == ""
  {
    var padding := seq(n - |texts|, _ => "");
    assert Padded(texts, n) == texts + padding;
    if text in padding { var k :| 0 <= k < |padding| && padding[k] == text; }
  }

  /** The texts of a transcript with runs are what its speakers say, each speaker's text once. */
  lemma {:induction false} CollectedVoices(runs: seq<Run>, speaker: int, text: string) returns (who: int)
    ensures SpokenBy(runs, speaker) != "" ==> SpokenBy(runs, speaker) in Contents(Collected(runs))
    ensures text in Contents(Collected(runs)) ==> text == SpokenBy(runs, who)
  {
    var texts := Collected(runs);
    CollectedMeans(runs, speaker);
    TextOfFound(texts, speaker);
    who := 0;
    if text in Contents(texts) {
      var k :| 0 <= k < |texts| && Contents(texts)[k] == text;
      who := texts[k].speaker;
      CollectedMeans(runs, who);
      TextOfMember(texts, k);
    }
    hide Collected, SpokenBy, TextOf, OneTextEach;
    if SpokenBy(runs, speaker) != "" {
      var k :| 0 <= k < |texts| && texts[k] == Run(speaker, SpokenBy(runs, speaker));
      assert Contents(texts)[k] == SpokenBy(runs, speaker);
    }
  }

  /** The texts to be paired on the reference side are the padding and what each speaker says: every
      speaker with something to say has it there, and nothing else is there. */
  lemma {:induction false} TextsAreVoices(reference: Transcript, prediction: Transcript, speaker: int, text: string) returns (who: int)
    ensures SpokenBy(reference.runs, speaker) != "" ==> SpokenBy(reference.runs, speaker) in Reference(reference, prediction)
    ensures text in Reference(reference, prediction) && text != "" ==> text == SpokenBy(reference.runs, who)
  {
    var r, p := Contents(Split(reference, false)), Contents(Split(prediction, true));
    var n := if |r| >= |p| then |r| else |p|;
    assert reference.runs == [] ==> Collected(reference.runs) == [];
    assert r == Contents(Collected(reference.runs)) && Reference(reference, prediction) == Padded(r, n);
    hide *;
    who := CollectedVoices(reference.runs, speaker, text);
    InPadded(r, n, text);
    InPadded(r, n, SpokenBy(reference.runs, speaker));
  }
}
