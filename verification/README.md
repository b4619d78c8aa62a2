# Verified models of the benchmark harness and the quantization config code

The repository serves multimodal models and measures how well it does so. This project models the
parts of it that carry real logic and proves what they are for:

- **Diarization scoring.** The two-row edit distance, the speaker-paired character error rate
  (cpCER), the sweep that measures the diarization error rate (DER), interval merging, the
  timestamped-segment parser, and the merger that turns several clips into one long recording.
  (`Sums`, `EditDistance`, `Assignment`, `Pairings`, `CpCer`, `Segments`, `Intervals`, `ErrorRate`,
  `SpeakerMapping`, `SpeakerAgreement`, `Diarization`, `DiarizationTotals`, `SegmentText`,
  `SegmentReading`, `LongAudio`)
- **Quantization configs.** A search over a possibly cyclic graph of config nodes, and the in-place
  normalisation of what it finds. (`QuantNames`, `QuantConfig`)
- **Load generators.** The scheduled and closed-loop stages and the semaphore dispatcher, as step
  relations over every interleaving. (`ScheduledStage`, `ClosedLoop`, `Dispatch`)
- **Asset caches.** A double-checked lock shared by any number of callers that may crash, and a
  marker protocol that may die between any two steps. (`UtmosCache`, `SpeakerAssets`)
- **Streams and arithmetic.** Event-stream lines, HTTP chunks, RIFF/WAVE walkers, the playback
  deadline, evenly spread sampling flags, shards over a prefix cache. (`ByteStrings`, `Streams`,
  `Wav`, `Playback`, `Dosample`, `Shards`; `Wrappers` holds what modules share)

Code that mutates is modelled by methods and classes whose contracts are stated against
specification functions; code that computes is modelled by functions; protocols are step relations,
and their theorems speak of all runs. Segment times are whole ticks, the merger's times are whole
hundredths of a second (the precision it prints), other times are exact reals. The assignment solver
is a function value of which only optimality is assumed (`Assignment.CorrectSolver`), and
`Assignment.OptimumExists` shows that this can be met for every matrix.

### Where the code falls short of its documentation

Each of these is a theorem about the code as it is.

- The UTMOS cache documents a minimum file size, but a hit is not compared with it:
  `UtmosCache.SmallFilesAreRefused` shows that small files are refused in all runs exactly when the
  marker found at the start does not vouch for one, or there is a single caller and no file of the
  size the marker names (or no caller at all).
- The speaker-asset cache documents a new download on any mismatch with the marker. A file of at
  least the minimum size is kept and recorded again (`SpeakerAssets.AssetCache.DisagreeingFileIsKept`);
  `SpeakerAssets.AssetCache.Ensure` states exactly which files are downloaded.
- The diarization error of a perfect prediction need not be zero when both sides contain a speaker
  overlapping themselves: `DiarizationTotals.SelfOverlapCostsErrors` gives an input. If one side is
  free of self-overlap the error is zero exactly for equal speech (`Diarization.ZeroIffSameSpeech`);
  without that, `Diarization.ZeroIffAgree` decides each pairing, with any collar
  `Diarization.ZeroIffHeardInPairs` does, and `Diarization.EveryOptimumZeroIff` restates the former
  as a condition on the overlaps.
- The parser and the merger do not read the same tags. Where the parser sees no time inside a kept
  match and all kept matches have positive length, `SegmentText.MergeThenParse` shows that a merged
  reference reads back exactly if and only if no kept match leaves a bracket open and none is heard
  under a speaker tag of its own. Inputs on which it does not: `SegmentText.InnerTagTakesOver`,
  `SegmentText.OpenBracketLosesSegment` (a text without any inner tag, such as "a [ b"), and, with a
  time only the parser reads, `SegmentText.LooseTimeCutsShort`.
- Two clips of a merge can give their matches the same speaker label
  (`SegmentText.LabelZeroCollides`), exactly when they are neighbours, the later one keeps a match
  labelled 0 and the earlier one keeps a match with its own largest label
  (`SegmentText.ClipsShareSpeakerIff`). Speaker tags inside a matched text keep their old numbers and
  may coincide with anything.
- Normalising a quantization config twice is the same as once exactly when no block name and no key
  carries the prefix again once it has lost it (`QuantNames.TwiceIsOnceIff`); in the comma-separated
  form a blank can hide the second prefix (`QuantNames.BlankHidesAPrefix`). An owner that is a plain
  dict cannot be written back to when its metadata was not a dict (`QuantConfig.NormalizeOwner`).
- A negative sample limit reads differently from a warm and a cold cache (`Shards.NegativeLimit`).

## Model

| member | source | states |
|---|---|---|
| `EditDistance.Levenshtein` | benchmarks/metrics/transcribe_diarize_metrics.py:565-582 | the two-row loop returns the distance of the two strings, whatever their lengths |
| `EditDistance.DistanceIsLeastCost` | benchmarks/metrics/transcribe_diarize_metrics.py:565-582 | a number is the distance if and only if some edit script of that cost turns one string into the other and none is cheaper |
| `EditDistance.Achieved` | benchmarks/metrics/transcribe_diarize_metrics.py:569-581 | every cell of the table is the cost of a script between the two prefixes |
| `EditDistance.NoCheaper` | benchmarks/metrics/transcribe_diarize_metrics.py:569-581 | no script between two strings costs less than their distance |
| `EditDistance.Symmetric` | benchmarks/metrics/transcribe_diarize_metrics.py:565-582 | the distance is symmetric |
| `EditDistance.Triangle` | benchmarks/metrics/transcribe_diarize_metrics.py:565-582 | the distance obeys the triangle inequality, by composing scripts |
| `EditDistance.Bounds` | benchmarks/metrics/transcribe_diarize_metrics.py:565-582 | zero exactly on equal strings, at least the length difference, at most the longer length |
| `Assignment.OptimumExists` | benchmarks/metrics/transcribe_diarize_metrics.py:389 | every matrix has an assignment of least cost, so what is assumed of the solver can be met |
| `CpCer.CharacterStats` | benchmarks/metrics/transcribe_diarize_metrics.py:460-476 | lengths and edit distance of one pair of texts |
| `CpCer.StatsTable` | benchmarks/metrics/transcribe_diarize_metrics.py:380-388 | the filled matrix holds the statistics of every pair of speakers |
| `CpCer.Assigned` | benchmarks/metrics/transcribe_diarize_metrics.py:389-394 | for any optimum of the solver, the summed errors are the fewest over all speaker pairings, and the summed characters are the totals of both sides |
| `CpCer.CpCerStats` | benchmarks/metrics/transcribe_diarize_metrics.py:364-403 | the whole score: invalid exactly without reference tags or without reference text, each with its reason and the predicted characters; valid in every other case, with the minimum over all pairings of the padded texts and no character lost by padding or pairing |
| `CpCer.AllCharactersCount` | benchmarks/metrics/transcribe_diarize_metrics.py:364-403 | every score, valid or not, counts all predicted characters: those of the tagged runs, or the whole text when it has no tags; a valid one counts all reference characters; it is valid exactly when the reference has tags and some tagged text |
| `CpCer.UntaggedIsOneSpeaker` | benchmarks/metrics/transcribe_diarize_metrics.py:418-422 | against a prediction without tags the errors of a one-speaker reference are the edit distance of the two texts, none exactly when they are equal |
| `CpCer.TextsAreVoices` | benchmarks/metrics/transcribe_diarize_metrics.py:367-377 | the reference texts to be paired are the padding and what each speaker says, nothing else |
| `CpCer.ScoreIsDetermined` | benchmarks/metrics/transcribe_diarize_metrics.py:364-403 | the two transcripts determine the score, whatever optimum the solver returns |
| `CpCer.NoErrorsIff` | benchmarks/metrics/transcribe_diarize_metrics.py:364-403 | a valid score has no errors exactly when the padded predicted texts are the padded reference texts in some order |
| `CpCer.RenamingKeepsScore` | benchmarks/metrics/transcribe_diarize_metrics.py:364-403 | renaming the speakers of either transcript one-to-one keeps the score |
| `CpCer.RenamedCopyHasNoErrors` | benchmarks/metrics/transcribe_diarize_metrics.py:364-403 | a renamed copy of the reference has no errors |
| `CpCer.SplitBySpeaker` | benchmarks/metrics/transcribe_diarize_metrics.py:410-431 | the dictionary of speaker texts, in order of first appearance |
| `CpCer.CollectedMeans` | benchmarks/metrics/transcribe_diarize_metrics.py:424-431 | one entry per speaker, holding everything that speaker says in order |
| `CpCer.NamesAreIrrelevant` | benchmarks/metrics/transcribe_diarize_metrics.py:410-431 | renaming the speaker tags of a transcript one-to-one leaves the texts to be paired, hence the score, unchanged |
| `Pairings.OrderIsIrrelevant` | benchmarks/metrics/transcribe_diarize_metrics.py:389-394 | the fewest errors do not depend on the order of the predicted speakers |
| `Pairings.ZeroIffReordered` | benchmarks/metrics/transcribe_diarize_metrics.py:389-394 | the fewest errors are zero exactly when the predicted texts are the reference texts in some order |
| `Pairings.ErrorBounds` | benchmarks/metrics/transcribe_diarize_metrics.py:389-394 | the fewest errors lie between the difference and the sum of the character totals |
| `Pairings.FewestTriangle` | benchmarks/metrics/transcribe_diarize_metrics.py:389-394 | the fewest errors obey the triangle inequality between groups of equally many speakers |
| `Pairings.PaddingIsIrrelevant` | benchmarks/metrics/transcribe_diarize_metrics.py:375-377 | one more silent speaker on both sides leaves the fewest errors unchanged |
| `SegmentText.ReadTags` | benchmarks/metrics/transcribe_diarize_metrics.py:731-740 | the first loop collects the times and speakers outside any bracket left open before them |
| `SegmentText.ParseSegments` | benchmarks/metrics/transcribe_diarize_metrics.py:730-765 | both loops together return the segments of the recursive reading of the tags the parser sees, all of positive length |
| `SegmentReading.EverySegmentHasSource` | benchmarks/metrics/transcribe_diarize_metrics.py:742-764 | every segment of every text lies between two neighbouring times the parser sees, has them as start and end, and belongs to the last speaker tag between them, or else to an earlier one |
| `SegmentReading.PairReads` | benchmarks/metrics/transcribe_diarize_metrics.py:742-764 | pair after pair: a pair of times gives exactly its segment if a speaker is known and the end is later, and what follows is read with the speaker of the last segment |
| `SegmentReading.BracketTakesNext` | benchmarks/metrics/transcribe_diarize_metrics.py:732 | an open bracket takes what follows up to the next closing bracket with it and nothing more |
| `SegmentReading.NoBracketHidesNothing` | benchmarks/metrics/transcribe_diarize_metrics.py:732-740 | without an open bracket every tag is seen |
| `SegmentText.PrintClip` | benchmarks/tasks/transcribe_diarize.py:164-175 | one clip's kept matches printed shifted and relabelled, and the largest label among all its matches |
| `SegmentText.MergeConcatReferences` | benchmarks/tasks/transcribe_diarize.py:151-179 | an error exactly when some clip names no speaker above 0; otherwise the text of all kept matches, each clip in its own label range |
| `SegmentText.MergeThenParse` | benchmarks/tasks/transcribe_diarize.py:151-179 | provided the parser sees no time inside a kept match: if no kept match leaves a bracket open, parsing the merged text gives exactly the kept matches, shifted and relabelled, if and only if each of positive length is heard under its own new label; if all kept matches have positive length, it does so if and only if moreover none leaves a bracket open |
| `SegmentReading.ReadsEachMatch` | benchmarks/tasks/transcribe_diarize.py:151-179 | under that condition segment k of the merged reading is kept match k: its start, end and label as printed |
| `SegmentReading.LeftmostMatches` | benchmarks/tasks/transcribe_diarize.py:146-148 | the pattern's matches are found from left to right: one that starts here is taken and the search goes on behind it, otherwise one token later |
| `SegmentReading.ContributedMatches` | benchmarks/tasks/transcribe_diarize.py:165-175 | a clip contributes, match by match and in order, those that do not end beyond its limit, moved by its offset and relabelled by the base |
| `SegmentReading.ContributedClips` | benchmarks/tasks/transcribe_diarize.py:158-178 | each clip's contribution follows those before it, on top of their largest labels |
| `SegmentReading.AcceptedIfAllSpeak` | benchmarks/tasks/transcribe_diarize.py:176-177 | the merge is accepted exactly when every clip has a match of a speaker above 0 |
| `SegmentReading.MergedTextHoldsMatches` | benchmarks/tasks/transcribe_diarize.py:151-179 | the merger's own pattern finds in the merged text exactly the matches it printed, texts and all |
| `SegmentText.InnerTagTakesOver` | benchmarks/tasks/transcribe_diarize.py:146-148 | accepted inputs on which the round trip fails: any two different speaker numbers in one match |
| `SegmentText.OpenBracketLosesSegment` | benchmarks/metrics/transcribe_diarize_metrics.py:732-740 | accepted inputs, with neither a time nor a speaker tag inside the match, on which it fails: an opening bracket hides the closing time from the parser |
| `SegmentText.LooseTimeCutsShort` | benchmarks/tasks/transcribe_diarize.py:146-148 | accepted inputs outside the proviso on which the round trip fails: a time with blanks inside its brackets cuts the segment short |
| `SegmentText.TidyParse` | benchmarks/metrics/transcribe_diarize_metrics.py:730-765 | on tidy text, where every match holds text and closed brackets only and no bracket is left open, the parser and the merger's pattern see the same segments |
| `SegmentText.ParseMergedIsMergeParsed` | benchmarks/tasks/transcribe_diarize.py:151-179 | on tidy clips merging commutes with parsing: the parsed merge is each clip's parse, cut at its limit, shifted by its offset and moved to its label range |
| `SegmentText.ClipsShareSpeakerIff` | benchmarks/tasks/transcribe_diarize.py:158-178 | two clips of an accepted merge give matches the same label if and only if they are neighbours, the later one keeps a match labelled 0 and the earlier one keeps a match with its own largest label |
| `SegmentText.LabelsAscend` | benchmarks/tasks/transcribe_diarize.py:158-178 | the labels of a later clip are never below those of an earlier one |
| `SegmentText.LabelZeroCollides` | benchmarks/tasks/transcribe_diarize.py:167-178 | an accepted input with label 0 on which two clips share a label |
| `Segments.ActiveIffCovered` | benchmarks/metrics/transcribe_diarize_metrics.py:945-954 | a speaker is active at a tick exactly when one of their segments covers it |
| `Segments.OverlapIsShared` | benchmarks/metrics/transcribe_diarize_metrics.py:871-905 | an overlap cell is the inner product of the two speakers' coverage counts over time |
| `Intervals.MergeIntervals` | benchmarks/metrics/transcribe_diarize_metrics.py:926-935 | the result is sorted with a gap between any two intervals and covers exactly the points of the input |
| `Intervals.SeparatedUnique` | benchmarks/metrics/transcribe_diarize_metrics.py:926-935 | such a list is determined by the points it covers, so the merged list is canonical |
| `ErrorRate.ElementaryInterval` | benchmarks/metrics/transcribe_diarize_metrics.py:818-841 | between neighbouring boundaries the test on the whole interval and the midpoint test against the regions decide every tick |
| `ErrorRate.Sweep` | benchmarks/metrics/transcribe_diarize_metrics.py:818-868 | the accumulating sweep equals the sum over all ticks outside the collar of the per-tick errors |
| `SpeakerMapping.FillOverlap` | benchmarks/metrics/transcribe_diarize_metrics.py:883-893 | the filled matrix holds for every pair of speakers the overlap summed over all pairs of their segments |
| `SpeakerMapping.BestMapping` | benchmarks/metrics/transcribe_diarize_metrics.py:871-898 | the returned mapping pairs the speakers in a matching of greatest total overlap, for any optimum of the solver |
| `SpeakerMapping.OptimalIsBest` | benchmarks/metrics/transcribe_diarize_metrics.py:894-898 | an optimal assignment of the negated matrix is a matching of the labels that no other matching beats |
| `SpeakerAgreement.BestOfCopyIsEqual` | benchmarks/metrics/transcribe_diarize_metrics.py:871-898 | against a renamed copy, every matching of greatest overlap pairs speakers with equal coverage at every tick |
| `SpeakerAgreement.BestHasNoStray` | benchmarks/metrics/transcribe_diarize_metrics.py:871-898 | against the same speech cut differently, every such matching keeps each predicted speaker inside their reference speaker |
| `SpeakerAgreement.BestAgrees` | benchmarks/metrics/transcribe_diarize_metrics.py:871-898 | for every optimum, paired speakers are heard at the same ticks, for renamed copies and for equal speech when one side has no self-overlap |
| `Diarization.PerfectPredictionScoresZero` | benchmarks/metrics/transcribe_diarize_metrics.py:808-898 | the error of a perfect prediction under any names is exactly zero, with any collar and any optimum of the solver |
| `Diarization.ZeroMeansSameSpeech` | benchmarks/metrics/transcribe_diarize_metrics.py:808-868 | a zero error without collar, under any pairing, means the prediction is the reference speech under other names |
| `Diarization.ZeroIffSameSpeech` | benchmarks/metrics/transcribe_diarize_metrics.py:808-898 | without collar, if one side has no self-overlap, the error is zero exactly when both say the same under some renaming |
| `Diarization.ZeroIffHeardInPairs` | benchmarks/metrics/transcribe_diarize_metrics.py:831-861 | with any collar and any pairing there are no errors exactly when, at every tick outside the collar, paired speakers are heard together or not at all and everyone heard is paired |
| `Diarization.ZeroIffAgree` | benchmarks/metrics/transcribe_diarize_metrics.py:831-861 | between equally many speakers a pairing has no errors without collar exactly when paired speakers are heard at the same ticks |
| `Diarization.EveryOptimumZeroIff` | benchmarks/metrics/transcribe_diarize_metrics.py:808-898 | for equal speech, self-overlap or not, every optimum of the solver has zero error exactly when each pairing of speakers not heard at the same ticks has less overlap than some other pairing |
| `Diarization.HitCount` | benchmarks/metrics/transcribe_diarize_metrics.py:842-860 | the correctly attributed speakers at a tick are the pairs heard together |
| `Diarization.TimeIsConserved` | benchmarks/metrics/transcribe_diarize_metrics.py:846-860 | reference time plus false alarm equals predicted time plus missed time, with any collar and mapping |
| `Diarization.DurationsMeasured` | benchmarks/metrics/transcribe_diarize_metrics.py:846-861 | outside the collar every tick counts its reference speakers into the total, the larger side less the pairs heard into the errors, and the smaller side less the pairs heard into the confusion, with any regions and pairing |
| `Diarization.SurplusMeasured` | benchmarks/metrics/transcribe_diarize_metrics.py:847-852 | false alarm and missed time are the surplus of either side over the other, tick by tick |
| `Diarization.EmptyPrediction` | benchmarks/metrics/transcribe_diarize_metrics.py:846-863 | an empty prediction misses everything, nothing else goes wrong, and the rate is one |
| `Diarization.EmptyReference` | benchmarks/metrics/transcribe_diarize_metrics.py:846-863 | against an empty reference all predicted time is false alarm and there is no rate |
| `Diarization.RateIsShare` | benchmarks/metrics/transcribe_diarize_metrics.py:861-863 | there is a rate exactly with reference time, and it is the share of errors in it |
| `Diarization.MappingMinimisesErrors` | benchmarks/metrics/transcribe_diarize_metrics.py:808-898 | without collar and self-overlap no pairing of the speakers has fewer errors than the solver's |
| `DiarizationTotals.CollarRegions` | benchmarks/metrics/transcribe_diarize_metrics.py:913-923 | the regions cover exactly the ticks from the start of the recording on that lie within the collar of a start or an end of a reference segment |
| `DiarizationTotals.TimestampDer` | benchmarks/metrics/transcribe_diarize_metrics.py:808-868 | the whole scorer measures the per-tick errors outside the collar under a best mapping; it reports none exactly when paired speakers are heard together outside the collar; none for a renamed copy with any collar, and without collar and self-overlap on one side exactly for equal speech |
| `DiarizationTotals.WindowExists` | benchmarks/metrics/transcribe_diarize_metrics.py:808-825 | every two transcripts fit into a window of ticks, which is all the scorer's contract asks of them |
| `DiarizationTotals.TotalIsUnionLength` | benchmarks/metrics/transcribe_diarize_metrics.py:818-866 | without collar the total is the sum over reference speakers of the length of the union of their segments |
| `DiarizationTotals.SeparatedLength` | benchmarks/metrics/transcribe_diarize_metrics.py:926-942 | the lengths of merged intervals add up to the number of ticks inside them |
| `DiarizationTotals.SelfOverlapCostsErrors` | benchmarks/metrics/transcribe_diarize_metrics.py:871-898 | an input where both sides say the same, yet every optimum of the solver swaps the speakers and the error is not zero |
| `LongAudio.FillerCutBoundary` | benchmarks/tasks/transcribe_diarize.py:182-192 | the latest segment end within the limit, if there is one |
| `LongAudio.AppendClips` | benchmarks/tasks/transcribe_diarize.py:238-248 | every later clip stands whole after its gap of silence, and its recorded offset runs ahead of its true start by less than one sample per gap |
| `LongAudio.BuildLongAudioConcat` | benchmarks/tasks/transcribe_diarize.py:195-254 | each error exactly under its condition and in the order of the code, the merger's included; otherwise the padding is never negative, the result never exceeds the target and misses it by fewer samples than there are clips, every kept filler segment ends within the kept audio, and the reference is the merge of the clips' references at the recorded offsets, the first cut where its audio is |
| `LongAudio.BoundaryIsSegmentEnd` | benchmarks/tasks/transcribe_diarize.py:182-192 | there is a boundary unless every reference segment ends beyond the time left; the cut is the end of a reference segment, and none within that time ends later |
| `LongAudio.KeptMatchesEndByCut` | benchmarks/tasks/transcribe_diarize.py:250-254 | the merge keeps of the first clip exactly the matches that end by the cut |
| `LongAudio.FillerIsWhatIsLeft` | benchmarks/tasks/transcribe_diarize.py:221-222 | the time left for the first clip is the target less the other clips and the gaps |
| `LongAudio.PrintedOffset` | benchmarks/tasks/transcribe_diarize.py:171-174 | the offset printed for a clip is within half a hundredth of a second, and the drift, of where its samples start |
| `LongAudio.MergedReferenceReads` | benchmarks/tasks/transcribe_diarize.py:250-254 | on tidy references, what is read from the merged reference is what is read from each clip, cut, shifted by the printed offset and moved to its own labels |
| `LongAudio.MeetsTarget` | benchmarks/tasks/transcribe_diarize.py:221-238 | the whole-sample pieces add up to the target less under one sample for each clip |
| `QuantConfig.NowhereIffUnreachable` | sglang_omni/quantization.py:72-88 | on any finite graph, cyclic or not, the search ends, and finds nothing exactly when no node reachable through the nested attributes carries metadata |
| `QuantConfig.FoundIsReached` | sglang_omni/quantization.py:231-253 | what is found is a node with metadata at the end of a walk through nested attributes |
| `QuantConfig.FirstAttributeWins` | sglang_omni/quantization.py:231-253 | which owner is found: a node with metadata is its own; a bare one takes the first of text, thinker and talker from which a walk that does not come back to it leads to metadata, and an owner at the end of such a walk |
| `QuantConfig.FirstOwnerInOrder` | sglang_omni/quantization.py:68-88 | the same for the root of a search, in the nodes' own fields |
| `QuantConfig.Search` | sglang_omni/quantization.py:231-253 | the recursive search with its visited set is the depth-first specification |
| `QuantConfig.ResolveQuantConfig` | sglang_omni/quantization.py:68-88 | nothing, a type error or the content, decided by the first owner of metadata |
| `QuantConfig.NormalizeBlocks` | sglang_omni/quantization.py:194-220 | the block names are normalised in place, and a change is reported exactly when a name loses its prefix |
| `QuantConfig.NormalizeExtraKeys` | sglang_omni/quantization.py:171-191 | the keys of the extra config are renamed in place, and a change is reported exactly when some key changes |
| `QuantConfig.NormalizeOwner` | sglang_omni/quantization.py:223-285 | type error and failed write-back each under its exact condition; otherwise the owner's metadata reads as the normalised content, under the same key and with the same nested attributes; when the write-back fails a live attribute dict is normalised all the same |
| `QuantConfig.NormalizeQuantConfig` | sglang_omni/quantization.py:223-285 | after normalisation the search stops at the same node and reads the normalised content; no other node and no other dict is touched |
| `QuantNames.NormalNames` | sglang_omni/quantization.py:194-220 | the names afterwards are the names before, each having lost exactly one leading prefix; comma-separated names are trimmed when rewritten |
| `QuantNames.LocalNames` | sglang_omni/quantization.py:194-220 | in either form a name is selected afterwards exactly when it is the rest of a name that carried the prefix, or was selected before and carries no prefix |
| `QuantNames.SplitJoin` | sglang_omni/quantization.py:199-218 | splitting what was joined gives the parts back |
| `QuantNames.JoinFields` | sglang_omni/quantization.py:200 | joining the fields of a text gives it back |
| `QuantNames.TrimTakesBlanks` | sglang_omni/quantization.py:200 | trimming takes blanks off both ends and nothing else |
| `QuantNames.StripKeyShapes` | sglang_omni/quantization.py:157-168 | a key loses the prefix in each of its three shapes, keeps a leading wildcard, and stays as it is otherwise |
| `QuantNames.StableIffNotDoubled` | sglang_omni/quantization.py:194-220 | in either form a second normalisation changes no block name exactly when no name carries the prefix again once it has lost it, after trimming in the comma-separated form |
| `QuantNames.BlankHidesAPrefix` | sglang_omni/quantization.py:199-218 | comma-separated inputs where no name starts with the prefix twice and the second pass still changes the value |
| `QuantNames.KeysStableIff` | sglang_omni/quantization.py:157-191 | a second renaming changes no key exactly when no key, plain, escaped or behind a wildcard, carries the prefix again once it has lost it |
| `QuantNames.TwiceIsOnceIff` | sglang_omni/quantization.py:171-220 | normalising the whole content twice is the same as once exactly under both conditions |
| `QuantNames.RenamedLookup` | sglang_omni/quantization.py:180-190 | each renamed key maps to the value of the last key that strips to it |
| `ScheduledStage.GroupedMeans` | benchmarks/eval/benchmark_tts_serving.py:196-206 | grouping keeps all arrivals in order; in scheduled mode the groups are the maximal runs of equal offsets |
| `ScheduledStage.RunKeeps` | benchmarks/eval/benchmark_tts_serving.py:156-262 | in every state of every interleaving the counter is the number of unfinished admitted tasks, at most the limit; every arrived scenario is accounted for once; groups are saturated as a whole or not at all |
| `ScheduledStage.AdmittedIffFits` | benchmarks/eval/benchmark_tts_serving.py:216-236 | in every run a group is admitted as a whole exactly when it fits beside the requests in flight at its arrival, and otherwise all of it is reported as saturated |
| `ScheduledStage.StageGroupsArrivals` | benchmarks/eval/benchmark_tts_serving.py:196-206 | the stage has the given limit, and its groups are the runs of equal offsets in scheduled mode, single arrivals otherwise |
| `ScheduledStage.ReportedAsFinished` | benchmarks/eval/benchmark_tts_serving.py:323-345 | a task that returned is reported with its result, one that raised as failed, a cancelled one not at all |
| `ScheduledStage.OneResultEach` | benchmarks/eval/benchmark_tts_serving.py:156-262 | at the end every scenario has exactly one result, except those whose task was cancelled |
| `ScheduledStage.EachArrivalAnswered` | benchmarks/eval/benchmark_tts_serving.py:191-262 | from the list of arrivals, grouped as the mode says, to its results: every scenario listed once ends with exactly one result unless its task was cancelled |
| `ScheduledStage.PeakIsMaximum` | benchmarks/eval/benchmark_tts_serving.py:156-262 | the reported peak is the largest number of requests in flight over the run |
| `ScheduledStage.CollectOrdered` | benchmarks/eval/benchmark_tts_serving.py:323-345 | harvesting gives one result for every finished task that was not cancelled, and none is a saturation |
| `ScheduledStage.RunsAreShort` | benchmarks/eval/benchmark_tts_serving.py:156-262 | every run ends: one step per scenario, one per group and one more at most |
| `ScheduledStage.NeverStuck` | benchmarks/eval/benchmark_tts_serving.py:156-262 | a stage that has not ended has a next step |
| `ClosedLoop.RunKeeps` | benchmarks/eval/benchmark_tts_serving.py:112-153 | every scenario taken so far is running, answered or failed exactly once, and the counter is the number in flight |
| `ClosedLoop.OneResultEach` | benchmarks/eval/benchmark_tts_serving.py:112-153 | a finished stage with workers has answered every scenario exactly once, never with more than the limit in flight |
| `ClosedLoop.RunsAreShort` | benchmarks/eval/benchmark_tts_serving.py:112-153 | every run ends: one step per worker and one per scenario at most |
| `ClosedLoop.NeverStuck` | benchmarks/eval/benchmark_tts_serving.py:112-153 | a stage with a worker that has not returned or failed has a next step |
| `ClosedLoop.PeakIsMaximum` | benchmarks/eval/benchmark_tts_serving.py:123-130 | the peak is the greatest number ever in flight |
| `ClosedLoop.NobodyRests` | benchmarks/eval/benchmark_tts_serving.py:125-146 | while scenarios are left and none has failed, every started worker is busy |
| `ClosedLoop.AsManyAsAllowed` | benchmarks/eval/benchmark_tts_serving.py:125-149 | once all workers have started, and while scenarios are left and none has failed, exactly as many requests are in flight as the limit allows |
| `Dispatch.StepKeeps` | benchmarks/benchmarker/runner.py:115-148 | permits and requests in flight always add up to the limit, every created sample waits, is in flight or has its reply, and no reply is overwritten |
| `Dispatch.DispatchesAll` | benchmarks/benchmarker/runner.py:115-148 | under every schedule each sample is sent exactly once, the limit holds, and result k is the reply received for sample k |
| `Dispatch.RunsAreShort` | benchmarks/benchmarker/runner.py:115-148 | every schedule takes at most three steps for each sample, and is finished exactly when it has taken them all |
| `Dispatch.NeverStuck` | benchmarks/benchmarker/runner.py:115-148 | until it is finished there is always a next step |
| `UtmosCache.RunKeeps` | benchmarks/metrics/utmos.py:91-161 | in every state of every run with any number of callers and crashes, at most one caller holds the lock, and what that caller relies on about the disk is true |
| `UtmosCache.AtMostOneDownload` | benchmarks/metrics/utmos.py:91-161 | at most one download of a file of at least the minimum size comes through in a run without crashes, and at most one more for each crash; a smaller download is removed and raises |
| `UtmosCache.DownloadsCounted` | benchmarks/metrics/utmos.py:138-146 | what is counted: exactly the steps that bring a file of at least 10 MiB |
| `UtmosCache.GoodCacheIsKept` | benchmarks/metrics/utmos.py:91-124 | no run that starts with a marker of the expected repository and the size of the file there downloads anything or touches either |
| `UtmosCache.OnlyHolderWrites` | benchmarks/metrics/utmos.py:118-161 | only the lock holder changes the marker or the file |
| `UtmosCache.GoodStaysGood` | benchmarks/metrics/utmos.py:91-161 | once the marker vouches for the file neither is touched again |
| `UtmosCache.ReturnsAreVouchedFor` | benchmarks/metrics/utmos.py:63-161 | a returned path has, at that step, the size and repository of an entry the caller read or wrote |
| `UtmosCache.SmallFilesAreRefused` | benchmarks/metrics/utmos.py:63-88 | for any number of callers, no run returns a file below the minimum exactly when the marker found at the start does not vouch for one, or there is one caller and no file of the size it names, or none |
| `SpeakerAssets.AssetCache.MigrateLegacyLayout` | benchmarks/metrics/speaker_similarity_assets.py:180-204 | one rename, only of a large file and only into a free place |
| `SpeakerAssets.AssetCache.FetchIfMissing` | benchmarks/metrics/speaker_similarity_assets.py:207-229 | a file present is left alone; a bad download fails; whatever step it dies at, no other file changes |
| `SpeakerAssets.AssetCache.Rebuild` | benchmarks/metrics/speaker_similarity_assets.py:309-354 | the marker is removed first and written last, so it is gone or truthful wherever the call dies |
| `SpeakerAssets.AssetCache.Ensure` | benchmarks/metrics/speaker_similarity_assets.py:232-354 | a call that succeeds leaves a hit; it downloads exactly the files that were missing or small and not migrated; a call on a hit changes nothing; large files are never replaced and files the call does not expect never touched; it fails only on a missing override, a bad download or a crash |
| `SpeakerAssets.HitInPlainTerms` | benchmarks/metrics/speaker_similarity_assets.py:264-303 | a hit: the marker lists exactly the files the call expects, each is there with at least 100 MiB, agrees with a recorded size, and is not recorded from another repository |
| `SpeakerAssets.AssetCache.DisagreeingFileIsKept` | benchmarks/metrics/speaker_similarity_assets.py:309-348 | a large file that disagrees with its marker misses the cache, is not fetched again, and is recorded as it is |
| `SpeakerAssets.AssetCache.Calls` | benchmarks/metrics/speaker_similarity_assets.py:232-354 | over any sequence of calls in either mode with a crash at any step, each file has at most one good download and a truthful marker stays truthful |
| `Streams.ReadLines` | benchmarks/tasks/tts.py:874-909 | the collector is given every line of the concatenated bytes, then the remainder unless it is blank |
| `Streams.SplitIsUnique` | benchmarks/tasks/tts.py:886-899 | a byte string is lines and a remainder in only one way |
| `Streams.CutsAreInvisible` | benchmarks/tasks/tts.py:874-909 | however the network cuts the stream, the collector is given the same lines |
| `Streams.RemainderDelivered` | benchmarks/tasks/tts.py:901-909 | the remainder is delivered exactly when it holds a byte that is no white space |
| `Streams.IterResponseHttpChunks` | benchmarks/tasks/tts.py:1086-1103 | one chunk for each run of fragments up to an end mark that carries bytes, stamped with the time of its first bytes, and one for what is left at the end |
| `Streams.BytesArrive` | benchmarks/tasks/tts.py:1086-1103 | every byte of the stream is yielded in order, and no chunk is empty |
| `Streams.ChunksCarryFirstTimes` | benchmarks/tasks/tts.py:1086-1103 | every chunk carries the time of the fragment that brought its first byte; a time of zero is replaced by that of the closing mark or of the end of the stream |
| `Streams.OneOutcome` | benchmarks/tasks/tts.py:1086-1103 | the fragments determine what is yielded |
| `Wav.WavInfo` | benchmarks/tts_serving/audio_validation.py:283-312 | the position loop is the walk over the rest of the body, in bounds and terminating on every byte string |
| `Wav.InfoIffLayout` | benchmarks/tts_serving/audio_validation.py:283-312 | it succeeds exactly on chunks that lead to a data chunk past playable formats only, and returns the first data chunk with the last well-formed format before it |
| `Wav.WalkFollows` | benchmarks/tts_serving/audio_validation.py:283-312 | whatever chunks are printed with odd-size padding, the walk follows them |
| `Wav.FormatBytes` | benchmarks/tts_serving/audio_validation.py:296-305 | where the fields of a format chunk stand, byte by byte, and that only plain PCM with some channel and rate is accepted |
| `Wav.WavDuration` | benchmarks/tts_serving/metrics.py:99-127 | the second walker's loop against its walk, including a division by zero for less than one byte per second |
| `Wav.SizeFollows` | benchmarks/tts_serving/metrics.py:99-124 | the second walker finds the size of the first data chunk and the last format before it, whatever the encoding |
| `Wav.SizeMeets` | benchmarks/tts_serving/metrics.py:99-124 | it finds samples only where there is a data chunk that holds some |
| `Wav.DurationInBytes` | benchmarks/tts_serving/metrics.py:125-127 | the duration is the data size over the whole bytes of a second, and a division by zero below one byte |
| `Wav.WalkersAgree` | benchmarks/tts_serving/metrics.py:99-127 | whenever the first walker succeeds on whole-byte samples the second reports the same duration |
| `Wav.CanonicalAgree` | benchmarks/benchmarker/utils.py:345-356 | on the canonical 44-byte header the fixed-offset reader agrees with both |
| `Playback.ComputeMaxPlaybackUnderrun` | benchmarks/metrics/playback_continuity.py:11-35 | each error exactly under its guard; otherwise the longest silence before any chunk |
| `Playback.LongestIsUnique` | benchmarks/metrics/playback_continuity.py:26-35 | the chunks determine the reported silence |
| `Playback.DeadlineIsLatestFinish` | benchmarks/metrics/playback_continuity.py:26-34 | the deadline is the maximum over earlier chunks of arrival plus everything played from there on |
| `Playback.SoundAndSilence` | benchmarks/metrics/playback_continuity.py:26-34 | the silences add up to last deadline less first arrival less total duration |
| `Playback.SilenceIsLeastDelay` | benchmarks/metrics/playback_continuity.py:26-34 | the total silence is the least start-up delay that makes playback gapless |
| `Playback.LongestAgainstTotal` | benchmarks/metrics/playback_continuity.py:26-35 | the longest silence lies between mean and total, and is zero exactly when playback is gapless at once |
| `Playback.ClockOriginIsIrrelevant` | benchmarks/metrics/playback_continuity.py:26-35 | shifting the clock changes nothing |
| `Playback.PassRateIsMonotone` | benchmarks/metrics/playback_continuity.py:38-50 | there is a rate exactly for a threshold that is not negative and some scored request; a looser threshold never lowers it, and it is known when it stays equal and when it is one |
| `Playback.RateCounts` | benchmarks/metrics/playback_continuity.py:46-50 | the rate counts the requests with a value and those whose value is within the threshold |
| `Dosample.SubtalkerDosampleFlags` | benchmarks/eval/benchmark_tts_seedtts.py:224-234 | an error exactly for a ratio outside [0, 1]; otherwise one flag per id, that of its last sample |
| `Dosample.PrefixCount` | benchmarks/eval/benchmark_tts_seedtts.py:231-233 | the first k flags hold exactly the floor of k times the ratio |
| `Dosample.EveryWindowIsFair` | benchmarks/eval/benchmark_tts_seedtts.py:231-233 | every window holds the floor or the ceiling of its share |
| `Dosample.Repeats` | benchmarks/eval/benchmark_tts_seedtts.py:231-233 | the flags repeat with the denominator of the ratio |
| `Shards.BlocksAreDisjoint` | benchmarks/eval/bench_sweep.py:206-239 | in every stage the clients read pairwise disjoint blocks inside the corpus |
| `Shards.EverySlotOnce` | benchmarks/eval/bench_sweep.py:234-239 | over as many consecutive stages as slots every client reads every block exactly once |
| `Shards.SlotsFit` | benchmarks/eval/bench_sweep.py:210-215 | there are as many slots as whole blocks fit, and the sweep starts exactly when every client can have its own |
| `Shards.OffsetsRotate` | benchmarks/eval/bench_sweep.py:234-237 | client i starts with block i, and each stage moves everyone on to the block of the next client |
| `Shards.StagedCache.LoadFromArrow` | benchmarks/dataset/seedtts.py:130-214 | for any history of loads a non-negative limit, or any limit without a full entry, gives what an uncached load gives; the new entry is stated exactly |
| `Shards.FreshRows` | benchmarks/dataset/seedtts.py:163-205 | an uncached load fails exactly when one of the rows asked for has no audio, and otherwise gives the first rows, as many as asked for |
| `Shards.SliceRows` | benchmarks/dataset/seedtts.py:138-140 | a bound on the staged rows counts from the front, a negative one from the end |
| `Shards.NegativeLimit` | benchmarks/dataset/seedtts.py:137-145 | for a negative limit a full entry and an uncached load agree only when both give nothing |
| `Shards.LoadBenchmarkSamples` | benchmarks/eval/benchmark_tts_seedtts.py:273-285 | a negative offset is an error; otherwise, for every limit, warm or cold cache, the prefix that is loaded and what is dropped from it |
| `Shards.EachGetsItsBlock` | benchmarks/eval/benchmark_tts_seedtts.py:273-285 | over a sound corpus each client of each stage gets exactly its own block of rows |

## Left out

- HTTP, WebSocket and SDK clients, servers and subprocesses, ffmpeg, printing and report writing.
- The serving runtime itself (coordinator, stages, relays, schedulers) is not part of this model.
- Downloads: modelled as steps that create a file of some size or fail; the minimum-size check, the clean-up and the retry behaviour around them are modelled.
- The rapidfuzz path of the edit distance and the inside of `linear_sum_assignment`: foreign code; only the optimality of the latter is assumed.
- Regular expressions, Unicode cleaning and `str.strip` beyond blanks, tabs and line ends: transcripts are token lists or runs, cleaning has happened.
- Transcripts are split into tokens as the text stands: times and speakers in either spelling, closed brackets that are no tags, opening brackets left open, and text without brackets; tags that arise only from joining two pieces of text are not considered.
- Floating-point rounding: segment times are whole ticks, merged times whole hundredths, other times exact reals, the sampling ratio a fraction.
- Random draws, clock reads and numpy percentiles: arrival offsets, times and gaps are inputs.
- Diarization.MappingMinimisesErrors: does not extend to a positive collar, because the code chooses the mapping from the full overlap and ignores the collar there.
- Diarization.ZeroIffSameSpeech: needs one side without self-overlap; `DiarizationTotals.SelfOverlapCostsErrors` shows why, renamed copies are covered without it by `Diarization.PerfectPredictionScoresZero`, and equal speech in general by `Diarization.EveryOptimumZeroIff`.
- SegmentText.MergeThenParse: assumes that the parser sees no time inside a kept match, such as one with blanks inside its brackets; `SegmentText.LooseTimeCutsShort` shows inputs with one. With matches of no length the condition on open brackets is only sufficient.
- Pairings.FewestTriangle: three groups of equally many speakers, as padding makes them; the comparison of cpCER with a speaker-blind error rate does not hold in general and is not stated.
- LongAudio.BuildLongAudioConcat: the placement clauses are for a gap that is not negative; a recorded offset exactly between two hundredths of a second is printed upward; reading and averaging channels of audio files is not part of this model.
- QuantConfig.NormalizeQuantConfig: block lists hold strings and the extra config is a list of key-value pairs in insertion order; other values under those keys, which the code leaves alone, are the empty forms.
- ScheduledStage.OneResultEach: the program's record of a raised task does not name its scenario, while the model's carries the id of the task it was made from; a cancelled task yields no result in the code either; what cancels tasks is outside the model, and so is a task cancelled before its first step, whose counter the code never releases.
- ClosedLoop.OneResultEach and Dispatch.DispatchesAll: speak of normal completion; which exception the gathering call raises first is not modelled.
- SpeakerAssets.AssetCache.Ensure: the presence and the size of a file are read together, and a partially moved legacy file across file systems is not modelled.
- UtmosCache.AtMostOneDownload: nothing outside the callers changes the cache directory.
- Wav.WavInfo: the encoding is the plain PCM code 1 as in the code; extensible formats are refused there and here.
- Event parsing and audio decoding of each streamed line, and the WAV container built from the result: one-branch code over foreign libraries.
- Staging of audio files and path validation in the dataset loader: a row that cannot be staged fails the load.
- Multiple-choice parsing, error ladders, voice and batch validators, word error rate aggregates, launchers: single-branch facts or plain sums.
