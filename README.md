# ai-bodycam-reports-eval in Dafny

This project models the deterministic core of a pipeline that turns body-camera videos into police-report narratives and atomic facts, and of the metrics and survey server used to evaluate them:

- **Stage runner** (`main_pipeline.py`, module `StageRunner`). Every URL gets the key `f"{i:02d}"` and passes through three stages: audio download, raw transcript and clean transcript. Each stage writes one artifact file and is skipped when that file exists. A failure ends that item only and appends one entry to `errors.log`. The artifact directory is a set of artifacts; each stage action is an oracle that succeeds, creating its artifact, or fails with a traceback. Four things are proved:
  - the skip rule and the stage order;
  - isolation between items;
  - the append-only log;
  - that every item is attempted exactly once, and idempotence.
- **Batch jobs** (`batch_prompt_narrative.py`, `batch_prompt_atomic.py`; modules `BatchJob`, `NarrativeBatch` and `AtomicBatch`). Both scripts share one protocol:
  - keyed requests are built from the input files that exist;
  - a job state is polled until it is terminal;
  - result records are demultiplexed into per-index output files, with a `written` counter.

  The Gemini service is replaced by what the scripts observe of it: the sequence of job states the polls return, and the lines of the results file, with `json.loads` as a parameter.
- **Metrics** (`metrics.py`, module `Metrics`):
  - `tokenize`;
  - the word error rate, computed by an edit-distance table (a Dafny `array2` filled by nested loops) and kept as an exact `real`;
  - `pad_to_equal`;
  - the scoring loop of `run_metrics`, with its WER total, speaker-match count and `n` guard.
- **Field projection** (`json_cleaner.py`, module `JsonCleaner`): the comprehension that keeps `start`, `end`, `text` and `speaker`.
- **Survey server** (`survey-app/server.js`, module `SurveyServer`):
  - the ID-to-number normalisation;
  - the byte-order-mark strip and row filter of `loadVideos`;
  - atomic-fact line parsing;
  - the per-user response update. Each user's file holds one value that the `ResponseStore` class updates in place.

The shared modules are:

- `Keys`: `f"{i:02d}"`, the server's number format and the regular expression `/prefix(\d+)/`;
- `Text`: Python `strip`, JavaScript `trim`, `split` and `join`;
- `Json`: JSON values with Python truthiness;
- `Wrappers`: `Option`, `Result`, and stopping at the first exception.

Several properties connect the files:

- a key written by one script is parsed back by the next;
- the raw transcript the pipeline writes is the narrative script's input;
- the narrative file is the atomic-facts script's input;
- the server looks up files under the names the batch scripts give them (it reads them from its own `data/` directories, which the scripts do not write).

## Model

| member | source | states |
|---|---|---|
| Keys.PyKey | main_pipeline.py:144 | `f"{i:02d}"` is at least two digits: exactly two below 100, the unpadded decimal from 10 up, and `0` followed by the digit below 10 |
| Keys.KeyRoundTrip | main_pipeline.py:144 | parsing the key of `i` as a decimal number gives back `i` |
| Keys.KeyInjective | main_pipeline.py:143-144 | distinct positions get distinct keys |
| Keys.Decimal | survey-app/server.js:68 | `num.toString()` is a non-empty digit string, of one digit exactly below 10 and at most two exactly below 100 |
| Keys.DecimalNoLeadingZero | survey-app/server.js:68 | the decimal form of a positive number does not start with `0` |
| Keys.ParseDecimalOfDecimal | survey-app/server.js:66 | `parseInt` of `num.toString()` is `num` |
| Keys.ParseDecimalLeadingZero | survey-app/server.js:66 | `parseInt` ignores a leading zero |
| Keys.PadTwo | survey-app/server.js:68 | `padStart(2, '0')` gives length 2 to shorter strings and leaves longer ones unchanged |
| Keys.JsKeyIsPyKey | survey-app/server.js:66-68 | the server's `num >= 100 ? … : padStart(2, '0')` equals Python's `f"{num:02d}"` for every `num` |
| Keys.MatchDigits | survey-app/server.js:64 | the `/prefix(\d+)/` match is absent exactly when no occurrence of the prefix is followed by a digit; otherwise it is the maximal digit run after the leftmost such occurrence |
| Keys.MatchDigitsAtStart | survey-app/server.js:64 | on the prefix followed by digits only, the capture is those digits |
| Text.Strip | batch_prompt_narrative.py:126 | the result has no whitespace at either end and is the input with only a leading and a trailing whitespace run removed |
| Text.PyStrip | batch_prompt_narrative.py:126 | Python's `strip()` leaves no `isspace()` character at either end and removes nothing but the leading and trailing `isspace()` runs |
| Text.JsTrim | survey-app/server.js:137 | JavaScript's `trim()` leaves no white space or line terminator at either end and removes nothing but the leading and trailing runs of them |
| Text.StripTrimmed | batch_prompt_narrative.py:126 | stripping a string without surrounding whitespace changes nothing |
| Text.StripAllSpace | batch_prompt_narrative.py:131 | a string made only of whitespace strips to the empty string |
| Text.Split | survey-app/server.js:136 | `split` on one character always returns at least one piece |
| Text.SplitJoin | survey-app/server.js:136 | splitting pieces joined by a separator they do not contain gives back the pieces |
| Text.SplitPiecesFrom | survey-app/server.js:136 | every character of every piece of `split` is a character of the input |
| Text.LastPieceAfterSep | batch_prompt_narrative.py:139 | `split("_")[-1]` of a string ending in `_` and a separator-free suffix is that suffix |
| StageRunner.RunStage | main_pipeline.py:154-169 | one `if not path.exists()` block: it skips the stage when the artifact exists; otherwise it runs the action and either adds the artifact or reports the failure, consistent with the reference semantics of the remaining stages |
| StageRunner.ProcessItem | main_pipeline.py:152-171 | the `try` body (download, transcribe, clean) produces the store, events and failure of the reference semantics |
| StageRunner.Run | main_pipeline.py:137-176 | the loop over `enumerate(urls, start=1)`, with one log entry appended per failing item, produces the reference state |
| StageRunner.ArtifactNameDecodes | main_pipeline.py:146-148 | an artifact file name determines its stage and its key |
| StageRunner.ArtifactPathInjective | main_pipeline.py:146-148 | two artifact paths in the same directory are equal only for the same stage and key |
| StageRunner.DistinctItemsDistinctPaths | main_pipeline.py:143-148 | items at different positions never share an artifact path |
| StageRunner.ItemArtifactsDisjoint | main_pipeline.py:143-148 | items at different positions have no artifact in common |
| StageRunner.StagesInOrder | main_pipeline.py:152-171 | the `j`-th event of an item is about the `j`-th stage and the item's own key; no stage is visited twice |
| StageRunner.FailureEndsItem | main_pipeline.py:152-176 | a failing action is the item's last event, and the item reports that failure exactly when its last event failed; an item without failure visits all stages |
| StageRunner.SkipRule | main_pipeline.py:154-169 | a stage is skipped if and only if its artifact existed, and an invoked action's event records its outcome |
| StageRunner.ItemFiles | main_pipeline.py:154-169 | the store after an item is the store before plus the artifacts its successful actions created, all among the item's own three |
| StageRunner.Locality | main_pipeline.py:146-169 | an item's events and failure depend on the store only through its own artifacts |
| StageRunner.ItemIdempotent | main_pipeline.py:154-169 | an item whose artifacts all exist skips every stage, changes nothing and does not fail |
| StageRunner.ItemComplete | main_pipeline.py:152-171 | an item that does not fail ends with all its artifacts present |
| StageRunner.ItemAttemptedOnce | main_pipeline.py:152-157 | every item reaches its first stage exactly once |
| StageRunner.Isolation | main_pipeline.py:143-176 | the run's store, log and trace are those of the items each run alone on the initial store, in list order: no failure affects another item |
| StageRunner.ItemEventsIsolated | main_pipeline.py:143-176 | the events a full run records for item `j` are exactly those item `j` would have alone |
| StageRunner.ItemLogged | main_pipeline.py:173-176 | the log keeps its earlier entries and gains, for item `j`, exactly one entry with its key, URL and failure if it failed, and none otherwise |
| StageRunner.LogTextAppend | main_pipeline.py:174-175 | appending entries in two batches writes the same file text as one batch |
| StageRunner.LogTextKeepsOld | main_pipeline.py:174-175 | appending entries keeps the earlier file text as a prefix |
| StageRunner.LogFileAppendOnly | main_pipeline.py:173-176 | after a run, `errors.log` is its earlier text followed by the text of the entries the run appended |
| StageRunner.AllItemsAttempted | main_pipeline.py:143-176 | whatever fails, the items attempted are the keys of positions 1 to `k`, each once, in order |
| StageRunner.RunIdempotent | main_pipeline.py:154-169 | when every artifact exists, a run invokes no action, adds no file and logs nothing |
| StageRunner.CompletedItemDone | main_pipeline.py:152-171 | an item that did not fail has every artifact in the final store |
| StageRunner.CleanRunCompletes | main_pipeline.py:143-176 | a run that logged nothing leaves all artifacts of all items in the store |
| StageRunner.RerunSkipsCompletedItems | main_pipeline.py:137-176 | a later run, with any actions, re-executes nothing for an item that completed |
| StageRunner.RerunAfterCleanRun | main_pipeline.py:137-176 | a second run after one that logged nothing invokes no action and changes neither store nor log |
| StageRunner.ExampleItemSeven | main_pipeline.py:144-147 | item 7 is keyed `07`, and its artifacts are `outputs/audio_07.mp3` and `outputs/transcript_raw_07.json` |
| BatchJob.BuildRequests | batch_prompt_narrative.py:45-68 | the loop emits the reference requests and reports the reference missing paths |
| BatchJob.RequestsFromPresent | batch_prompt_narrative.py:47-68 | requests correspond one-to-one and in order to the indices whose input exists, each built from its own input; requests plus missing reports account for every index |
| BatchJob.PresentIncreasing | batch_prompt_narrative.py:47 | filtering increasing indices keeps them increasing |
| BatchJob.RequestKeyInjective | batch_prompt_narrative.py:61 | distinct indices give distinct request keys |
| BatchJob.RequestKeysUnique | batch_prompt_narrative.py:47-62 | over increasing indices, the request keys are pairwise distinct |
| BatchJob.Upto | batch_prompt_narrative.py:47 | `range(1, n + 1)` is 1 to `n` in increasing order |
| BatchJob.UptoMembers | batch_prompt_narrative.py:47 | its members are exactly 1 to `n` |
| BatchJob.RequestCount | batch_prompt_narrative.py:47-53 | the number of requests equals the number of existing inputs among 1 to `n` |
| BatchJob.FirstTerminal | batch_prompt_narrative.py:91-100 | the first terminal state is found, with no terminal state before it |
| BatchJob.PollResult | batch_prompt_narrative.py:91-102 | the loop exits after the first poll whose state is `JOB_STATE_SUCCEEDED`; it raises `Batch ended unsuccessfully: <state>` on the first FAILED/CANCELLED/EXPIRED state; it is still polling if and only if no observed state is terminal |
| BatchJob.Poll | batch_prompt_narrative.py:91-102 | the `while True` loop computes the reference outcome |
| BatchJob.PollStopsAtTerminal | batch_prompt_narrative.py:96-100 | once the loop has exited or raised, later states do not matter |
| BatchJob.PollWaitsOnNonTerminal | batch_prompt_narrative.py:91-102 | non-terminal states before the observed ones only add polls |
| BatchJob.PartTexts | batch_prompt_narrative.py:125 | the kept texts are all non-empty |
| BatchJob.ExtractText | batch_prompt_narrative.py:113-126 | `_extract_text` gives None for a record with `error` and for a missing or falsy `response`, raises when the `candidates[0].content.parts` subscripts fail, and any text it returns is stripped |
| BatchJob.PartTextsOfTextParts | batch_prompt_narrative.py:125 | on text parts, the comprehension keeps the non-empty texts in order |
| BatchJob.PartTextsOfParts | batch_prompt_narrative.py:125 | the comprehension succeeds exactly when every part is a dict whose `text` is falsy or a string, and then keeps the non-empty part texts in order, whatever else the parts hold |
| BatchJob.TextPartsWellTyped | batch_prompt_narrative.py:125 | parts of the form `{"text": t}` are accepted and contribute exactly their texts |
| BatchJob.ExtractFromParts | batch_prompt_narrative.py:113-126 | for any record without `error` whose `candidates[0].content.parts` is a list of well-typed parts, whatever else the record holds, the result is the stripped join of the non-empty part texts, or None when there is none |
| BatchJob.ExtractFromMalformedParts | batch_prompt_narrative.py:122-126 | a parts list holding a non-dict, or a part whose truthy `text` is not a string, makes `_extract_text` raise |
| BatchJob.ExtractFromResult | batch_prompt_narrative.py:113-126 | on the record shape `{"key", "response": {"candidates": [{"content": {"parts": [{"text": t}, ...]}}]}}`, the result is the stripped join of the non-empty texts, or None when there is none |
| BatchJob.ExtractFromError | batch_prompt_narrative.py:114-115 | an error record yields None |
| BatchJob.ExtractSingleText | batch_prompt_narrative.py:122-126 | one trimmed non-empty text comes back unchanged |
| BatchJob.ExtractWhitespaceOnly | batch_prompt_narrative.py:125-126 | non-empty texts made only of whitespace yield `""`, not None |
| BatchJob.DemuxRecordOutcome | batch_prompt_narrative.py:135-148 | a record either leaves the state unchanged, aborts the loop, or writes exactly one output |
| BatchJob.KeyOf | batch_prompt_narrative.py:135-136 | `obj.get("key", "")` is `""` when absent, the string when it is a string, and raises (on `startswith`) otherwise |
| BatchJob.WriteOutput | batch_prompt_narrative.py:146-148 | output file `idx` now holds the text, every other file is unchanged, and the write is recorded and counted |
| BatchJob.DemuxLineOutcome | batch_prompt_narrative.py:130-148 | one line either leaves the state unchanged, aborts the loop, or writes exactly one output |
| BatchJob.Demux | batch_prompt_narrative.py:128-148 | the results loop computes the reference outputs, writes, `written` counter and abort flag |
| BatchJob.DemuxStep | batch_prompt_narrative.py:130-148 | one pass of the loop body computes the reference effect of its line: skip, raise, ignore or write and count |
| BatchJob.DemuxFromAppend | batch_prompt_narrative.py:130-148 | running the loop over two runs of lines is running it over the first and then over the second from where it stopped |
| BatchJob.DemuxAbortedPrefix | batch_prompt_narrative.py:129-133 | after an uncaught exception, later lines change nothing |
| BatchJob.WriteOutputBookkept | batch_prompt_narrative.py:146-148 | a write keeps the bookkeeping invariant: `written` counts the writes, the files are the initial ones plus those written, and unwritten files keep their content |
| BatchJob.DemuxLineBookkept | batch_prompt_narrative.py:130-148 | one line preserves that invariant |
| BatchJob.DemuxBookkeeping | batch_prompt_narrative.py:128-148 | the whole loop preserves that invariant |
| BatchJob.BlankLineSkipped | batch_prompt_narrative.py:131-132 | a blank line changes nothing |
| BatchJob.BadLineAborts | batch_prompt_narrative.py:133 | a non-blank line that is not a JSON object aborts the loop and writes nothing |
| BatchJob.ForeignKeyIgnored | batch_prompt_narrative.py:135-137 | any object record whose `key` is a string lacking the script's prefix leaves the state unchanged, whatever else it holds |
| BatchJob.MissingKeyIgnored | batch_prompt_narrative.py:135-137 | a record without `key` reads as `""` and, with a non-empty prefix, is ignored |
| BatchJob.NoTextIgnored | batch_prompt_narrative.py:140-144 | a prefixed record from which `_extract_text` gives None writes no file and does not stop the loop |
| BatchJob.ErrorRecordIgnored | batch_prompt_narrative.py:135-144 | any object record with `error` and a string or missing key writes no file and does not stop the loop |
| BatchJob.RequestKeyIndex | batch_prompt_narrative.py:136-139 | a request key passes the prefix test, and its last `_` piece is its index |
| BatchJob.ResultRecordWritten | batch_prompt_narrative.py:135-148 | any record keyed for request `i`, without `error` and with well-typed parts holding some non-empty text, writes output file `i` with the stripped join of those texts and counts it |
| BatchJob.RunBatch | batch_prompt_narrative.py:45-151 | a whole execution is build, poll, then demultiplex; when the job does not succeed nothing is written |
| NarrativeBatch.GenerateNarratives | batch_prompt_narrative.py:45-151 | the script over indices 1 to `total_transcripts` with its own paths and key prefix |
| NarrativeBatch.NarrativeInput | batch_prompt_narrative.py:49 | transcript `i` is read from `outputs/transcript_raw_NN.json` |
| NarrativeBatch.NarrativeRequestKeys | batch_prompt_narrative.py:47-62 | request keys are `transcript_raw_NN` for exactly the present indices, in increasing order and pairwise distinct |
| NarrativeBatch.NarrativeRequestCount | batch_prompt_narrative.py:47-53 | the request count is the number of transcripts present |
| NarrativeBatch.PipelineFeedsNarratives | batch_prompt_narrative.py:49 | the input of request `i` is the raw transcript the pipeline writes for item `i` (main_pipeline.py:147) |
| NarrativeBatch.NarrativeKeyRoundTrip | batch_prompt_narrative.py:136-146 | the key `transcript_raw_NN` passes the prefix test, yields `NN`, and is answered in `narratives/narrative_NN.txt` |
| NarrativeBatch.ExampleSeven | batch_prompt_narrative.py:47-61 | index 7 reads `outputs/transcript_raw_07.json`, is keyed `transcript_raw_07`, and is answered in `narratives/narrative_07.txt` |
| AtomicBatch.GenerateAtomicFacts | batch_prompt_atomic.py:60-160 | the script over the index list `[63]` with its own paths and key prefix |
| AtomicBatch.AtMostOneRequest | batch_prompt_atomic.py:62-74 | there is one request, `narrative_63`, when its narrative exists; otherwise there is none and that path is reported missing |
| AtomicBatch.NarrativesFeedAtomicFacts | batch_prompt_atomic.py:64 | narrative `i` written by the narrative script is the atomic-facts input for `i` |
| AtomicBatch.AtomicKeyRoundTrip | batch_prompt_atomic.py:144-155 | the key `narrative_NN` passes the prefix test, yields `NN`, and is answered in `atomic_facts/atomic_facts_NN.txt` |
| Metrics.Lower | metrics.py:8 | lowercasing maps each character, preserving the length |
| Metrics.Words | metrics.py:5-8 | every token is a non-empty run of `[A-Za-z0-9']` |
| Metrics.WordsOfRun | metrics.py:5-8 | a whole run of word characters is one token, not several |
| Metrics.WordRunStops | metrics.py:5 | a character outside `[A-Za-z0-9']` ends the run before it |
| Metrics.WordsSplit | metrics.py:5-8 | a character outside the class separates the tokens on its two sides and belongs to none, so runs are maximal |
| Metrics.Tokenize | metrics.py:7-8 | None or `""` gives no token; every token is a non-empty word-character run |
| Metrics.TokensAreLowerCase | metrics.py:8 | no token contains an upper-case letter |
| Metrics.WordsCoverWordChars | metrics.py:5-8 | the tokens together are exactly the word characters of the input, in order |
| Metrics.WordsJoinSpace | metrics.py:5-8 | tokenizing words joined by spaces gives back the words |
| Metrics.Min3Least | metrics.py:21-25 | `min` of three is one of them and no larger than any |
| Metrics.FillRow | metrics.py:19-25 | the inner loop fills row `i` with the distances of the prefixes and leaves later rows untouched |
| Metrics.EditDistance | metrics.py:15-25 | the filled table's last cell `dp[R][H]` is the edit distance defined by `dp[i][0]=i`, `dp[0][j]=j` and the min-of-three recurrence |
| Metrics.Wer | metrics.py:10-26 | `wer` is the reference rate: 0 or 1 for an empty reference, distance / R otherwise |
| Metrics.DistUpper | metrics.py:15-25 | the distance is at most max(R, H) |
| Metrics.DistLower | metrics.py:15-25 | the distance is at least the difference of the lengths |
| Metrics.DistZero | metrics.py:15-25 | the distance is 0 exactly when the two token lists are equal |
| Metrics.DistSymmetric | metrics.py:15-25 | the distance does not depend on which list is the reference |
| Metrics.DistToEmpty | metrics.py:16-17 | the distance to an empty list is the other length |
| Metrics.WerZeroIffEqual | metrics.py:10-26 | WER is 0 exactly when the token lists are equal |
| Metrics.WerBounds | metrics.py:18-26 | WER is non-negative and at most max(R, H) / R |
| Metrics.WerAgainstEmpty | metrics.py:12-14 | against an empty text the rate is 1 unless both sides have no words; an empty reference gives 0 or 1 |
| Metrics.MeanNonNegative | metrics.py:102 | a non-negative total gives a non-negative mean |
| Metrics.RatioAtMostOne | metrics.py:103 | a count out of `n` is in [0, 1], and is 1 exactly when it is all of `n` |
| Metrics.Pads | metrics.py:41-45 | the padding is `n` copies of `{"text": "", "speaker": ""}` |
| Metrics.PadToEqual | metrics.py:37-46 | both lists get length max(n_gt, n_asr); each original is a prefix; only pad segments are appended; the longer list and equal-length inputs are unchanged |
| Metrics.TextOf | metrics.py:75-76 | `seg.get("text", "") or ""` is `""` for a missing or falsy text and the string for a string; any other truthy value raises later in `lower()` |
| Metrics.SpeakerOf | metrics.py:80 | `seg.get("speaker", "").strip()` is `""` when absent, the stripped string for a string, and raises for any other value |
| Metrics.ScoreRowMeaning | metrics.py:75-95 | a row exists exactly when both texts and both speakers are usable; it carries its index, the two texts and their WER, and a speaker flag that is 1 exactly when the stripped speakers are equal |
| Metrics.RowResults | metrics.py:74 | one scored pair per position of the zipped padded lists, numbered from 1 |
| Metrics.Divisor | metrics.py:97 | `n` is at least 1, and is `len(rows)` when there are rows |
| Metrics.ScorePair | metrics.py:75-95 | the loop body computes the reference row or raises |
| Metrics.ScoreRows | metrics.py:71-95 | the loop yields the rows, or the first exception, with the WER total and the speaker hits of the rows |
| Metrics.RowStep | metrics.py:82-86 | one pass extends the rows and both running sums by the new row |
| Metrics.RunMetrics | metrics.py:62-103 | padding, the loop and the summary produce the reference evaluation |
| Metrics.SpeakerHitsBound | metrics.py:80-84 | `spk_ok` ≤ number of rows, with equality exactly when every speaker matches |
| Metrics.RowsOfEvaluation | metrics.py:74-95 | there is one row per segment of the longer list, each scoring its pair of the padded lists |
| Metrics.AccuracyBounds | metrics.py:97-103 | speaker accuracy is in [0, 1] and, with rows, is 1 exactly when every speaker matches |
| Metrics.EmptyEvaluation | metrics.py:97-103 | with no segments, the guard gives zero rows and averages of 0 |
| Metrics.AverageWerNonNegative | metrics.py:97-102 | the average WER is non-negative |
| Metrics.MissingSegmentPenalised | metrics.py:41-46 | a reference segment without a counterpart is scored against an empty hypothesis: rate 1 unless it has no words |
| Metrics.ExtraSegmentPenalised | metrics.py:41-46 | a hypothesis segment without a counterpart is scored against an empty reference: rate 1 unless it has no words |
| JsonCleaner.Project | json_cleaner.py:15 | a projected dict has exactly the kept names the input has, with the input's values |
| JsonCleaner.CleanItem | json_cleaner.py:15-16 | a dict item keeps exactly its kept names with their values; a non-dict item raises exactly when some kept name passes the `in` test, and otherwise gives `{}` |
| JsonCleaner.CleanItems | json_cleaner.py:14-17 | one cleaned item per input item, in order |
| JsonCleaner.FilterShape | json_cleaner.py:14-17 | the output has the input's length and order and fails exactly when some item raises |
| JsonCleaner.DictSegmentProjected | json_cleaner.py:15 | each dict segment keeps exactly the kept names it has, with unchanged values |
| JsonCleaner.ProjectIdempotent | json_cleaner.py:15 | projecting twice is projecting once |
| JsonCleaner.FilterIdempotent | json_cleaner.py:14-17 | cleaning a cleaned file returns it unchanged |
| JsonCleaner.ProjectKeepsScore | json_cleaner.py:15 | a cleaned segment pair scores like the raw pair |
| JsonCleaner.CleanedTranscriptsScoreSame | json_cleaner.py:14-17 | metrics on cleaned transcripts equal metrics on the raw ones |
| SurveyServer.NumberAfter | survey-app/server.js:63-69 | null exactly when there is no match; otherwise the key format of the parsed digit run |
| SurveyServer.VideoNumberContract | survey-app/server.js:63-69 | `getVideoNumber` is null exactly when no `video_` is followed by a digit; otherwise a key of two or more digits whose value is that of the first digit run |
| SurveyServer.NarrativeNumberContract | survey-app/server.js:72-78 | the same contract for `getNarrativeNumber` with `narrative_` |
| SurveyServer.NumberOfKey | survey-app/server.js:64-68 | the prefix followed by the key of `i` maps back to that key |
| SurveyServer.VideoNumberRoundTrip | survey-app/server.js:63-69 | `getVideoNumber("video_" + f"{i:02d}")` is `f"{i:02d}"` for every `i` |
| SurveyServer.NarrativeNumberRoundTrip | survey-app/server.js:72-78 | the same round trip for `getNarrativeNumber` |
| SurveyServer.VideoNumberUnpadded | survey-app/server.js:66-68 | an unpadded number is normalised to the key |
| SurveyServer.VideoNumberExtraZero | survey-app/server.js:66-68 | an extra leading zero is dropped |
| SurveyServer.VideoNumberOfDigits | survey-app/server.js:63-69 | `video_` followed by digits only gives the key format of their value |
| SurveyServer.VideoNumberExamples | survey-app/server.js:62-69 | `video_01` gives `01`; `clip` gives null |
| SurveyServer.ServedAtomicFactsName | survey-app/server.js:131 | the file served for video `i` has the name the atomic-facts script writes for `i` (in a different directory) |
| SurveyServer.ServedNarrativeName | survey-app/server.js:103 | the file served for narrative `i` has the name the narrative script writes for `i` (in a different directory) |
| SurveyServer.StripBom | survey-app/server.js:38-40 | one leading U+FEFF is removed; any other content is unchanged |
| SurveyServer.StripBomOnce | survey-app/server.js:38-40 | at most one character is removed, the result is a suffix of the content, and a mark remains only if there were two |
| SurveyServer.LoadVideos | survey-app/server.js:36-53 | the loop pushes exactly the kept rows of the parsed content, in order |
| SurveyServer.KeptRowsAppend | survey-app/server.js:48-52 | filtering distributes over concatenation, so order is preserved |
| SurveyServer.KeptRowsExact | survey-app/server.js:48-52 | a row is kept exactly when `VideoID` is present and non-blank after trimming |
| SurveyServer.TrimLines | survey-app/server.js:137 | every line is trimmed, in order |
| SurveyServer.NonEmptyLines | survey-app/server.js:138 | every kept line is non-empty and one of the input lines |
| SurveyServer.NonEmptyLinesAppend | survey-app/server.js:138 | the filter distributes over concatenation, keeping order |
| SurveyServer.NonEmptyLinesSingle | survey-app/server.js:138 | a single line is kept exactly when it is non-empty |
| SurveyServer.NonEmptyLinesMembers | survey-app/server.js:138 | a line is kept exactly when it is an input line and non-empty |
| SurveyServer.NonEmptyLinesOfBlank | survey-app/server.js:138 | lines that are all empty leave nothing |
| SurveyServer.ParseFacts | survey-app/server.js:135-138 | every fact is non-empty and has no surrounding whitespace |
| SurveyServer.ParseFactsMembers | survey-app/server.js:135-138 | the facts are exactly the trimmed lines that are non-empty (with `NonEmptyLinesAppend` and `NonEmptyLinesSingle`: in order, keeping repeats) |
| SurveyServer.FactsRoundTrip | survey-app/server.js:135-138 | trimmed, non-empty, single-line facts written one per line are read back unchanged |
| SurveyServer.NoFactsInEmptyFile | survey-app/server.js:135-138 | an empty file has no facts |
| SurveyServer.NoFactsInBlankFile | survey-app/server.js:135-138 | a file made only of white space and line breaks has no facts |
| SurveyServer.WithTimestamp | survey-app/server.js:196-199 | the entry has the body's fields plus `timestamp`, which overrides any `timestamp` in the body |
| SurveyServer.SetElement | survey-app/server.js:196 | an element assignment sets that element, keeps the others, and fills any gap with null |
| SurveyServer.SaveUpdatesOneVideo | survey-app/server.js:186-199 | on an object or a missing file, the video's entry becomes body plus timestamp, and every other entry is kept |
| SurveyServer.SaveOverrides | survey-app/server.js:196-199 | saving a video twice keeps only the later answer |
| SurveyServer.VideoIdOnArrayChangesNothing | survey-app/server.js:196-202 | a `video_NN` ID is not an array index, so a file holding an array is written back unchanged |
| SurveyServer.IndexOnArraySetsElement | survey-app/server.js:196-202 | an index name on a stored array sets that element and keeps the others |
| SurveyServer.LengthOnArrayRaises | survey-app/server.js:196-199 | on a stored array, assigning the entry to `length` raises (an object is no valid array length), so the save fails |
| SurveyServer.SaveRejectsPrimitives | survey-app/server.js:196 | a stored null or primitive raises, since the module runs in strict mode |
| SurveyServer.ResponseStore.constructor | survey-app/server.js:26-29 | the store starts with the given files |
| SurveyServer.ResponseStore.Save | survey-app/server.js:178-202 | the user's file becomes the reference update of its old contents, or stays unchanged when the update raises (a null or primitive file, or `length` on an array) |

## Left out

- I/O is not modelled: downloading (yt-dlp, ffmpeg), WhisperX, the Gemini client (upload, create, get, download), `time.sleep`, `print`, and reading and writing files. Stage actions are oracles, and observed job states, input files and result lines are parameters. `json.loads` and the CSV parser are function parameters.
- StageRunner: a failing action is assumed to create no artifact. A partial file left by a crashed download would make the next run skip that stage. The source does not guard against this; the model does not represent it.
- StageRunner: the artifact directory is modelled as the set of (stage, key) artifacts whose file exists, rather than as path strings. `ArtifactPathInjective` shows that the two views agree. `errors.log` is modelled as its sequence of entries, with the file text given by `LogText`; the traceback text is the action's failure detail.
- StageRunner: an exception raised outside a stage action (for example, by `mkdir`) is not modelled.
- BatchJob.PollResult: termination of the poll loop is not claimed. The loop runs over a finite sequence of observed states; when none is terminal the outcome is "still polling".
- BatchJob: the shape of `job.dest` and any failure of the download call are not modelled. The requests file's JSON serialisation is represented by the `Request` datatype.
- Metrics: `sbert_score`, the semantic-similarity column and its average, the `round(..., 6)` calls, and the floating-point accumulation are not modelled. WER and averages are exact `real`s, and rows omit the similarity. Writing the CSV and JSON outputs is also not modelled.
- Metrics.Lower, Metrics.Tokenize: `.lower()` is modelled on ASCII letters only. A few non-ASCII characters that Python lowercases into ASCII letters (such as U+212A KELVIN SIGN) are therefore not folded.
- Metrics.DistLower, Metrics.DistZero, Metrics.DistSymmetric: these are stated for token lists (`seq<string>`), which is what `wer` compares, not for arbitrary element types.
- SurveyServer: `parseInt` is modelled as exact on digit strings. Precision loss on very long digit runs is not modelled.
- SurveyServer: Express routing, HTTP status codes, static serving, the `ENOENT` branches and the directories under `data/` are not modelled. The `Date` timestamp is a parameter. The request body is modelled as a JSON object; array bodies are not modelled.
- SurveyServer.ResponseStore.Save: a video ID of `__proto__`, which would set the stored object's prototype instead of a field, is not distinguished. Key order in the written JSON is not modelled.
- SurveyServer.ResponseStore.Save: a stored file that is not valid JSON makes `JSON.parse` throw; the error is not `ENOENT`, so it is rethrown, the route answers 500 and nothing is written (survey-app/server.js:188-192). The stored contents are modelled as an already parsed value, so this path is not represented.
- Metrics.RunMetrics: segments are modelled as JSON objects (`Segment = map<string, Value>`) and the loaded transcripts as lists. A segment that is not a dict makes `g.get` raise `AttributeError` at metrics.py:75 and aborts `run_metrics`; a top level that is not a list is iterated or raises differently. Neither case can be expressed in the model.
- SurveyServer.ResponseStore.Save, BatchJob.WriteOutput: file names built from external strings (the URL-decoded `username`, the index taken from a result key) are assumed to name distinct, writable files in their directory. A name containing `/` or `..` can reach another user's file or leave `responses/`, or make the write raise. The model keys files by the raw string, so each name is its own file and the write always succeeds.
- JsonCleaner: a loaded file whose top level is not a list is not modelled (a dict would be iterated over its keys, a number would raise). The input is modelled as a list of values.
- Key order of JSON objects is not modelled anywhere: objects are maps, so the field order of `json.dump`, `JSON.stringify` and the cleaned segments is not represented.
- The hard-coded URL list of main_pipeline.py is not modelled; only its length and order matter. `youtube_to_mp3.py`, `asr.py`, `prompt.py`, `wer.py`, `single_video_transcriber.py` and `survey-app/src/api.js` are not part of this model.
