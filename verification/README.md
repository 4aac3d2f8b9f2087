# Verified model of jev-judge-mcp

This Dafny project models the parts of the Jev judge MCP server and of its evaluation harness in which a wrong step
would not be noticed: the JSON text that is printed and hashed, the recording proxy between two threads, the ledger
that survives crashes, the statistics that are computed the fast way, and the scanners and loops that decide what is
complete, redacted, unchanged or the same. Each operation is written in the form the Python code has (loops and
classes where it updates state, functions where it computes), is proved against a specification function or a
declarative property, and what the source promises is proved about that specification for all inputs, or for all runs.

| modules | models |
|---|---|
| Decimals, NumberText, QuotedText, KeyOrder, Serialize, JsonReader, EcmaScript | `JSON.stringify` as `serialize.py` prints it, an RFC 8259 reader that undoes it, and ECMA-262's own wording of it |
| Cache, CacheRuns, Evictions, CacheOverrun | the response cache keyed by that text, as methods over a directory and as all runs of its steps, and exactly how far concurrent evictions overrun the cap |
| BenchProxy, BenchRuns | the bench recorder's locked sections and all interleavings of them |
| Relay, RelayRuns, RelayAgree, RelayCloses | the relay's fallback rows, all interleavings of its two threads over the recorder and its own record, when the two agree, and what a failed close leaves behind |
| Spend, Study | the persisted ledger, and a study over any number of crashes and resumes |
| Metrics, Thresholds | AUROC by mid-ranks against pair counting, and the threshold scan that stops early |
| Responses, GitDiff | the hunk-count scanner and the unified-diff splitter |
| Errors, WholeSecrets, Ids, Gate, Protocol, Grade, Telemetry | redaction, id assignment, log comparison, framing, test-file edits, histograms |
| Wrappers, Texts, Lines, DecimalText, StringOrder, Sorting, Counting, Listings, Dicts | shared text, sorting, counting and dictionaries |

Text in the printer is a sequence of code points, lone surrogates included, and a JS string is a sequence of UTF-16
units; money, scores and durations are reals. `None` and exceptions are `Option` and `Result` values. Where the
operating system or a hash takes part, its answer is a parameter: `room` is how many log writes succeed before one
raises, `Io` is what the file system refuses, `Codec` is a JSON writer and reader, and the hash is any function without
collisions whose digests hold no dot. That there are such hashes and codecs is proved (`Cache.SomeHashIsLawful`,
`Cache.SomeCodecIsLawful`, `Protocol.SomeCodecIsLawful`).

## What does not hold

The proofs settle some cases in which the code does not do what one might read into its documentation. Where a line
says "if and only if" or "exactly" the condition is proved in both directions, for all inputs; the others name an
input that fails.

- A sender accepts a header line of exactly the cap, but the receiver counts the newline and refuses it: a frame is
  received if and only if its header line is shorter than the cap (`Protocol.SentIsReceivedIff`,
  `Protocol.HeaderAtCapIsRefused`, `Protocol.SomeHeaderIsAtCap`).
- When log writes fail, a forwarded call ends without its row if and only if it was put back while its id was pending
  again, or a close that raised had not come to it (`BenchRuns.ForwardedWithoutRowIff`,
  `BenchRuns.ReuseDuringFailedWriteLosesARow`).
- The relay and the recorder hold the same calls all along if and only if each section of either thread keeps to a
  condition on the state before it: a call is accepted under an id that is not noted (or about to be dropped) and before
  the relay aborts, and until it is noted no answer to it is popped, an earlier call of its id is dropped and not put
  back, and the other thread does not abort (`RelayAgree.AgreeThroughoutIff`). An id used again for the same tool, and an
  answer that comes between the recorder's section and the note, break it (`RelayCloses.ReuseDisagrees`,
  `RelayCloses.AnswerBeforeNoteDisagrees`).
- When the recorder's close raises, the fallback leaves every noted call with exactly one row of its own if and only if,
  of each tool, the noted calls with a row are the earliest and as many as the fallback's counter skips
  (`RelayRuns.FallbackMakesUpIff`, in every state of every interleaving). After a run that kept the agreement, with no
  call about to be noted or dropped, this means that close logged no call without a tool name, and of each tool the
  calls the relay noted first
  (`RelayCloses.FailedCloseIsMadeUpIff`); the order can only differ after a put-back
  (`RelayCloses.MadeUpWithoutPutBackIff`), and then one call can get two rows and another none
  (`RelayCloses.PutBackLosesARow`, `RelayCloses.NamelessCallHasTwoRows`).
- Runs that keep to their bound stay under the dollar cap, whatever the caps, if and only if the policy reserves the
  bounds of a whole batch (`Study.ReserveSufficesIff`); and a run without a reported agent cost keeps to its bound if
  and only if its Jev tokens cost nothing (`Spend.CostWithinBoundIff`).
- Of the hunks that miss counted lines `_trimmed` misses exactly one kind: the last one, when it misses one old and one
  new line and the text ends in a newline (`Responses.TrimmedIffIncomplete`, `Responses.CutContextIsMissedIff`).
- `sanitize_id` applied twice differs from once exactly when the cut left a trailing underscore
  (`Ids.SanitizeIdempotentIff`).
- A secret survives its own replacement in some text if and only if the marker shows it: inside the marker, from the
  marker's end on, or up to the marker's start (`Errors.SurvivesIffMarkerShows`). Beside other secrets it can be left
  in some text if and only if the marker touches it at all; every other secret is removed from every text, whatever
  the rest are (`Errors.CanBeLeftIff`, `Errors.NoSecretSurvives`).
- A test file with two classes of one name can differ from itself: an edited file is unchanged if and only if only
  allowed statements were inserted and every test of a class is also in the last class of that name
  (`Grade.UnchangedIffInserted`, `Grade.ClashDiffersFromItself`).
- With a negative budget no threshold is within it, and the scan returns the point that flags nothing
  (`Thresholds.RecallAtFalsePositiveRate`).
- A replayed evaluation is the stored one without its request id (`CacheRuns.LookupReplaysTheLastStore`).
- The cache can hold more entries than its cap while stores overlap, and after stores ended early: so many more if and
  only if the stores that have not ranked, the entries marked for deletion and those left behind are at least as many
  together (`CacheOverrun.OverrunIff`, `CacheOverrun.BoundIsReached`).

## Model

| member | source | states |
|---|---|---|
| NumberText.NormalizeKeepsValue | src/jev_judge_mcp/serialize.py:130-139 | stripping zeros at both ends and moving the point keeps the value, as an exact integer equation over the last place |
| NumberText.NormalFormDecidesValue | src/jev_judge_mcp/serialize.py:130-139 | two finite numbers are equal exactly when their stripped digits, point and sign are |
| NumberText.PrintsNormalForm | src/jev_judge_mcp/serialize.py:122-148 | the text is one of the four layouts of the stripped form, zero and minus zero alike |
| NumberText.ReadsLayout | src/jev_judge_mcp/serialize.py:140-148 | each of the four layouts gives a decimal reader back the same digits and point |
| NumberText.ReadsPrinted | src/jev_judge_mcp/serialize.py:122-148 | reading a printed number gives its normal form and leaves what follows |
| NumberText.PrintsAlikeIffSameNumber | src/jev_judge_mcp/serialize.py:122-148 | two finite numbers print alike if and only if they are the same number |
| QuotedText.EscapesUtf16 | src/jev_judge_mcp/serialize.py:93-103 | surrogate pairs held as two code points are quoted as the character they are in JS: quoting depends on the UTF-16 form alone |
| QuotedText.ReadsQuoted | src/jev_judge_mcp/serialize.py:93-103 | a JSON string reader gives back the UTF-16 form of the quoted string and leaves what follows |
| QuotedText.QuotesAlikeIffSameUtf16 | src/jev_judge_mcp/serialize.py:93-103 | two strings are quoted alike if and only if they are one JS string |
| QuotedText.EscapedIsPlain | src/jev_judge_mcp/serialize.py:28-29 | the quoted text holds no control character and no surrogate |
| KeyOrder.JsKeyOrderIsOwnKeyOrder | src/jev_judge_mcp/serialize.py:106-119 | array indices first and ascending, then the rest in insertion order, nothing lost or added |
| KeyOrder.OwnKeyOrderUnique | src/jev_judge_mcp/serialize.py:106-119 | no other arrangement of the keys is an own-key order |
| KeyOrder.OrderKeys | src/jev_judge_mcp/serialize.py:106-113 | the pass that fills two lists and sorts one computes that order |
| Serialize.PrintedKeysAreDefined | src/jev_judge_mcp/serialize.py:68-70 | exactly the members that are not undefined are printed, as a subsequence of the own-key order |
| Serialize.PrintsNormalForm | src/jev_judge_mcp/serialize.py:50-83 | the printed text is a function of the value's JS normal form alone, compact and indented |
| EcmaScript.NumberIsEcma | src/jev_judge_mcp/serialize.py:140-148 | the layouts are the text Number::toString gives for the integer of the digits and the place of the point, section 6.1.6.1.20 of ECMA-262 |
| EcmaScript.StringIsEcma | src/jev_judge_mcp/serialize.py:93-103 | the quoted body is QuoteJSONString's, code point by code point, section 25.5.2.3 of ECMA-262 |
| EcmaScript.StringifyIsEcma | src/jev_judge_mcp/serialize.py:33-83 | both texts are those of SerializeJSONProperty with its gap, indent and stepback, sections 25.5.2.2 to 25.5.2.6 of ECMA-262 |
| Serialize.StringifyEncodable | src/jev_judge_mcp/serialize.py:50-103 | the text holds no surrogate whatever strings the value holds, so it always encodes as UTF-8 |
| JsonReader.StringifyReadsBack | src/jev_judge_mcp/serialize.py:33-83 | an RFC 8259 reader applied to the text, on one line or indented, gives the value's normal form |
| JsonReader.PrintsAlikeIffSameNormalForm | src/jev_judge_mcp/serialize.py:33-83 | two values print alike if and only if they have the same normal form |
| Cache.KeysAgreeIff | src/jev_judge_mcp/cache.py:50-60 | two requests share a file if and only if their bodies have one normal form |
| Cache.SomeHashIsLawful | src/jev_judge_mcp/cache.py:50-60 | there is a hash of the kind the key is assumed to be made with |
| Cache.SomeCodecIsLawful | src/jev_judge_mcp/cache.py:178-188 | for any evaluations there is a codec that writes and reads them back |
| Cache.NamesAreToldApart | src/jev_judge_mcp/cache.py:91-99 | no staging file counts as an entry, and the sweep takes every staging file |
| Cache.EvictionKeepsTheYoungest | src/jev_judge_mcp/cache.py:73-113 | with deletions succeeding exactly the excess over the cap goes, no survivor is older than an evicted entry, staging files are gone, other files untouched |
| Cache.Directory.Evict | src/jev_judge_mcp/cache.py:73-113 | sweep, sort and deletions leave exactly the files that are neither staged nor among the oldest excess, or cannot be deleted |
| Cache.Directory.Sweep | src/jev_judge_mcp/cache.py:83-96 | one pass deletes the staging files and lists each entry once |
| Cache.Directory.EvictOldest | src/jev_judge_mcp/cache.py:97-113 | the first of the sorted entries are the ones with fewer older entries than the excess |
| Cache.Directory.Lookup | src/jev_judge_mcp/cache.py:116-159 | the answer, the stale entry's deletion and every miss, over what the file system refuses |
| Cache.Directory.Store | src/jev_judge_mcp/cache.py:162-191 | staging, replacement and eviction, or what each failure leaves behind |
| CacheRuns.StoreIsItsSteps | src/jev_judge_mcp/cache.py:162-191 | in whatever order a store sweeps and deletes, if nothing disturbs it its steps end with exactly the files of `store`, failures included |
| CacheRuns.StoreEnds | src/jev_judge_mcp/cache.py:73-113 | a staged store can always take steps of its own to its end |
| CacheRuns.UndisturbedStoreKeepsCap | src/jev_judge_mcp/cache.py:73-113 | whatever was left behind before, a store that nothing disturbs or refuses ends with at most the cap |
| CacheRuns.StagingTellsKey | src/jev_judge_mcp/fsutil.py:47-59 | a staging file is only ever moved to the entry of a request with the same normal form |
| CacheRuns.LookupReplaysTheLastStore | src/jev_judge_mcp/cache.py:116-191 | in every reachable state a lookup answers with what was stored last for the same normal form, not older than a positive TTL, or with nothing; and when it is nothing is characterised exactly |
| CacheRuns.EntriesAreBounded | src/jev_judge_mcp/cache.py:73-113 | in every reachable state, stores overlapping between placing, listing, sweeping, ranking and each deletion, entries are at most the cap plus the stores not yet ranked, the entries marked for deletion, and those left behind and not made up for by a ranking since |
| CacheOverrun.BoundIsReached | src/jev_judge_mcp/cache.py:73-113 | for every cap and any numbers of unranked stores, marked entries and entries left behind, some run has exactly the cap and all three |
| CacheOverrun.SomeRequestsAreApart | src/jev_judge_mcp/cache.py:50-60 | there are as many requests that share no file as such a run needs |
| CacheOverrun.OverrunIff | src/jev_judge_mcp/cache.py:73-113 | with these three numbers a directory can exceed its cap by so many if and only if they are at least as many together |
| Evictions.RankedStaysSound | src/jev_judge_mcp/cache.py:97-113 | a ranking of a listing that others have outdated still makes up for its store and for everything left behind before the listing |
| Evictions.CrashStaysSound | src/jev_judge_mcp/cache.py:73-113 | stores that end at any point leave behind at most their own entries and those only they had marked |
| BenchProxy.BenchRecorder.Request | evals/bench/proxy.py:54-82 | one locked section: forwards, refuses with a numbered row, or raises, with the whole new state |
| BenchProxy.BenchRecorder.RefuseBatch | evals/bench/proxy.py:114-127 | every call of a batch gets a numbered refusal row until a write raises, and the replies answer the items with ids |
| BenchProxy.BenchRecorder.NumberCall | evals/bench/proxy.py:129-142 | numbers are given out in arrival order |
| BenchProxy.BenchRecorder.Pop | evals/bench/proxy.py:95-98 | the middle section takes the call out of pending |
| BenchProxy.BenchRecorder.WriteAnswer | evals/bench/proxy.py:99-101 | the last section writes the row of the call in hand with its own outcome |
| BenchProxy.BenchRecorder.PutBack | evals/bench/proxy.py:99-105 | after a failed write the call is restored unless its id is pending again |
| BenchProxy.BenchRecorder.Close | evals/bench/proxy.py:107-112 | every pending call is logged in order until a write raises, and nothing stays pending |
| BenchRuns.EveryRunIsSafe | evals/bench/proxy.py:54-157 | over every interleaving of sections, with failing writes, each number is in exactly one of rows, pending, in hand and lost, each row is its own call's, and at most `cap` calls are forwarded |
| BenchRuns.EveryCallHasOneRow | evals/bench/proxy.py:54-157 | with writes succeeding, after a last close with nothing in hand every forwarded call has exactly one row that is no refusal, ids reused or not |
| BenchRuns.StepStaysCapped | evals/bench/proxy.py:70-81 | no step lets more calls through than it counted, and no batch with a call is forwarded |
| BenchRuns.StepStaysFaithful | evals/bench/proxy.py:84-112 | every row holds its own call's tool and arguments and is answered only by a response to that call's id |
| BenchRuns.PutBackLosesIffReused | evals/bench/proxy.py:97-105 | restoring a call loses it if and only if its id is pending again |
| BenchRuns.ForwardedWithoutRowIff | evals/bench/proxy.py:84-112 | over every run, with any writes failing, a forwarded call ends without its row if and only if it was put back while its id was pending or a failed close had not come to it |
| BenchRuns.ReuseDuringFailedWriteLosesARow | evals/bench/proxy.py:84-105 | the run in which two calls are forwarded and one row is written |
| Relay.PendingCalls.Begin | evals/relay.py:135-140 | true for the first caller only |
| Relay.PendingCalls.Note | evals/relay.py:142-152 | notes a call unless the relay aborts or its id is there |
| Relay.PendingCalls.Drop | evals/relay.py:154-156 | removes the id and keeps the others in order |
| Relay.OneGoesFirst | evals/relay.py:135-140 | over every interleaving exactly one of those that abort goes first |
| Relay.FallbackRows | evals/relay.py:181-215 | the loop over a counter writes consecutive rows for exactly the calls beyond those close has logged, each for its own call, the earliest of each tool being skipped |
| Relay.UnloggedCount | evals/relay.py:193-214 | of each tool as many rows as calls less those logged, never below none |
| Relay.NextIsAboveAll | evals/relay.py:187-192 | fallback numbers are above every number in the log |
| Relay.EachToolIsAccounted | evals/relay.py:181-215 | of each tool close's rows and the fallback's together are as many as the calls noted, or as close logged if that is more |
| Relay.EveryCallHasOneRowIff | evals/relay.py:117-215 | whatever is logged and whatever lines close wrote, each call has a row or gets one, and never both, if and only if of each tool the logged calls are the earliest and as many as the counter skips |
| RelayRuns.FallbackMakesUpIff | evals/relay.py:181-345 | in every state of every interleaving of the two threads, close included, the fallback leaves every noted call with exactly one row of its own in the log under just that condition |
| RelayAgree.AgreeThroughoutIff | evals/relay.py:238-338 | over every interleaving of request, note, pop, write, put-back, drop and abort, relay and recorder hold the same calls all along if and only if each step keeps to its condition on the state before it |
| RelayCloses.FailedCloseIsMadeUpIff | evals/relay.py:181-345 | after every run that kept the agreement, and a close that raises at any write with no call about to be noted or dropped, every noted call has exactly one row of its own if and only if close logged no nameless call, and of each tool the calls noted first |
| RelayCloses.MadeUpWithoutPutBackIff | evals/relay.py:181-345 | if no answer's write failed the two hold their calls in one order, and only a nameless call that close logged is in the way |
| RelayCloses.PutBackLosesARow | evals/relay.py:181-215 | the run in which, after a put-back, one call gets two rows and the other none |
| RelayCloses.ReuseDisagrees | evals/relay.py:142-152 | an id used again before it is answered: the recorder holds the later call, the relay the earlier, of the same tool |
| RelayCloses.AnswerBeforeNoteDisagrees | evals/relay.py:249-258 | an answer between the recorder's section and the note: the relay notes a call the recorder has done with |
| RelayCloses.NamelessCallHasTwoRows | evals/relay.py:117-124 | a call without a tool name that close logged gets a second row, and a call for a tool named `None` gets none |
| Spend.CostWithinBoundIff | evals/spend.py:79-89 | a run's charge keeps to the run bound exactly when its reported cost leaves room for its Jev tokens, or nothing was reported and the tokens cost nothing |
| Spend.UnreportedCostExceedsBound | evals/spend.py:79-89 | when no usable agent cost is reported the charge passes the bound by exactly the Jev cost, so it is above it if and only if tokens with a price were used |
| Spend.SpendLedger.Load | evals/spend.py:54-73 | a stored cap below the policy's stays in force, one that is no finite number from zero up refuses |
| Spend.SpendLedger.Record | evals/spend.py:108-115 | books once, only a finite cost from zero up, the file before the memory, and on any refusal or failed write changes neither |
| Spend.SpendLedger.BookOutcome | evals/spend.py:123-149 | an id already booked is left alone, else the file's usable cost or the bound is booked |
| Spend.SpendLedger.RunRecorded | evals/study_runner.py:61-92 | which way an attempt ends books which amount, at most once, and what the caller sees |
| Spend.SpendLedger.BookFileCost | evals/study_runner.py:95-107 | books the named field, what `float` makes of it, or the default where it is missing or falsy; nothing for a missing file, a text that is no number, or another value |
| Study.LaunchesOnlyFreshRuns | evals/ab/run.py:603-656 | after any crashes and resumes a launched run was never booked and left no log |
| Study.LedgerOnlyGrows | evals/spend.py:54-115 | from any point on no booking disappears or changes, each id is booked once at no negative amount, and the cap on disk never rises |
| Study.StepKeepsInv | evals/ab/run.py:603-656 | what every step keeps, the instant between the file's replacement and the memory update included |
| Study.BudgetIsSafe | evals/spend.py:95-106 | over every run the run cap holds, and spend plus reserve is at most the dollar cap plus the bounds and excesses of the runs since the last admission |
| Study.SpendStaysUnderCap | evals/spend.py:95-106 | with a reserve for a whole batch and runs within their bound, booked spend never passes the dollar cap |
| Study.ReserveSufficesIff | evals/spend.py:28-30 | whatever the caps, runs within their bound can pass the dollar cap if and only if the reserve is below a whole batch of bounds |
| Metrics.MidRanks | evals/scorers/metrics.py:85-94 | the tie-block loop gives each position its mid-rank, counted from the scores below and tied |
| Metrics.RankSumCountsPairs | evals/scorers/metrics.py:95-96 | the positives' rank sum less its least value is the number of pairs won plus half the pairs tied |
| Metrics.Auroc | evals/scorers/metrics.py:79-96 | the fast form equals the quadratic pair count; none without both classes; an error for different lengths |
| Metrics.AurocIsProbability | evals/scorers/metrics.py:79-96 | AUROC lies in [0, 1] and becomes one minus itself when the labels flip |
| Metrics.PerfectIffSeparated | evals/scorers/metrics.py:79-96 | it is 1 if and only if every positive scores above every negative |
| Thresholds.LowerFlagsMore | evals/scorers/metrics.py:132 | lowering the threshold only flags more |
| Thresholds.DescendingLists | evals/scorers/metrics.py:128 | the thresholds are the distinct scores, strictly descending |
| Thresholds.StopIsOptimal | evals/scorers/metrics.py:128-134 | stopping at the first threshold over the budget leaves the best of all real thresholds within it |
| Thresholds.RecallAtFalsePositiveRate | evals/scorers/metrics.py:121-134 | the loop's point has the highest recall of all real thresholds within the budget, and keeps to the budget exactly when it is not negative or there are no negatives |
| Responses.Trimmed | src/jev_judge_mcp/responses.py:110-147 | the loop is the hunk-count machine run over the lines |
| Responses.TrimmedIffIncomplete | src/jev_judge_mcp/responses.py:110-147 | on every git-style document, lines dropped anywhere, it answers yes exactly when a hunk misses lines, but for one residual at the last newline |
| Responses.CutContextIsMissedIff | src/jev_judge_mcp/responses.py:110-147 | a complete document that loses the context line it ends with is missed if and only if a newline ends the text |
| Responses.SomeDocumentIsCut | src/jev_judge_mcp/responses.py:110-147 | there is such a document |
| Responses.ReadsGitHeader | src/jev_judge_mcp/responses.py:126-131 | the counts of every header git writes are read, with or without the short form |
| GitDiff.SplitUnified | src/jev_judge_mcp/git_diff.py:151-164 | the loop collects one file for each part that is not blank, or gives up at an unreadable header |
| GitDiff.PatchesRejoinIff | src/jev_judge_mcp/git_diff.py:151-164 | the patches concatenated are the diff if and only if it starts with something, has no blank line before a later header and ends its last line |
| GitDiff.FilePerHeader | src/jev_judge_mcp/git_diff.py:151-164 | one file for every line that starts with a header |
| GitDiff.SamePathIsRead | src/jev_judge_mcp/git_diff.py:167-195 | the header naming one legal path twice gives that path, whatever it contains |
| Errors.LongestFirstIs | src/jev_judge_mcp/errors.py:19-24 | the redactor keeps every non-empty value, longest first |
| Errors.Redactor.Call | src/jev_judge_mcp/errors.py:26-29 | the loop replaces the secrets one after the other |
| Errors.NoSecretSurvives | src/jev_judge_mcp/errors.py:26-29 | no secret that the marker touches nowhere occurs in the result, for any text and any other secrets |
| Errors.SurvivesIffMarkerShows | src/jev_judge_mcp/errors.py:26-29 | a secret survives its own replacement in some text if and only if the marker shows it, whole or across an edge |
| Errors.CanBeLeftIff | src/jev_judge_mcp/errors.py:19-29 | a configured secret can be left in some text beside some other secrets, all of different lengths, if and only if the marker touches it |
| Errors.PlainIsClear | src/jev_judge_mcp/errors.py:26-29 | the marker touches no secret that has no bracket and is not shown by it |
| WholeSecrets.ReplacedWhole | src/jev_judge_mcp/errors.py:23-29 | a secret that no equal or longer one overlaps is replaced whole, and the text around it is redacted as if it stood alone, for any secrets the marker does not touch |
| Errors.SecretInMarkerSurvives | src/jev_judge_mcp/errors.py:26-29 | every secret that the marker shows survives its own replacement |
| Errors.BracketSecretSurvives | src/jev_judge_mcp/errors.py:26-29 | a secret with a bracket that the marker's edge puts back |
| Ids.SanitizeFixesIff | src/jev_judge_mcp/ids.py:14-20 | an id is kept if and only if it is safe, at most 64 long and without an underscore at either end |
| Ids.SanitizedIsSafe | src/jev_judge_mcp/ids.py:14-20 | the result is in the safe alphabet, within the length, and does not start with an underscore |
| Ids.SanitizeIdempotentIff | src/jev_judge_mcp/ids.py:14-20 | sanitizing twice changes nothing exactly when the cut left no trailing underscore |
| Ids.CutLeavesUnderscore | src/jev_judge_mcp/ids.py:17-18 | an id that a second pass changes |
| Ids.FindFree | src/jev_judge_mcp/ids.py:42-46 | the suffix search ends at the first free candidate, after at most as many used ones as there are used ids |
| Ids.EnsureUniqueIds | src/jev_judge_mcp/ids.py:30-52 | every item gets the first free candidate of its own base, the copies are the items with that id in place, and the report is the renames in order |
| Ids.OnlyTheIdChanges | src/jev_judge_mcp/ids.py:51 | a copy holds what its item held under every other key, and an existing id keeps its place among the keys |
| Ids.AssignedIdsDiffer | src/jev_judge_mcp/ids.py:30-52 | the ids are pairwise distinct |
| Ids.AssignedIdsAreSafe | src/jev_judge_mcp/ids.py:30-52 | with a safe prefix every id is safe and not empty |
| Ids.KeepsIdIff | src/jev_judge_mcp/ids.py:41-51 | an id safe as sent is kept if and only if no earlier item got it |
| Ids.SafeDistinctIdsStay | src/jev_judge_mcp/ids.py:30-52 | distinct ids that are safe as sent all come back unchanged |
| Ids.RenamesReportChanges | src/jev_judge_mcp/ids.py:48-49 | for distinct ids the report names exactly those that changed, each with its replacement |
| Gate.CrossCheckIffPairable | evals/bench/gate.py:69-99 | the counters agree if and only if some order of the stream's uses lines up with the calls, same tool and same flag, an unanswered call with an error or no result |
| Gate.OrderDoesNotMatter | evals/bench/gate.py:72-75 | reordering the proxy log changes nothing |
| Protocol.Socket.RecvExact | evals/confinement/protocol.py:52-61 | reads exactly the next bytes whatever the chunks, or reports the early end |
| Protocol.Socket.RecvHeader | evals/confinement/protocol.py:64-80 | reads the first line byte by byte, and no further |
| Protocol.Socket.RecvFrame | evals/confinement/protocol.py:96-102 | the result depends on the bytes alone, never on how they arrive, and what follows is left |
| Protocol.Socket.SendFrame | evals/confinement/protocol.py:83-93 | sends the stamped frame whole, or nothing |
| Protocol.SentIsReceivedIff | evals/confinement/protocol.py:52-102 | a frame the sender accepts is received with its header and body if and only if its header line is shorter than the cap |
| Protocol.HeaderAtCapIsRefused | evals/confinement/protocol.py:64-93 | whatever the codec, a frame whose header line is exactly the cap is sent and refused |
| Protocol.SomeHeaderIsAtCap | evals/confinement/protocol.py:64-93 | there is such a header |
| Protocol.SomeCodecIsLawful | evals/confinement/protocol.py:64-93 | there is a codec of the kind assumed of the header lines |
| Protocol.CutFrameIsError | evals/confinement/protocol.py:52-102 | a stream cut anywhere inside a frame is an error, never a partial frame |
| Protocol.FramesInOrder | evals/confinement/protocol.py:83-102 | frames sent back to back are received in order, and what follows is left |
| Grade.CollectNames | evals/ab/grade.py:352-362 | the loop collects every name the module binds at top level |
| Grade.StripAdded | evals/ab/grade.py:380-417 | the loop keeps, strips and lists what one statement after the other says, the names taken growing with each added import, and sorts the report |
| Grade.CompareSource | evals/ab/grade.py:420-433 | changed unless the stripped file is the snapshot, with the sorted report; a file that does not parse is changed and reports nothing |
| Grade.UnchangedIffInserted | evals/ab/grade.py:380-433 | unchanged if and only if the snapshot is settled and the file is the snapshot with only fresh tests and imports of fresh names inserted |
| Grade.UniqueClassesSettle | evals/ab/grade.py:389 | with one class to a name every snapshot is settled |
| Grade.ClashDiffersFromItself | evals/ab/grade.py:389 | a file with two classes of one name that differs from itself |
| Grade.AddedAreTheNewFunctions | evals/ab/grade.py:369-433 | in an unchanged file the report is in order and names exactly the functions the snapshot does not have |
| Telemetry.Histogram.Cumulate | src/jev_judge_mcp/telemetry.py:130-136 | each cumulative bucket is the number of durations at or below its bound |
| Telemetry.ObservedHolds | src/jev_judge_mcp/telemetry.py:152-155 | observing adds one duration to what the histogram holds |
| Telemetry.BucketsAscend | src/jev_judge_mcp/telemetry.py:128-139 | cumulative buckets never fall and the last counts every duration |
| Telemetry.Metrics.Record | src/jev_judge_mcp/telemetry.py:91-126 | the counters and histograms are those of all spans recorded so far |
| Telemetry.Metrics.Snapshot | src/jev_judge_mcp/telemetry.py:128-139 | for every recorded span name the naive counts, sum and number of its durations, empty buckets left out |
| Telemetry.CountersCount | src/jev_judge_mcp/telemetry.py:94-96 | a tool's counters are the numbers of its spans, in all and by outcome |
| Telemetry.CountersAddUp | src/jev_judge_mcp/telemetry.py:91-119 | every counter is the sum of what its spans add, and is there exactly when some span makes it, be it with nothing in it |
| Telemetry.OrderDoesNotMatter | src/jev_judge_mcp/telemetry.py:91-119 | the counters do not depend on the order in which spans are recorded |
| Telemetry.OutcomesSumToCalls | src/jev_judge_mcp/telemetry.py:94-96 | a tool's outcome counters sum to its call counter |

## Left out

- Python's `repr` of a float: its shortest digits are the model's input, and an integer is the double it converts to.
- `TypeError` for values that are not JSON-shaped and for keys that are not strings, and `stringify(undefined)`'s text.
- `to_fixed` and `js_number_to_locale_string_en_us`: rounding to a fixed number of places.
- Real hashing, clocks and file modes; `json.dumps` and `decode_json` of cache records, of which only this is assumed: what is read back is what was written.
- CacheRuns.EntriesAreBounded: a directory listing is one step and so is the ranking, where the source reads the times of the entries one after the other.
- Cache.KeysAgreeIff: takes a hash without collisions, which a digest of fixed length only comes close to.
- Files that others write into the cache directory: foreign deletions are modelled, foreign contents are not.
- BenchProxy.BenchRecorder.Close: a failing `flush` after a successful `write` counts as a failed write, and timings in rows are not modelled.
- evals/ab/proxy.py: the same protocol with the log writes outside the first lock.
- `_Client`, `serve` and `abort` of evals/relay.py beyond who goes first and what the fallback writes: processes, pipes and signals.
- RelayAgree.AgreeThroughoutIff: is about the time before the recorder is closed, which empties what it holds; a step is a section that holds one lock, and what the threads write to the client and to the server in between is not modelled.
- RelayRuns.FallbackMakesUpIff: a row's times are told apart by the call they belong to, not modelled as numbers.
- Study: an escape or an infrastructure stop is a kill after a booking; the schedule and its shuffles, the file lock between processes, and the bench's triplets, which are batches of up to three runs here.
- Spend.SpendLedger.Load: reads a ledger file that is well formed JSON; amounts already in it are taken as they are.
- `average_precision`, `kendall_tau_b`, `expected_calibration_error` and the other scorers; floating-point rounding and NaN scores.
- Responses.Trimmed: `\d` in the header pattern is the ASCII digits; `diff_shape` and `caller_renames` are not modelled.
- Errors.Redactor.Call: the values a URL contributes (userinfo, password, normalized form) are given, not derived, and secrets of one length keep the order they are given in.
- Gate: `CrossCheck` says when nothing is raised, not the text of the error.
- Protocol: UTF-8 and JSON decoding of the header line is a codec that reads back what it wrote.
- Grade.StripAdded: parsing and `ast.dump` are taken as equality of statements without positions.
- Telemetry.Metrics.Record: histograms are values of the map rather than shared objects, counter keys are structured rather than text, and spans carry the attributes the source expects.
- Provider clients, settings, the server, the container boundary, reports, charts and prompts.
