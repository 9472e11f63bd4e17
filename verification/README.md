# A model of the agent runtime

These modules model seven stateful components of a LangGraph agent runtime and prove what they keep
over every input and every run. `dafny verify dfyconfig.toml` checks the whole project.

| component | modules |
|---|---|
| circuit breaker | `CircuitBreakers` |
| batch pool and batch tables | `BatchPool`, `BatchTables` |
| text artifacts: edits, chunks, files | `TextEdits`, `FuzzySpans`, `ArtifactEdits`, `TextChunks`, `ArtifactFiles`, `FileLayout` |
| streaming JSON-string parser and delta emitter | `ArgsParser`, `JsonStrings`, `UnicodeEscapes`, `ArtifactStream` |
| chat event log and cached message row | `ChatLog`, `ChatService` |
| context dedupe, policies and reducer | `ContextItems`, `ToolItems`, `ContextDedupe`, `ContextPolicy`, `BucketLoop`, `ContextTally`, `ContextReducer`, `ContextBudget`, `ContextOrder`, `ReductionPhases` |
| turn graph; action executor and read guard | `TurnGraph`; `ReadGuard`, `ActionExecutor`, `ExecutedRows`, `EditHonesty` |

`Basics`, `StableSort` and `PyText` hold stock definitions: options, a stable sort, and Python's
`find`, `count`, `strip` and `splitlines` on sequences of characters.

What the original updates step by step is a class or a method with a loop here, tied to a reference
function; what it promises is proved about those functions. Services, clocks, the file system and
the language model are parameters, free choices of a step, or data.

## What the proofs found

Where the code does less than its own wording says, the model follows the code, and the exact
condition is proved.

- The bucket loop of the reducer does not end when truncating the last item does not close the excess
  (`BucketLoop.TruncatingEndsIff`); it never does when the other items fill the cap
  (`BucketLoop.NoRoomNeverEnds`). Seven retrieved documents of 3000 characters do this to the built-in
  reasoning policy (`ContextBudget.SevenDocumentsHang`). `ContextBudget.ReturnsIff` says when the whole
  reduction returns.
- As many non-empty batches as workers can leave the shared pool stuck for good
  (`BatchPool.StuckReachableAtWorkers`); fewer non-empty ones never do
  (`BatchPool.NeverStuckBelowWorkers`).
- Within a batch the starvation boost changes no order (`BatchTables.BoostHasNoEffect`).
- A parsed `\u` escape swallows the character after it. When text with one escape still decodes to what
  it means is `UnicodeEscapes.UnicodeEscapeRoundTripIff`; strings with any number that do are in
  `UnicodeEscapes.ManyEscapesRoundTrip`, and two escapes in a row are in `UnicodeEscapes.AdjacentEscapes`.
- A policy node that throws with no earlier verdict lets the turn out (`TurnGraph.PolicyFailsOpenIff`).
  A human approval delivers the turn only if the policy engine agrees on its own
  (`TurnGraph.ApprovalDeliversIff`), which it does not for an unrepaired answer of low confidence
  (`TurnGraph.LowConfidenceIsNeverDelivered`). A review visit that throws leaves its REJECT unapplied
  (`TurnGraph.ReviewLeadsTo`).
- An answer made while a guard result is there is not looked at (`TurnGraph.DeliveredAnswerCheckedIff`).
- Within the graph, reasoning that exceeds its budget is retried without end
  (`TurnGraph.OverBudgetNeverEnds`).
- Within the graph a pause asked for during reasoning can run on to the output
  (`TurnGraph.PauseReachesOutputIff`); the runner settles it when it ends the turn.
- The read cap sees a batch only from its start and only requests that keep their name
  (`ActionExecutor.BoundIsReached`, `ActionExecutor.RereadsLetThrough`).
- `is_edit_applied` says an edit counts only if it changed the file, but the code looks at the number
  of replacements alone. A single edit counts as applied with the file unchanged exactly if it is a dry
  run or its new text is the text it matched (`EditHonesty.ExecuteEdit`).
- An edit by line range without an old text replaces exactly what stands in these lines, but one blank
  line, or two, are refused as ambiguous (`FileLayout.EditByLines`).

## Model

| member | source | states |
|---|---|---|
| CircuitBreakers.FieldsReflectHistory | app/services/circuit_breaker.py:85-127 | Over every interleaving with a monotone clock: the failure count and failure time are those of the history, the state is CLOSED iff fewer than max(1, threshold) failures came since the last success, and a half-open counter counts exactly the calls admitted since the last outcome |
| CircuitBreakers.AdmissionIsExact | app/services/circuit_breaker.py:109-117 | A call is admitted iff the history rule, stated without the fields, admits it |
| CircuitBreakers.NoCallDuringRecovery | app/services/circuit_breaker.py:85-117 | Not CLOSED and within recovery_timeout of the latest failure: nothing is admitted |
| CircuitBreakers.AtMostHalfOpenCalls | app/services/circuit_breaker.py:109-117 | Between two outcomes a breaker that is not CLOSED admits at most half_open_max_calls calls |
| CircuitBreakers.CircuitBreaker.MaybeTransition | app/services/circuit_breaker.py:85-90 | OPEN becomes HALF_OPEN with a fresh counter once the timeout is over; nothing else changes |
| CircuitBreakers.CircuitBreaker.RecordSuccess | app/services/circuit_breaker.py:92-97 | Logs the success; the fields stay the function of the history, and the breaker is CLOSED |
| CircuitBreakers.CircuitBreaker.RecordFailure | app/services/circuit_breaker.py:99-107 | Logs the failure; the breaker stays CLOSED iff the failures since the last success are still below the threshold |
| CircuitBreakers.CircuitBreaker.AllowCall | app/services/circuit_breaker.py:109-117 | Admits iff the history rule does |
| CircuitBreakers.CircuitBreaker.Call | app/services/circuit_breaker.py:119-127 | Runs the function iff admitted and then reports exactly one outcome |
| BatchPool.FinishedCountersAreExact | app/services/batch_store.py:188-224 | With nothing pending, completed + failed = total, and COMPLETED, FAILED and PARTIAL name exactly which outcomes occurred |
| BatchPool.RefreshedReports | app/services/batch_store.py:188-224 | Finished or not: completed and failed count those rows, and each status says exactly which outcomes occur |
| BatchPool.StepKeepsInv | app/services/batch_runner.py:16-61 | Every step keeps: at most as many tasks run as there are workers, no task is queued or run twice, and the queued and running tasks are exactly the unfinished coordinators and the handed-out pending items |
| BatchPool.PathKeepsInv | app/services/batch_runner.py:16-61 | The same over every run of the pool |
| BatchPool.PathKeepsStatus | app/services/batch_runner.py:33-61 | Over every run an unfinished batch is PENDING exactly as long as its coordinator is queued |
| BatchPool.StuckIffAllWorkersWait | app/services/batch_runner.py:33-61 | Work remains and nothing can move iff every worker holds a coordinator waiting for its items |
| BatchPool.NeverStuckBelowWorkers | app/services/batch_runner.py:16-61 | No reachable pool with fewer unfinished non-empty batches than workers is stuck, whatever empty batches there are |
| BatchPool.InternalRunsAreBounded | app/services/batch_runner.py:33-61 | Steps inside the pool use up a measure, so every schedule ends |
| BatchPool.EveryScheduleFinishes | app/services/batch_runner.py:33-61 | Below that limit every schedule, run until nothing moves, finishes every item of every batch with balanced counters and the right status |
| BatchPool.StuckReachableAtWorkers | app/services/batch_runner.py:16-61 | With as many non-empty batches as workers, for all sizes, some schedule gets stuck |
| BatchTables.ListPendingIsExact | app/services/batch_store.py:117-158 | The pending items of the batch, all and once each, by priority plus boost, highest first, and then by position |
| BatchTables.BoostIs | app/services/batch_store.py:130-158 | The boost is the number of full starvation periods waited, at most max_boost; without a stamp it is none |
| BatchTables.BoostNeverReorders | app/services/batch_store.py:75-158 | Items stamped alike, as create_batch stamps them, keep the order of the query whatever their age: within a batch the starvation boost has no effect |
| BatchTables.BoostHasNoEffect | app/services/batch_store.py:75-158 | Where items of one batch carry one stamp, the pending items of every batch are in the order of the query |
| BatchTables.StarvedComesFirst | app/services/batch_store.py:130-158 | Of items with different stamps, one that waited out its whole boost precedes a newcomer less than the boost more urgent |
| BatchTables.RunLeavesNothingPending | app/services/batch_runner.py:39-59 | Running the pending items, in any order, leaves nothing of the batch pending and no item lost |
| BatchTables.BatchStore.CreateBatch | app/services/batch_store.py:75-115 | A new batch row and its pending item rows, in order and stamped alike; every other batch keeps its items and its total |
| BatchTables.ListedAsSubmitted | app/services/batch_store.py:75-128 | A new batch is handed out whole: the item submitted at place p has that position, its own priority, PENDING and the stamp; a higher priority first, equal ones in the order submitted |
| BatchTables.BatchStore.ListPendingItems | app/services/batch_store.py:117-128 | In every valid store the pending items are handed out in the order of the query, however old |
| BatchTables.BatchStore.UpdateItem | app/services/batch_store.py:160-177 | Rows with another id are unchanged; the named row gets the status and error, and keeps its task id when none is given |
| BatchTables.BatchStore.SetBatchStatus | app/services/batch_store.py:179-186 | Only that status changes; an unknown batch changes nothing |
| BatchTables.BatchStore.RefreshBatchCounters | app/services/batch_store.py:188-224 | Only that batch row changes; its counters are the numbers of completed and failed items and its status says which outcomes occurred |
| BatchTables.BatchStore.ProcessBatch | app/services/batch_runner.py:33-61 | Runs exactly the pending items of the batch, leaves all other rows alone, and ends with completed + failed = total and the status its outcomes call for |
| TextEdits.SliceBounds | app/services/artifact_tools.py:483-496 | A valid line range is a range of the text |
| TextEdits.LineRange | app/services/artifact_tools.py:483-496 | The range covers exactly its lines; what is before and after are exactly the other lines |
| FileLayout.SliceBoundsAre | app/services/artifact_tools.py:483-496 | Which lines a range takes, with one or both ends missing, and exactly when it is invalid |
| PyText.LinesAreLines | app/services/artifact_tools.py:486-495 | A line break stands at the end of its line only, and every line but the last has one |
| TextEdits.FuzzySpanInBounds | app/services/artifact_tools.py:397-463 | Whatever normalisation and similarity do, a fuzzy span is non-empty and in bounds |
| FuzzySpans.DirectSpan | app/services/artifact_tools.py:397-404 | An old text that stands in the target is taken where it first stands |
| FuzzySpans.MatchKeepsColumns | app/services/artifact_tools.py:417-433 | For any normalisation: when the normalised old text first stands at p of the normalised lines, the span starts in the line that holds p, at the column of p, and ends in the line that holds its end, at that column or the end of the line |
| FuzzySpans.SameLengthMatch | app/services/artifact_tools.py:417-433 | If every line keeps its length when normalised, the span is exactly [p, p + len(needle)) |
| FuzzySpans.BestWindowIsBest | app/services/artifact_tools.py:435-445 | The window search takes the first of the best-scoring windows of the grid at or above 0.82, and nothing if none is |
| FuzzySpans.WindowTakesLines | app/services/artifact_tools.py:435-463 | Without a usable match the span is whole lines around a window scoring at least 0.82 that no window of the grid beats; without such a window there is none |
| TextEdits.EditLength | app/services/artifact_tools.py:499-574 | Exact mode: the length changes by replacements * (new - old), in every scope, even for an empty old text |
| TextEdits.EditStaysInRange | app/services/artifact_tools.py:499-574 | Exact or fuzzy, text outside the line range is untouched |
| FileLayout.EditReplacesOne | app/services/artifact_tools.py:541-567 | An edit without replace_all whose old text stands in the range replaces one stretch that is the old text, the first or the one asked for, and reports one |
| FileLayout.FuzzyEditReplacesOne | app/services/artifact_tools.py:513-534 | Otherwise it replaces the fuzzy span and reports one |
| FileLayout.FuzzyOccurrences | app/services/artifact_tools.py:513-561 | With an occurrence or replace_all a fuzzy edit takes its span as the old text: only occurrence 1 is there, and all of them are replaced as one |
| FileLayout.EditErrorIs | app/services/artifact_tools.py:499-574 | Which error an edit is refused with, each exactly |
| TextEdits.EditRefusedIff | app/services/artifact_tools.py:499-574 | For every input: refused iff the line range is invalid; or without an exact match there is no fuzzy span or an index other than 1; or with matches the index is out of 1..count, or there is no index, no replace_all and more than one match |
| TextEdits.ReplaceAllIsSplitJoin | app/services/artifact_tools.py:541-561 | Replace-all is cutting at the matches and joining with the new text |
| TextEdits.PiecesRejoin | app/services/artifact_tools.py:541-561 | Joining those pieces with the old text gives the text back |
| TextEdits.PiecesHoldNoMatch | app/services/artifact_tools.py:541-561 | No piece contains a match |
| TextEdits.ReplaceAllIsSinglesBackwards | app/services/artifact_tools.py:541-561 | Exact replace_all equals the single edits at k, k-1, ..., 1, for every text, non-empty old text and new text, with the same count |
| ArtifactEdits.MapBackLoop | app/services/artifact_tools.py:417-463 | The line loop computes the reference mapping of a normalised range |
| ArtifactEdits.BestWindowLoop | app/services/artifact_tools.py:435-445 | The window loop finds the first best-scoring window at or above the threshold |
| ArtifactEdits.FindFuzzySpan | app/services/artifact_tools.py:397-463 | The search returns the reference span, non-empty and in bounds |
| ArtifactEdits.SearchNeverMisses | app/services/artifact_tools.py:545-550 | Searching on from the end of each match finds the k-th one whenever k is at most the count |
| ArtifactEdits.SelectOccurrence | app/services/artifact_tools.py:545-551 | The find loop returns the k-th match and never -1 |
| ArtifactEdits.ReplaceInTarget | app/services/artifact_tools.py:541-561 | All replacement branches agree with the reference edit of the scope |
| ArtifactEdits.ApplyPrecisionEdit | app/services/artifact_tools.py:499-574 | The whole edit, errors included, agrees with the reference edit |
| ArtifactEdits.ApplyBatchEdits | app/services/artifact_tools.py:577-603 | The loop applies the batch in order and stops at the first refusal |
| ArtifactEdits.BatchAddsUp | app/services/artifact_tools.py:577-603 | Over a batch every applicable edit is applied once in order, the total is the sum of the reports, and with exact matches the length law composes |
| FileLayout.BatchOneByOne | app/services/artifact_tools.py:577-633 | A batch is its first edit and then the rest on what that leaves, whatever single edit is given beside it: empty old texts are passed over, a refusal refuses all, replacements add up |
| FileLayout.SingleNeedsTarget | app/services/artifact_tools.py:630-646 | Without a batch the edit needs an old text or a line number, and its outcome is that of the one edit |
| ArtifactFiles.BatchRefusedByOne | app/services/artifact_tools.py:577-603 | One refused edit anywhere refuses the batch |
| ArtifactFiles.Workspace.EditFile | app/services/artifact_tools.py:607-673 | A missing file, a refused edit, an oversized result and a dry run change no file; otherwise exactly that file gets the edited text |
| FileLayout.EditByLines | app/services/artifact_tools.py:627-642 | An edit of lines a to b without an old text replaces exactly what stands in these lines, keeping the last line break; one or two blank lines are refused as ambiguous |
| TextChunks.CutEndCutsWell | app/services/artifact_tools.py:767-776 | For every cursor: a cut short of the end comes behind the last newline, 。 or space of its window if that lies at or after max(200, chunk / 3), and at the full chunk if there is none |
| TextChunks.WindowsCutWell | app/services/artifact_tools.py:759-781 | The same of every window of every split |
| TextChunks.SplitStripsWindows | app/services/artifact_tools.py:759-781 | The chunks of a longer text are its windows, stripped, without the empty ones |
| TextChunks.SplitWhole | app/services/artifact_tools.py:759-781 | A text within the chunk size, or of nothing but whitespace, is its own chunk; the empty one has none |
| TextChunks.NextCut | app/services/artifact_tools.py:767-776 | Each cut makes progress and is the reference cut |
| TextChunks.SplitLongText | app/services/artifact_tools.py:759-781 | The cursor loop ends and yields the reference split |
| TextChunks.SplitCovers | app/services/artifact_tools.py:759-781 | The text is the chunks, in order, with only whitespace around and between them |
| TextChunks.SplitKeepsInk | app/services/artifact_tools.py:759-781 | No character but whitespace is lost, duplicated or reordered |
| TextChunks.SplitChunkSizes | app/services/artifact_tools.py:759-781 | Chunks are non-empty, and one exceeds chunk_chars iff the whole text is an overlong stretch of whitespace |
| TextChunks.SplitCount | app/services/artifact_tools.py:759-781 | At most len / (chunk_chars / 3 + 1) + 1 chunks |
| ArtifactFiles.WriteAcceptedIff | app/services/artifact_tools.py:104-113 | The running size checks accept iff each chunk fits the write limit and together they fit the file limit |
| ArtifactFiles.WriteBound | app/services/artifact_tools.py:197-241 | An accepted write leaves at most MAX_FILE + 2 * (chunks - 1) bytes and keeps every character but whitespace |
| ArtifactFiles.AppendBound | app/services/artifact_tools.py:295-303 | After any accepted number of chunks the file holds at most MAX_FILE + 2 bytes |
| ArtifactFiles.AppendedInk | app/services/artifact_tools.py:295-303 | Appending adds the characters of the chunks in order |
| ArtifactFiles.AppendOutcome | app/services/artifact_tools.py:295-303 | A complete append stays within MAX_FILE + 2 bytes; a failed one leaves the old text and a proper prefix of the chunks with their separators |
| FileLayout.AppendLayout | app/services/artifact_tools.py:295-336 | Chunks are appended with a blank line between any two, and one in front of them iff the file holds more than whitespace and does not end with a blank line |
| FileLayout.AppendStopsWhere | app/services/artifact_tools.py:295-303 | An append stops at the first chunk over the write limit or over what the file may still take, and at no other |
| ArtifactFiles.Workspace.Write | app/services/artifact_tools.py:197-241 | Writes iff the checks accept; a refused write changes nothing |
| ArtifactFiles.Workspace.AppendChunks | app/services/artifact_tools.py:295-303 | The loop appends exactly the chunks up to the first failing check |
| ArtifactFiles.Workspace.AppendAll | app/services/artifact_tools.py:295-303 | The file and the outcome are those of the reference append; a missing file is created |
| ArtifactFiles.Workspace.Append | app/services/artifact_tools.py:244-320 | Empty content changes nothing; any other is split and appended |
| ArgsParser.EarlierMatchEndsEarlier | app/services/artifact_args_parser.py:8 | Of two key matches the one starting earlier ends no later than the other opens |
| ArgsParser.LeftmostStays | app/services/artifact_args_parser.py:8 | The leftmost match in a prefix stays leftmost in every extension |
| ArgsParser.FeedIsOneShot | app/services/artifact_args_parser.py:27-34 | Feeding a piece to a one-shot state gives the one-shot state of the longer text |
| ArgsParser.ChunkingIndependence | app/services/artifact_args_parser.py:27-50 | For all cuttings of the stream: key flag and content start, hence the content, equal those of one-shot parsing |
| ArgsParser.DecodeJsonStringPartial | app/services/artifact_args_parser.py:81-114 | The index loop computes the recursive decoding |
| ArgsParser.ArtifactArgsParser.FeedPiece | app/services/artifact_args_parser.py:27-34 | The fields after a piece are those of one-shot parsing |
| ArgsParser.ArtifactArgsParser.HasContentKey | app/services/artifact_args_parser.py:36-44 | True iff the text has a key match; a late search stores what an early one would have |
| ArgsParser.ArtifactArgsParser.ContentSoFar | app/services/artifact_args_parser.py:46-50 | The content of all text fed so far |
| JsonStrings.DecodeSpelled | app/services/artifact_args_parser.py:81-114 | Any mix of plain and short-escaped characters decodes to what it means, whatever follows |
| JsonStrings.RoundTrip | app/services/artifact_args_parser.py:81-114 | Decoding undoes short-escape encoding of every string, closed or open |
| JsonStrings.ArgumentsRoundTrip | app/services/artifact_args_parser.py:74-114 | The same through key search and parser |
| UnicodeEscapes.UnicodeEscapeSwallowsNext | app/services/artifact_args_parser.py:102-111 | A parsed \u escape swallows the character after its digits |
| UnicodeEscapes.UnicodeEscapeRoundTripIff | app/services/artifact_args_parser.py:102-111 | Text with one \u escape among plain and short-escaped characters decodes to its meaning iff the decoder recovers from the swallowed character: behind the escape come escaped backslashes, any number, and an escaped slash; or the string ends and decoding past the swallowed closing quote yields what is missing, usually nothing; or look-alikes of \u escapes lead there |
| UnicodeEscapes.RecoversWithoutLookalike | app/services/artifact_args_parser.py:102-111 | In a string without a look-alike of a \u escape that condition is: nothing follows and the text behind the closing quote is empty or another quote, or escaped backslashes and an escaped slash follow |
| UnicodeEscapes.LookalikeRecovers | app/services/artifact_args_parser.py:102-111 | A look-alike can recover too: an input |
| UnicodeEscapes.ManyEscapesRoundTrip | app/services/artifact_args_parser.py:81-114 | A string with any number of \u escapes, each followed by escaped backslashes and an escaped slash or ending the string, decodes to its meaning |
| UnicodeEscapes.AdjacentEscapes | app/services/artifact_args_parser.py:102-111 | Of two \u escapes in a row the second is read as the letter u and its digits |
| JsonStrings.DecodeMonotone | app/services/artifact_args_parser.py:81-114 | Decoding is prefix-monotone at every cut outside an escape, the one right behind the digits of a \u escape included |
| JsonStrings.DecodeMonotoneIff | app/services/artifact_args_parser.py:81-114 | For every text and every cut: decoding is monotone iff the cut is outside an escape, or behind the backslash of an escape for a backslash, or inside a \u escape for the letter u whose shown digits are also what is decoded behind it |
| JsonStrings.CutInsideShortEscapeIff | app/services/artifact_args_parser.py:86-114 | At a cut inside a short escape the decoded text still only grows iff the escape stands for a backslash |
| ArtifactStream.FallbackAddsNothing | app/services/artifact_stream.py:36-45 | The one-shot and regular-expression fallbacks never add anything to the parser |
| ArtifactStream.RunIsLongest | app/services/reasoning_trace.py:66-73 | The fallback pattern captures the longest run of plain characters and escape pairs |
| ArtifactStream.EmitKeepsCursor | app/services/artifact_stream.py:77-98 | One emission keeps: what was sent is the text up to the cursor, within the cap, and only a stretch below the minimum is held back |
| ArtifactStream.EmitSends | app/services/artifact_stream.py:77-98 | Something is sent iff there is new text below the cap that does not run into the cap with less than the minimum left; then it is all there is up to the cap |
| ArtifactStream.DeltaSink.EmitContentDeltas | app/services/artifact_stream.py:48-98 | Sends exactly the slice between old and new cursor, or nothing |
| ArtifactStream.ContentGrows | app/services/artifact_stream.py:36-45 | The content of a prefix cut outside an escape is a prefix of all later contents |
| ArtifactStream.EmitPiece | app/services/artifact_stream.py:48-98 | One turn of the streaming loop keeps the cursor exact |
| ArtifactStream.StreamArtifact | app/services/llm_gateway.py:702-728 | Over any clean cutting of the stream the deltas concatenate to exactly the first seen characters of the content; the stream is cut short iff the next piece would take the arguments over the cap, and what was shown is within it |
| ChatLog.SelectIsSorted | app/services/chat_message_store.py:309-339 | Selecting returns each matching event once in strictly ascending seq |
| ChatLog.NextPage | app/services/chat_message_store.py:309-339 | Reading on from the last row of a page yields exactly what the page left out |
| ChatLog.PageIsExact | app/services/chat_message_store.py:309-339 | A page is ascending, holds only matching events, and leaves out only later ones, if it is full |
| ChatLog.PageThenRest | app/services/chat_message_service.py:246-256 | A full page plus what is read after it is everything; a shorter page is everything |
| ChatLog.RecordKeepsInv | app/services/chat_message_service.py:101-167 | Recording an event, also one refused for its number, keeps the invariant of the next row |
| ChatLog.RunKeepsInv | app/services/chat_message_service.py:101-167 | Over every run, with other writers in the same log: stored content = answer deltas up to last_persist_seq, and at most min_events - 1 recorded events are unflushed |
| ChatLog.ClockOnlyMovesFlushes | app/services/chat_message_service.py:139-167 | Two runs that differ only in clock readings differ only in their flushes |
| ChatLog.FinalRowIgnoresFlushTiming | app/services/chat_message_service.py:169-204 | The finalized row does not depend on flush timing |
| ChatLog.FinalRowFromLog | app/services/chat_message_service.py:169-204 | Once the message has events, its finalized row is a function of the log alone |
| ChatLog.RecordLeaves | app/services/chat_message_service.py:101-167 | What a recorded event leaves: its log entry, the answer, the blocks; and the row takes over the context iff it is a thinking event, nothing was persisted yet, the interval is over, or min_events numbers have passed |
| ChatLog.AppendableIff | app/services/chat_message_store.py:264-307 | An event is let in iff its task has none with its number |
| ChatLog.ForeignLeaves | app/services/chat_message_store.py:264-307 | An event of another writer is added to the log and touches nothing else |
| ChatLog.SyncShows | app/services/chat_message_service.py:206-233 | A synced thinking text is shown by context and row alike; an empty one changes nothing |
| ChatLog.FinalRowShows | app/services/chat_message_service.py:169-204 | A finalized row has the status and content given, its blocks show the content and the thinking text, and they are finished and sorted, for any projection whose parts do what they are named for |
| ChatLog.FinalRowStartsFrom | app/services/chat_message_service.py:181-194 | The final blocks are made of exactly the events of the message under the task with positive numbers, or of the context when there is none |
| ChatService.ChatMessageStore.AppendEvent | app/services/chat_message_store.py:264-307 | Appends iff no event with its task id has the number; uniqueness is kept |
| ChatService.ChatMessageStore.ListEvents | app/services/chat_message_store.py:309-339 | Matching events in ascending order, at most limit; every matching event left out comes after them, and there is one only if the page is full |
| ChatService.ChatMessageStore.NextEventSeq | app/services/chat_message_store.py:249-262 | One more than the largest number under a task id, at least one |
| ChatService.ChatMessageStore.UpdateMessage | app/services/chat_message_store.py:175-221 | Changes exactly the given columns of an existing row |
| ChatService.ChatMessageService.BeginAssistantMessage | app/services/chat_message_service.py:86-99 | Creates the streaming row once |
| ChatService.ChatMessageService.RecordStreamEvent | app/services/chat_message_service.py:101-137 | State change equals the reference step; a clash uses up the number and changes nothing else |
| ChatService.ChatMessageService.ForceFlush | app/services/chat_message_service.py:139-147 | Row content and blocks become those of the context, up to the last number |
| ChatService.ChatMessageService.MaybeFlush | app/services/chat_message_service.py:149-167 | Flushes unless flushed recently and fewer than min_events numbers ago |
| ChatService.ChatMessageService.SyncThinkingText | app/services/chat_message_service.py:206-233 | Touches the blocks only |
| ChatService.ChatMessageService.ReadAllEvents | app/services/chat_message_service.py:246-256 | The paging loop ends and returns every event of a task id above zero once, ascending |
| ChatService.ChatMessageService.FinalizeAssistantMessage | app/services/chat_message_service.py:169-204 | State change equals the reference finalization |
| ContextDedupe.NearDuplicateSymmetric | app/services/context_fingerprint.py:96-117 | Being a near duplicate is mutual |
| ContextDedupe.NearDuplicateIff | app/services/context_fingerprint.py:96-117 | Near duplicates: non-empty, and equal once normalised, or one of at least 20 characters standing in the other, or common words at least the threshold share of all |
| ContextDedupe.DedupeContextItems | app/services/context_fingerprint.py:138-162 | The loop computes the recursive greedy dedupe |
| ContextDedupe.DedupeIsIndependent | app/services/context_fingerprint.py:138-162 | The result is a subsequence with distinct keys and no later near duplicate of an earlier kept text |
| ContextDedupe.DedupePrefix | app/services/context_fingerprint.py:138-162 | What is kept of a beginning stays kept, in front |
| ContextDedupe.RemovedIsCovered | app/services/context_fingerprint.py:138-162 | Every removed item is covered by an item kept before it |
| ContextDedupe.DedupeIdempotent | app/services/context_fingerprint.py:138-162 | Deduplicating twice changes nothing more |
| ContextDedupe.MergeRegistryItems | app/services/context_registry.py:94-110 | The loop computes the reference merge |
| ContextDedupe.RegistryBounded | app/services/context_registry.py:94-110 | Every run of merges keeps at most 48 entries with distinct keys |
| ContextDedupe.MergeKeepsNewest | app/services/context_registry.py:94-110 | A merge keeps the newest entries, and trims only down to 48 |
| ContextPolicy.BuiltInShape | app/services/context_policy.py:45-376 | In every built-in policy required and droppable buckets are disjoint; names exactly the buckets trimmed by truncating |
| ContextPolicy.ScalePreserves | app/services/context_policy.py:388-409 | Scaling changes caps only, keeps open buckets open and closed ones closed, and keeps the order of caps |
| ContextPolicy.ScaledInProportion | app/services/context_policy.py:388-409 | A scaled cap is max(1, floor(cap * budget / default budget)), in whole numbers; within one percent nothing is scaled |
| ContextItems.SortRankAscending | app/services/context_reducer.py:71-75 | Sorting puts ranks in ascending order |
| ReductionPhases.EstimateIs | app/services/context_estimator.py:9-18 | A text costs a token to four characters, at least one; only items without tokens are estimated |
| ContextOrder.MostImportantFirst | app/services/context_reducer.py:71-75 | Of two sorted items the first has the higher rank, or the same and is fresher, or the same and the smaller id |
| BucketLoop.TruncateMeetsTarget | app/services/context_reducer.py:245-269 | With compressors that cut at their budget, anything but a tool item meets its target in one truncation |
| BucketLoop.TruncateKeepsIdentity | app/services/context_reducer.py:245-269 | Truncating keeps id, kind, priority, bucket and flags |
| ReductionPhases.ShapesAre | app/services/context_reducer.py:245-263 | Which compressor an item goes to, by bucket and kind, the first that fits |
| ReductionPhases.TruncatedBy | app/services/context_reducer.py:245-269 | A truncated item is the old one if it fits, else it has the text and name of its compressor and the tokens of that text; a plain one keeps max(80, 4 * tokens) characters and an ellipsis |
| ReductionPhases.TargetIs | app/services/context_reducer.py:371-376 | The share an item is truncated to is max(32, floor(cap / items)) |
| BucketLoop.DroppingEnds | app/services/context_reducer.py:359-394 | In the two dropping branches the loop ends within as many turns as items, with the longest beginning that fits, or one required item |
| ReductionPhases.DroppingLeaves | app/services/context_reducer.py:359-394 | Where the loop drops, what is left fits the cap, is nothing, or is the one item a required droppable bucket keeps; such a bucket is never emptied |
| ReductionPhases.DropsAreNoted | app/services/context_reducer.py:359-394 | It notes exactly the items it drops, from the last one on |
| ReductionPhases.CutsAreNoted | app/services/context_reducer.py:371-388 | Where it truncates it drops nothing and notes one item to a turn |
| BucketLoop.TruncatingTouchesLast | app/services/context_reducer.py:371-388 | While the loop truncates only the last item changes |
| BucketLoop.TruncatingEndsIff | app/services/context_reducer.py:371-388 | The truncating loop ends iff truncating the last item over and over closes the excess alone |
| BucketLoop.StuckOnceLastFits | app/services/context_reducer.py:371-388 | Once the last item fits max(32, cap / len) a turn changes nothing and the loop never ends |
| BucketLoop.TruncatingEndsAtOnceIff | app/services/context_reducer.py:371-388 | For compressors that cut at their budget, and a last item that is left alone once it is cut, it ends iff the bucket fits now or after one truncation |
| BucketLoop.NoRoomNeverEnds | app/services/context_reducer.py:371-388 | Whatever the compressors do, it never ends if the items before the last leave no room for what the last cannot be brought below: the header of a tool item, one token for any other |
| BucketLoop.TruncateSettles | app/services/context_reducer.py:206-269 | Truncating to the same target again changes nothing |
| ToolItems.ParseRender | app/services/context_reducer.py:206-229 | A clipped tool item has the header it had |
| ToolItems.ClipSettles | app/services/context_reducer.py:206-229 | Clipping a clipped tool item with a header changes nothing |
| ToolItems.ClipKeepsHeader | app/services/context_reducer.py:206-229 | The header stays whole however small the target |
| ToolItems.PlainCutSettles | app/services/context_reducer.py:220-222 | The plain cut with an ellipsis leaves the cut body of every text alone |
| ToolItems.ClippedTo | app/services/context_reducer.py:206-229 | A tool body of at most max(40, 3 * tokens) characters stays, a longer one is cut there; a text without a header keeps max(80, 4 * tokens) characters, stripped at the end, and gets an ellipsis |
| ContextReducer.ApplyMinRepresentation | app/services/context_reducer.py:272-299 | The loop computes the reference minimum: the most important items, each cut to its share |
| ContextOrder.MinKeepsMostImportant | app/services/context_reducer.py:272-299 | The minimum keeps as many items as asked for; none left out ranks higher than one kept, or as high and fresher; each has its share of the minimum |
| ContextOrder.MinimalIs | app/services/context_reducer.py:287-298 | Each is the same item with its first lines, or within its share |
| ContextOrder.PreparedOnlyWhenOver | app/services/context_reducer.py:325-357 | A bucket is compressed or replaced by its minimum only when over its cap, and never grows by the minimum |
| ContextReducer.TrimOnce | app/services/context_reducer.py:359-394 | One turn of the bucket loop, in all branches, loses no id and notes its victim where the branch says |
| ContextReducer.RunBucketLoop | app/services/context_reducer.py:359-394 | A loop that can end does end within its cap, or with one required droppable item; no id is lost |
| ContextReducer.ReduceBucket | app/services/context_reducer.py:325-398 | What is kept of a bucket is what its loop leaves; where the policy drops it is the longest fitting beginning of the sorted bucket |
| ContextReducer.DropsLeastImportant | app/services/context_reducer.py:359-370 | What a bucket keeps is a beginning of the sorted bucket, and nothing kept is less important than anything dropped |
| ContextReducer.FullBucketNeverReturns | app/services/context_reducer.py:359-388 | A truncated bucket whose items but the least important fill its cap is never left |
| ContextReducer.BuiltInBucketsFit | app/services/context_reducer.py:359-398 | Under every built-in policy each bucket that its loop leaves is empty or within its cap |
| ContextBudget.DegradeBucket | app/services/context_reducer.py:418-443 | Degrading one bucket equals the reference visit of its items, least important first, while over budget |
| ContextOrder.DegradeWorstFirst | app/services/context_reducer.py:418-443 | Degrading visits a bucket in descending rank while the kept tokens are over the budget, drops what may be dropped, cuts what else may be cut, and visits nothing that ranks below something unvisited |
| ContextOrder.CutHalves | app/services/context_reducer.py:421-437 | A cut keeps the item, at half its tokens or 32 |
| ContextBudget.CompressTranscript | app/services/context_reducer.py:410-417 | All transcript items are replaced by their compression and none is lost |
| ContextBudget.Degrade | app/services/context_reducer.py:404-443 | The degrade order equals its reference and loses no id |
| ReductionPhases.DegradeGoesBy | app/services/context_reducer.py:404-443 | The degrade order is gone through bucket by bucket while over the budget; the transcript is replaced by its compression, any other bucket is degraded by items, and only the transcript makes new ids |
| ReductionPhases.DegradeSpares | app/services/context_reducer.py:404-443 | It drops only droppable items of the buckets it names and none of a bucket whose fidelity is preserved; items of other buckets stay, and within the budget nothing happens |
| ContextBudget.Sweep | app/services/context_reducer.py:445-456 | The sweep ends within the budget or with only critical or non-droppable items |
| ContextOrder.SweepDropsWorst | app/services/context_reducer.py:445-456 | Everything the sweep drops ranks no higher than any unprotected item it keeps, the budget was exceeded before its last drop, and nothing else changes |
| ContextOrder.WorstComeFirst | app/services/context_reducer.py:418-446 | The order of both phases is a permutation in descending rank |
| ContextBudget.EnforceBudget | app/services/context_reducer.py:400-458 | The global phases end within budget or with only protected items, and drop only droppable ones |
| ReductionPhases.BudgetSpares | app/services/context_reducer.py:400-458 | Both phases keep every critical or non-droppable item of a bucket outside the degrade order; within the budget nothing happens |
| ContextBudget.ReduceBuckets | app/services/context_reducer.py:315-398 | The bucket phase keeps, bucket by bucket in order of first appearance, what each loop leaves, and accounts for every id |
| ReductionPhases.BucketsInOrder | app/services/context_reducer.py:317-325 | The buckets are taken in the order in which they first appear |
| ReductionPhases.BucketsOnce | app/services/context_reducer.py:317-325 | Every bucket of an item is taken, once |
| ContextBudget.ReduceContextItems | app/services/context_reducer.py:302-458 | Whenever the reducer returns: within the total budget or every kept item is critical or non-droppable; every deduplicated id is kept, compressed or dropped; kept ids are input ids or made by the transcript compressions of this run; the trace lists the dropped items in order; the global phases drop only droppable items |
| ContextBudget.ReturnsIff | app/services/context_reducer.py:315-398 | With such compressors the reducer returns iff every bucket trimmed by truncating is empty, fits, or fits after one truncation of its least important item |
| ContextBudget.FullBucketHangs | app/services/context_reducer.py:359-388 | With such a bucket the reducer does not return |
| ContextBudget.SevenDocumentsHang | app/services/context_reducer.py:359-388 | Seven different documents of 3000 characters hang the built-in reasoning policy |
| TurnGraph.StreamGraph | app/runtime/graph.py:223-241 | The loop yields each visited node with the state it left, until the end |
| TurnGraph.RoutersStayInTheTable | app/runtime/graph.py:78-174 | Every router answer is in its edge table, whatever the services say; planning never ends the turn or jumps to reasoning, though its table allows both |
| TurnGraph.FatalErrorsRetry | app/runtime/router.py:60-71 | Retrieval and engineering: dead letter iff a fatal error and no retry left, the node again iff one is left, and the exact condition of every other exit |
| TurnGraph.ToolsLeadTo | app/runtime/router.py:74-147 | After the tools: the exact condition of the dead letter, of another try, of context governance, of planning again and of staying with the tools |
| TurnGraph.PlanningForced | app/runtime/planning_gate_router.py:42-95 | The forced exits of planning: the exact conditions of planning again, the dead letter, engineering, and of a turn that must execute |
| TurnGraph.PlanningFree | app/runtime/planning_gate_router.py:97-139 | Otherwise: retrieval iff it is not skipped and memory, plan or writing asks for it; else the tools iff there are some |
| TurnGraph.ReasoningLeadsTo | app/nodes/reasoning_or_writing_node.py:41-98 | After reasoning: the exact condition of every exit |
| TurnGraph.VerificationLeadsTo | app/nodes/verification_node.py:11-22 | After verification: refused, sent to a human or on to the policy, each with its exact condition |
| TurnGraph.AnswerLeaves | app/services/post_generation_guard.py:9-22 | What an answer leaves: which guard result, status and verdict, by the earlier result and whether the new one passes |
| TurnGraph.BrokenOffLeaves | app/nodes/reasoning_or_writing_node.py:20-38 | What a blocked stream, a pause and a cancellation leave |
| TurnGraph.VerdictIs | app/services/policy_engine.py:15-104 | Which turns the policy engine rejects, escalates and sends to review, each exactly |
| TurnGraph.PolicyLeaves | app/nodes/policy_node.py:15-66 | Review is asked for iff the verdict is REVIEW or ESCALATE; a policy node that throws changes status and retry count only |
| TurnGraph.ReviewLeaves | app/nodes/human_review_node.py:16-76 | What the review node leaves, by feedback and exception |
| TurnGraph.OutputLeaves | app/nodes/output_node.py:19-36 | Output completes a turn unless it throws, owes side effects, or is rejected or paused |
| TurnGraph.EndsLeave | app/nodes/rejected_node.py:7-21 | Final statuses; an interrupt ends the turn iff it asks to abort |
| TurnGraph.VisitKeepsInv | app/runtime/graph.py:58-179 | Every visit keeps the safety invariant |
| TurnGraph.OutputIsCleared | app/runtime/graph.py:147-174 | In every run that is about to output: policy CONTINUE or absent, a generation from reasoning_or_writing has a passed or absent guard, and the state is not rejected |
| TurnGraph.RejectIsFinal | app/nodes/human_review_node.py:24-40 | An applied REJECT is followed by verification, rejected, END |
| TurnGraph.NoOutputAfterReject | app/runtime/graph.py:147-179 | In every run no output follows an applied REJECT |
| TurnGraph.ReviewLeadsTo | app/nodes/human_review_node.py:24-76 | Where each outcome of the review leads two visits later; a review that throws comes back iff review was flagged or the policy said REVIEW |
| TurnGraph.ApprovalDeliversIff | app/nodes/policy_node.py:15-66 | An approved turn is delivered iff the policy engine, asked without the flag, says CONTINUE; on REVIEW or ESCALATE it is back in human review |
| TurnGraph.ApprovalCanLoopForever | app/runtime/graph.py:147-179 | After any number of rounds of approving a turn the engine keeps questioning, the run is in human review again |
| TurnGraph.QuestionedIff | app/services/policy_engine.py:15-104 | Which turns no approval delivers: unknown or review-level risk, or, below that and unrepaired, undeliverable failed code or a confidence under one half |
| TurnGraph.LowConfidenceIsNeverDelivered | app/services/policy_engine.py:15-104 | An unrepaired answer of confidence under one half is in human review again after any number of approvals |
| TurnGraph.PolicyFailsOpenIff | app/nodes/policy_node.py:58-66 | A policy node that throws goes to output iff the earlier verdict was CONTINUE or absent |
| TurnGraph.PauseReachesOutputIff | app/nodes/reasoning_node.py:460-471 | Exactly when a pause asked for during reasoning is followed, within the graph, by verification, policy and output; the paused status is gone by then |
| TurnGraph.GuardIsKept | app/services/post_generation_guard.py:9-22 | Over every run a guard result that is there stays, unless a stream is blocked or a node without a body here resets it |
| TurnGraph.DeliveredAnswerCheckedIff | app/services/post_generation_guard.py:9-22 | The delivered answer was itself looked at by the guard and passed iff no result was there when its visit began |
| TurnGraph.StillRetryingIff | app/nodes/reasoning_or_writing_node.py:43-50 | However failing visits are mixed, the run still retries iff the ordinary failures leave retry_count below the limit |
| TurnGraph.RetriesAreExact | app/nodes/reasoning_or_writing_node.py:43-50 | Ordinary failures from retry_count r reach dead_letter after exactly max(1, MAX_RETRY_COUNT - r) visits |
| TurnGraph.OverBudgetNeverEnds | app/nodes/reasoning_node.py:444-451 | Budget-exceeded visits leave retry_count alone: below the limit they repeat forever |
| TurnGraph.BlockedIsNotRetried | app/nodes/reasoning_or_writing_node.py:20-50 | A failing visit is rejected at once iff a failed guard result is present |
| ReadGuard.CountArtifactReads | app/services/artifact_read_guard.py:44-58 | The loop counts exactly the successful or cached reads of that basename, none for an empty name |
| ReadGuard.FindLastArtifactRead | app/services/artifact_read_guard.py:69-86 | The backward loop computes the reference search |
| ReadGuard.LastReadIsLatest | app/services/artifact_read_guard.py:69-86 | That is the latest read of the file that has content, if there is one |
| ReadGuard.BlockRepeatArtifactRead | app/services/artifact_read_guard.py:89-122 | Proceeds iff the count is below max(1, setting), else reuses the latest content, else refuses |
| ExecutedRows.CountIsOfReads | app/services/artifact_read_guard.py:44-58 | The count is the number of rows that are successful or cached reads of the file |
| ExecutedRows.RowFileFrom | app/services/artifact_read_guard.py:16-41 | Which of its names a row is taken for |
| ExecutedRows.ReadRowSays | app/services/action_executor.py:250-284 | The row of a read: carried out iff fewer reads than the limit are there, with the text found or an error; at the limit with the content of the latest read, or refused |
| ExecutedRows.ActionRowSays | app/services/action_executor.py:195-284 | The row of any other action: ok iff its handler succeeded, else an error row; which tool, file and count it names |
| ExecutedRows.BatchLogs | app/services/action_executor.py:304-341 | Each action is logged in its place and each that is not deferred or an engineering run appends one row, whose status is logged |
| ExecutedRows.BatchLeaves | app/services/action_executor.py:341-367 | What a batch leaves of a turn: its rows, its log, and the earlier counters when it has no edits |
| ExecutedRows.SafeNameStaysInside | app/services/artifact_tools.py:84-101 | A safe name is an allowed file name in at most one directory, neither of them a dot or two or with a slash or backslash |
| ExecutedRows.RefusedPaths | app/services/artifact_tools.py:84-101 | Two directories are refused, and so is a name that is not allowed, in a directory or not |
| ReadGuard.PlainPathsAreTracked | app/services/artifact_read_guard.py:12-13 | Ordinary names, alone or in one directory, are recorded under the name the guard looks for |
| ReadGuard.BackslashIsUntracked | app/services/artifact_tools.py:84-101 | A request with a backslash is recorded under another name than the guard looks for |
| ActionExecutor.ExecuteArtifactRead | app/services/action_executor.py:250-284 | A guarded read leaves the reference row: repeated, refused, failed or let through |
| ActionExecutor.ExecuteActions | app/services/action_executor.py:287-367 | The loop over the actions equals the reference batch |
| ActionExecutor.CountersMatchRows | app/services/action_executor.py:300-345 | The edit counters are those of the rows the batch appended |
| ActionExecutor.EditsAppliedIff | app/services/action_executor.py:300-346 | Earlier results stay a prefix; edit_applied iff every attempted edit reports at least one replacement; a batch without edits leaves the earlier claim |
| ActionExecutor.UntargetedEditIsNotApplied | app/services/action_executor.py:229-249 | An edit without a target becomes a write and never counts as applied |
| EditHonesty.UnchangedIff | app/services/artifact_tools.py:499-574 | Every edit that goes through reports a replacement, and leaves the text as it was iff the new text is the matched one: the old text, or the span of the fuzzy search |
| EditHonesty.BatchPutsBack | app/services/artifact_tools.py:577-603 | A batch whose edits each put back what they match leaves the text as it was |
| EditHonesty.ExecuteEdit | app/services/action_executor.py:268-284 | An edit row counts as applied iff the edits went through, the result fits and a replacement is reported; a single applied edit left all files alone iff it was a dry run or its new text is the matched one |
| ActionExecutor.BatchReads | app/services/action_executor.py:250-332 | One batch lets no read of a file at its limit through, and of another at most as many as are asked |
| ActionExecutor.ReadsAreCapped | app/services/artifact_read_guard.py:44-122 | Over all runs of batches the guarded reads of a basename that are let through are at most limit - 1 plus the most one batch asks for |
| ActionExecutor.RereadsLetThrough | app/services/artifact_read_guard.py:89-122 | One read to a batch: min(n, limit) of n are let through iff the request is tracked, otherwise all n are |
| ActionExecutor.BoundIsReached | app/services/artifact_read_guard.py:89-122 | The bound is reached: limit - 1 single reads and then m in one batch |

## Left out

- ContextBudget.ReduceContextItems: has the precondition that every bucket loop it starts ends, because the original does not return otherwise; `ContextBudget.ReturnsIff` states when that is.
- BucketLoop.TruncateMeetsTarget: assumes of the memory, knowledge and diagnostic compressors that they cut at the character budget plus an ellipsis; their texts are parameters.
- ContextPolicy.ScaledInProportion: takes exact ratios, as `ContextPolicy.ScalePreserves` does, and both adaptive settings switched on.
- ContextPolicy.ScalePreserves: uses exact ratios instead of floating point, and both adaptive settings switched on.
- BucketLoop.TruncatingEndsAtOnceIff: assumes of a last item that is a tool item that its body is left alone once it is cut. That is proved of the plain cut; choosing sentences by the query need not do so, as for a body of nothing but full stops.
- ContextDedupe.DedupeIsIndependent: takes the item keys, the text normalisation and the word tokens as parameters; an item and its dictionary form have one key.
- ContextReducer.PrepareBucket: does not model the order or the receipts of trace entries for compressed items, only that their ids are noted.
- TextEdits.EditLength: is about exact matches; with a fuzzy match and `replace_all` the reported count is 1 whatever happened.
- TextEdits.FuzzySpanInBounds: takes Unicode normalisation and the similarity ratio as parameters.
- FileLayout.EditByLines: is about lines that end with a newline, as reading a file makes them; a line ended by another break is joined by a newline and need not match.
- UnicodeEscapes.UnicodeEscapeRoundTripIff: takes the reading of four hexadecimal digits as a parameter, surrogates included, of which it assumes that it accepts no quote and no backslash.
- ArtifactStream.StreamArtifact: requires that no piece of the stream ends inside an escape; `JsonStrings.DecodeMonotoneIff` says for every cut whether the decoded text stays where it is.
- ArtifactFiles.Workspace.Write: leaves out file-name checks, the run fence, the outline guard and newline translation of the file system.
- ArtifactFiles.Workspace.Append: takes the content as it is; the sanitising of chapter text is left out.
- ChatService.ChatMessageService.SyncThinkingText: takes the text already stripped; the variant that also logs a snapshot is a recorded event.
- ChatLog.FinalRowFromLog: takes the projection of events to blocks as parameters; persistence is switched on.
- BatchPool.EveryScheduleFinishes: leaves out the Celery path and process restarts; an item that runs always ends.
- BatchTables.BatchStore.CreateBatch: draws ids from a counter where the original draws random ones.
- TurnGraph.OutputIsCleared: nodes without a body here may leave any state at all; the interrupt before the review node is feedback that may arrive at its visit; an exception that leaves a node ends the run and is not a visit.
- TurnGraph.OverBudgetNeverEnds: is about the graph alone; a recursion limit of the graph library is left out.
- TurnGraph.RetriesAreExact: rests on the post-processing after a failed reasoning visit touching the input payload only, as the node's code does.
- ActionExecutor.ReadsAreCapped: is about requests that name the file as it is recorded, and about reads the guard lets through, which the read handler may still answer from its own cache; other nodes may append rows but no guarded reads.
- EditHonesty.ExecuteEdit: of a batch whose edits change the text and undo one another says nothing.
- ActionExecutor.ExecuteActions: takes what handlers, registry tools and content generation answer as data; a content generation that raises is left out.
- Locks, metrics, audit payloads, SQL and the choice of database.
- The web API, the command line, retrieval, prompts and the language model calls.
- Context registry conversion, session views and message listings: plain field copies.
