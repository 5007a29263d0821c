# NeuroVoice delivery, admission, text and cache logic in Dafny

NeuroVoice is a Turkish text-to-speech service: a gateway reserves an
idempotency row and queues a job on a Redis stream, workers synthesise and
publish audio chunks on a per-request stream, and the gateway reads them back.
This project models the parts of that service whose correctness spans several
processes or a whole history, and proves what they promise.

| file | what it models |
|---|---|
| `ResultStream.dfy` | the gateway's attempt-aware reader and the synchronous drain, against a declarative filter |
| `Delivery.dfy` | the delivery protocol as a step system: any number of job entries, workers and attempts; each Redis or database operation may succeed, raise without effect, or raise after taking effect; a worker that stalls or dies takes no further step |
| `DeliverySafety.dfy`, `DeliveryEntries.dfy`, `DeliveryAudio.dfy`, `DeliveryRetries.dfy` | invariants of that system over all runs: what is committed, published, drained and retried |
| `DeliveryLimits.dfy`, `DeliveryOverwrites.dfy` | concrete runs in which documented claims fail, and the exact conditions under which they hold |
| `Worker.dfy` | the pipeline and the consumer as imperative code; every path they take is a path of a protocol handler |
| `Idempotency.dfy`, `ReserveRace.dfy` | the idempotency table, and racing reservations followed by submission |
| `RateLimit.dfy` | the sliding-window limiter against the full admission log |
| `Numbers.dfy`, `Text.dfy`, `Segment.dfy` | number verbalisation with a decoder; whitespace and trimming; sentence segmentation |
| `WsBuffer.dfy` | the WebSocket accumulate-and-flush buffer |
| `AdapterCache.dfy`, `DiskCache.dfy` | the LRU of loaded models; oldest-first eviction of downloaded files |
| `Wire.dfy` | the wire form of a result chunk, with padded Base64 (section 4 of RFC 4648) |

Code that updates state is a class or a method with loops, tied by its `ensures`
to a specification function; the properties are lemmas about that function or
invariants over runs. What the outside world answers (Redis, the database, the
engine, object storage, the clock) is a parameter, quantified over all its values. Visible text is text without whitespace.

## Where the code and its documentation disagree

The model follows the code. Where a point is a statement about the model, its lemma is named.

- `src/worker/pipeline.py:44-46` and `787-792` promise that `final` implies a
  `complete` status. It does not: when the XADD of the final raises after taking
  effect and the retry budget is spent, `fail()` overwrites the status
  (`FinalWithoutComplete`). `OverwriteCanFollowIff` says exactly when a committed
  status can still be lost, and `CommitBeforeFinal` is what remains true of the history.
- A terminal failure does not stop an attempt that has already committed from
  publishing its final (`FinalAfterFailureIff`, `FailureBeforeFinal`); it does stop every commit
  (`NoCommitAfterFailure`).
- `src/worker/pipeline.py:300-303` calls the DEL at attempt start retry safety.
  A later start before the final is read truncates the audio without an error
  (`LateStartTruncates`), and two attempts that read the same delivery count
  can have their audio mixed (`SharedEpochMixesAudio`): the count is read after
  pick-up, and falls back to 1. `EndToEndIff` gives the exact condition on what
  reached the reader, and `EndToEndAudio` a simpler one that implies it.
- `src/frontend/lang_packs/tr/numbers.py:1` states a limit of 10^12; the code
  accepts everything below 10^15, and so does the model.
- `src/frontend/lang_packs/tr/segment.py:128-131` promises at least 12
  characters per chunk. That holds after merging and not after breaking long
  segments (`ShortChunkFromText`; `MinimumIff` says exactly when).
- The asynchronous handler discards `is_new` and submits twice for one
  reservation (`AsyncSubmitsTwice`; `SubmitsTwiceIff` says exactly for which requests).
- `reserve_or_get` promises never to surface a raw integrity error. A call that
  nobody disturbs does so exactly when a row the caller cannot see holds the key
  (`RawErrorIffLeftover`); a disturbed one also when the key is taken, freed and
  taken again meanwhile (`RawErrorNeedsThreeChanges`).
- `src/server/rate_limit.py` asks for unique members; `check` accepts any, and a
  caller that repeats one is not limited unless the limit is 1 (`RepeatsHarmlessIff`).

## Model

| member | source | states |
|---|---|---|
| ResultStream.FilteredIsOrderly | src/server/result_stream.py:113-158 | for every entry sequence: attempts never decrease, audio sequence numbers are distinct within an attempt, a terminal chunk is unique and last |
| ResultStream.KeptAtExact | src/server/result_stream.py:113-158 | the output consists of exactly the entries the declarative filter keeps |
| ResultStream.KeptAtIncreases | src/server/result_stream.py:113-158 | and in stream order |
| ResultStream.ReaderStep | src/server/result_stream.py:122-158 | each branch of the loop body moves the reader's variables as the filter requires |
| ResultStream.FilteredStops | src/server/result_stream.py:156-158 | nothing after a terminal chunk of the current attempt can matter |
| ResultStream.ConsumeBatch | src/server/result_stream.py:114-158 | one XREAD response advances output and state by exactly its entries |
| ResultStream.ConsumeResultStream | src/server/result_stream.py:46-162 | the output is the filter of all entries whatever the batching; it times out exactly when no terminal chunk of the current attempt arrived; the stream is deleted once |
| ResultStream.DrainIsAudio | src/server/result_stream.py:188-208 | what the drain collects is the audio of the terminal chunk's attempt, first copy of each sequence number, in order |
| ResultStream.CollectPcmUntilFinal | src/server/result_stream.py:165-208 | the returned body, count and error are those of the attempt that ended the stream |
| DeliverySafety.StepKeepsInv | src/worker/pipeline.py:264-797 | every step of every process keeps the protocol invariant |
| DeliverySafety.AtMostOnce | src/db/models.py:470-472 | in every run at most one usage row, one successful commit and one published final |
| DeliverySafety.CommitBeforeFinal | src/worker/pipeline.py:674-717 | a final was preceded by its own attempt's commit of an ok usage row and, while the row is visible, of complete with a URI; that commit was preceded by the archive |
| DeliverySafety.NoSilentLoss | src/worker/consumer.py:269-423 | every acknowledgement is backed by an earlier durable outcome that matches its reason; giving up needs a count that reached the retry budget |
| DeliveryEntries.WhatIsPublished | src/worker/pipeline.py:142-243 | in every run each published entry carries its operation's payload under the delivery count its handler read; an error carries the message, and the count read again when retries ran out |
| DeliveryEntries.ErrorReachesClientIff | src/server/result_stream.py:122-158 | a published error the reader has fetched ends the drain with its message if and only if no larger epoch and no believed terminal entry came before it |
| DeliverySafety.UsageTellsOutcome | src/worker/pipeline.py:218-243 | the usage row is ok exactly when its attempt committed, and an error row comes from a persisted failure |
| DeliverySafety.WorkerWritesVisible | src/repos/idempotency.py:157-182 | expired and missing rows are left alone; only a commit and a persisted failure write |
| DeliverySafety.PendingUntilAcked | src/worker/consumer.py:425-429 | only an acknowledgement removes an entry from the pending list |
| DeliverySafety.FinalAfterFailureIff | src/worker/pipeline.py:192-243 | after a persisted failure a final can still appear if and only if some attempt had already committed and not yet published it |
| DeliverySafety.NoCommitAfterFailure | src/worker/pipeline.py:218-243 | after a persisted failure no attempt ever commits, and the usage table is frozen |
| DeliverySafety.FailedIsAbsorbing | src/repos/idempotency.py:157-182 | the status failed lasts as long as the row |
| DeliveryAudio.StepKeepsStream | src/worker/pipeline.py:525-593 | every step keeps the correspondence between buffers, published chunks and archived bytes |
| DeliveryAudio.DeletesIff | src/server/result_stream.py:83-89 | an attempt's start, a reader's end and a client's leaving empty the stream, and nothing else deletes from it |
| DeliveryAudio.DrainEqualsBuffer | src/server/result_stream.py:183-208 | when the drain ends at an attempt's final, with nothing deleted since its own DEL and its epoch its own, the audio is that attempt's buffer, whatever older attempts left behind |
| DeliveryAudio.KeepsOwnPiecesIff | src/server/result_stream.py:183-208 | when the drain stops at an attempt's final, it keeps exactly that attempt's pieces if and only if all of them reached the reader and no other attempt's audio under the same epoch overtook its own |
| DeliveryAudio.EndToEndIff | src/worker/pipeline.py:304-627 | in every run, whatever was deleted and whoever else wrote: that condition is exact, and under it the returned bytes are the archived ones |
| DeliveryAudio.EndToEndAudio | src/worker/pipeline.py:304-627 | the condition holds, and the returned bytes are the archived ones, in every run where nobody deletes the stream between the finishing attempt's start and its final and its epoch is its own |
| DeliveryAudio.EpochIsDelivery | src/worker/consumer.py:308-321 | when counts are read before the next delivery, the epoch is the delivery number |
| DeliveryAudio.PromptCountsOwnEpochs | src/worker/consumer.py:431-442 | with one job entry and prompt counts every epoch belongs to one attempt |
| DeliveryLimits.FinalWithoutComplete | src/worker/pipeline.py:793-797 | a run ends with a published final and the status failed |
| DeliveryLimits.FailureBeforeFinal | src/worker/pipeline.py:192-243 | a run in which a failure is persisted while an attempt that committed has yet to publish its final |
| DeliveryLimits.CompleteLastsIff | src/worker/pipeline.py:44-46 | from the commit on, while the row lives, the status is complete if and only if no terminal failure has been persisted since |
| DeliveryOverwrites.OverwriteCanFollowIff | src/worker/consumer.py:444-478 | a committed status can still turn to failed if and only if some handler that has not returned can still come to persist a failure, or a decodable entry is pending or undelivered |
| DeliveryLimits.LateStartTruncates | src/worker/pipeline.py:300-304 | a run in which a later start makes the drain return less than was archived, with no error |
| DeliveryLimits.SharedEpochMixesAudio | src/worker/consumer.py:431-442 | a run in which two attempts share an epoch and the drain returns the other one's audio |
| DeliveryRetries.BoundedRetries | src/worker/consumer.py:444-478 | if counts and terminal writes succeed and no handler is abandoned, every entry is handled at most max_retries times (and the first time in any case) |
| Worker.EveryHandlerWalks | src/worker/consumer.py:269-423 | in every interleaved run each handler's own operations are one path of the worker from pick-up on, and lead it to where it stands |
| Worker.MoveIsProtocolStep | src/worker/pipeline.py:264-797 | one operation of the worker's path has the same result as the protocol's step |
| Worker.MillisTruncates | src/worker/pipeline.py:584-586 | integer milliseconds are the source's division and truncation in exact arithmetic |
| Worker.RowTimes | src/worker/pipeline.py:582-592 | each row's times are whole milliseconds at the chunk's own rate, or the engine's when it has none |
| Worker.AlignmentTiles | src/worker/pipeline.py:582-593 | for a constant rate and even-length chunks the rows are numbered from 0, start at 0, abut, never run backwards and end at the billed duration |
| Worker.PublishChunks | src/worker/pipeline.py:525-602 | goes on exactly when every chunk was published and the engine finished; the buffer is the chunks in order and the alignment is theirs |
| Worker.MarkTerminalFailure | src/worker/pipeline.py:192-243 | the error is published first and the failure persisted second; it raises unless both succeed |
| Worker.ArchiveCommitFinish | src/worker/pipeline.py:626-797 | returns exactly when archive (with a URI), commit and final all succeed, in that order |
| Worker.Resolving | src/worker/pipeline.py:311-451 | which of voice, mandatory watermark, reference and model stops the job, and how |
| Worker.ProcessOneJob | src/worker/pipeline.py:264-797 | each result if and only if a condition on the answers of DEL, lookups, publishes, engine, archive, commit, final and failure writes; and the protocol path taken |
| Worker.WorkerConsumer.MaybeDlqAndAck | src/worker/consumer.py:444-478 | gives up exactly at the budget and when failure writes, DLQ copy and acknowledgement succeed, in this order; escapes exactly when one of them fails |
| Worker.SucceedsIff | src/worker/consumer.py:422-423 | an entry counts as a success if and only if its payload decodes, its audio was archived, committed and finished, and the acknowledgement returned |
| Worker.FailsIff | src/worker/consumer.py:334-420 | the poison, transient and unexpected outcomes and the counted DLQ copies, each if and only if a condition on the answers |
| Worker.WorkerConsumer.HandleOne | src/worker/consumer.py:269-423 | the answers decide the outcome as stated there; the operations are a complete protocol path and the counters record the outcome |
| Worker.WorkerConsumer.FinishPoison | src/worker/consumer.py:334-366 | a poison job is acknowledged even when its DLQ copy failed, and dlqed counts the copies that succeeded |
| Worker.WorkerConsumer.DrainMalformed | src/worker/consumer.py:274-292 | a malformed payload is copied to the DLQ before it is acknowledged |
| Worker.WorkerConsumer.Tick | src/worker/consumer.py:235-267 | at most one entry per tick with that outcome; exactly one outcome counter moves per handled entry, and the in-flight gauge is restored |
| Worker.WorkerConsumer.XautoclaimSweep | src/worker/consumer.py:539-564 | a sweep counts and handles at most one claimed entry, along a complete protocol path |
| Idempotency.RawErrorIffLeftover | src/repos/idempotency.py:83-138 | an undisturbed call raises the raw integrity error if and only if an expired or foreign row holds the key |
| Idempotency.RawErrorNeedsThreeChanges | src/repos/idempotency.py:112-138 | without hidden rows the raw error needs the key to be taken, freed and taken again during the call |
| Idempotency.Table.Get | src/repos/idempotency.py:52-61 | a row is returned exactly when it is the tenant's and unexpired |
| Idempotency.Table.Reserve | src/repos/idempotency.py:63-81 | insertion succeeds exactly when the primary key is free, hidden rows included |
| Idempotency.Table.ReserveOrGet | src/repos/idempotency.py:83-138 | under arbitrary interference: New means the key was free at the insert and only that row was added; Replay and Conflict show the visible row, told apart by the body hash, and write nothing; a raw error means the key was taken and invisible both times; a row visible at the start is never replaced |
| Idempotency.Table.ReserveThenAgain | src/repos/idempotency.py:83-138 | a second request with the key replays the first one's row when the body is the same and conflicts otherwise |
| Idempotency.Table.Complete | src/repos/idempotency.py:157-175 | completes a visible row, keeps its URI and alignment when none is given, and touches nothing else |
| Idempotency.Table.Fail | src/repos/idempotency.py:177-182 | fails a visible row whatever its status |
| Idempotency.Table.ReserveFailReserve | src/server/main.py:1366-1373 | a failed submission frees the key for the same request |
| ReserveRace.OneWinnerPerLifetime | src/repos/idempotency.py:83-138 | over all interleavings exactly one caller is told it reserved, per row lifetime; replays carry the caller's body hash and conflicts a different one |
| ReserveRace.RowLasts | src/repos/idempotency.py:112-138 | a row that nobody removes stays and shuts out every other insert |
| ReserveRace.SecondWinnerNeedsRemoval | src/repos/idempotency.py:112-138 | over all interleavings two reservations of one key need a removal strictly between their commits |
| ReserveRace.OneReservation | src/repos/idempotency.py:83-138 | in a run that removes no row at most one caller is told New, every other answer is about that row, and only that caller's synchronous or streaming handler submits |
| ReserveRace.AtMostOneSubmit | src/server/main.py:1320-1373 | the synchronous and streaming handlers submit at most once per reservation, only the winner does, and a second submission needs a removal |
| ReserveRace.SubmittedBodyMatches | src/server/main.py:1509-1551 | every submission belongs to a reservation of the submitter's own body |
| ReserveRace.AsyncSubmitsTwice | src/server/main.py:2051-2085 | a run in which two asynchronous callers submit two jobs for one reservation |
| ReserveRace.SubmitsTwiceIff | src/server/main.py:2051-2085 | for given requests some run submits twice for one reservation if and only if an asynchronous one shares its body with another request |
| ReserveRace.RaceFollowsTable | src/repos/idempotency.py:83-138 | a racing caller is answered, or allowed to insert, as the table's own outcome says for the tables it meets |
| RateLimit.Bucket.Check | src/server/rate_limit.py:55-81 | for any member: verdict, count and hint are those of the admissions that still stand, a repeated live member is moved; as long as none is repeated they are those of the full admission log, although the set is trimmed and may expire |
| RateLimit.WindowBound | src/server/rate_limit.py:67-81 | in every run with a non-decreasing clock every half-open window holds at most limit admissions |
| RateLimit.RepeatsHarmlessIff | src/server/rate_limit.py:78 | with members the callers repeat at will, every window still holds at most limit admissions if and only if the limit is 1 |
| RateLimit.RetryHintExact | src/server/rate_limit.py:70-76 | absent other calls a denied caller stays denied before now plus the hint and is admitted from then on |
| RateLimit.RetryAfterSuffices | src/server/auth.py:253 | the Retry-After seconds are always enough |
| RateLimit.RetryAfterSeconds | src/server/auth.py:269 | the header is the hint rounded up to the next whole second, never less than one |
| Numbers.DecodeWords | src/frontend/lang_packs/tr/numbers.py:15-63 | a decoder over the emitted words recovers every n with abs(n) below 10^15 |
| Numbers.NumberCanonical | src/frontend/lang_packs/tr/numbers.py:15-63 | the canonical form of every number: hundreds, tens, ones, scale; never "bir yüz"; "bir bin" only behind a ten or a hundred; no bare scale above "bin" |
| Numbers.DocumentedExample | src/frontend/lang_packs/tr/numbers.py:39-40 | the words of 1234567 |
| Numbers.SpokenExamples | src/frontend/lang_packs/tr/numbers.py:21-59 | "sıfır", "yüz" and "bin" |
| Numbers.VerbalisationInjective | src/frontend/lang_packs/tr/numbers.py:34-63 | two integers with the same text are equal |
| Numbers.DecimalInjective | src/frontend/lang_packs/tr/numbers.py:66-78 | sign, whole part and every fraction digit can be read back from the text |
| Numbers.BelowThousandText | src/frontend/lang_packs/tr/numbers.py:15-31 | the group text spells the group's words |
| Numbers.NumberToTurkish | src/frontend/lang_packs/tr/numbers.py:34-63 | the text is the rendering of the decodable words; an error exactly from 10^15 on |
| Segment.ProtectRestores | src/frontend/lang_packs/tr/segment.py:54-79 | masking changes periods only, and restoring undoes it on every text without U+0001 |
| Segment.TitlesDoNotSplit | src/frontend/lang_packs/tr/segment.py:48-51 | in the pass over titles, no matched title's period ends a sentence |
| Segment.TitleProtected | src/frontend/lang_packs/tr/segment.py:54-75 | after all passes the period of every title is masked |
| Segment.MultiProtected | src/frontend/lang_packs/tr/segment.py:59-69 | after all passes every period of a multi-period abbreviation is masked, the optional last one included |
| Segment.AbbreviationsDoNotSplit | src/frontend/lang_packs/tr/segment.py:54-75 | the protected text is not cut after an abbreviation of either kind |
| Segment.MaskedIff | src/frontend/lang_packs/tr/segment.py:54-75 | a period is masked if and only if it belongs to a title or to a multi-period abbreviation |
| Segment.SplitConserves | src/frontend/lang_packs/tr/segment.py:13-16 | splitting drops whitespace only |
| Segment.SplitAtCuts | src/frontend/lang_packs/tr/segment.py:13-16 | a text is cut at every declared separator and nowhere else: it is the pieces interleaved, in order, with exactly those whitespace runs |
| Segment.SeparatorIff | src/frontend/lang_packs/tr/segment.py:13-16 | what a separator is, character by character, for sentences and for clauses |
| Segment.SplitCutsAll | src/frontend/lang_packs/tr/segment.py:13-16 | there is one piece more than there are declared separators |
| Segment.MergeKeeps | src/frontend/lang_packs/tr/segment.py:82-97 | merging conserves the text; chunks are trimmed and have 12 characters unless there is only one |
| Segment.MergingIsMinimal | src/frontend/lang_packs/tr/segment.py:82-97 | merged chunks are consecutive groups of segments, joined, each no longer than it takes to reach 12 characters |
| Segment.MergeLeavesLong | src/frontend/lang_packs/tr/segment.py:82-97 | segments that are long enough are left alone |
| Segment.MergeShort | src/frontend/lang_packs/tr/segment.py:82-97 | the loop computes the merge those lemmas are about |
| Segment.SplitLongKeeps | src/frontend/lang_packs/tr/segment.py:100-122 | breaking conserves the text, and with a clause boundary a chunk above 240 is a single unbreakable clause |
| Segment.HardCut | src/frontend/lang_packs/tr/segment.py:104-110 | a segment above 240 without clause boundary is cut at the last blank before 40 past its middle, or left whole when that blank comes before 12 |
| Segment.HardCutBalanced | src/frontend/lang_packs/tr/segment.py:104-110 | with a blank within 40 of the middle both pieces have at most half its length plus 40 |
| Segment.PackingIsGreedy | src/frontend/lang_packs/tr/segment.py:111-122 | for every list of clauses the chunks are consecutive groups of clauses, joined, and none had room for the first clause of the next |
| Segment.PackTwo | src/frontend/lang_packs/tr/segment.py:113-119 | two clauses stay apart exactly when they do not fit together |
| Segment.SplitLong | src/frontend/lang_packs/tr/segment.py:100-122 | the code computes the breaking those lemmas are about |
| Segment.ShortStays | src/frontend/lang_packs/tr/segment.py:101-102 | a segment of at most 240 characters is left whole |
| Segment.SegmentationConserves | src/frontend/lang_packs/tr/segment.py:125-145 | for every text without U+0001 the visible characters of the chunks are those of the text in order; every chunk is non-empty and trimmed; the minimum holds when no merged segment exceeds 240 |
| Segment.MinimumIff | src/frontend/lang_packs/tr/segment.py:125-145 | every chunk of a text has the documented 12 characters if and only if each merged segment has them and each one above 240 breaks without a short piece, decided by lengths and whitespace |
| Segment.ShortChunkFromText | src/frontend/lang_packs/tr/segment.py:125-145 | a text whose segmentation has a chunk of one character |
| Segment.SegmentSentences | src/frontend/lang_packs/tr/segment.py:125-145 | the code returns those chunks |
| Segment.SentencesOf | src/frontend/lang_packs/tr/segment.py:125-145 | the chunks come from the protected text cut at exactly the sentence separators, merged, broken and restored |
| Segment.ShortTailAfterSplit | src/frontend/lang_packs/tr/segment.py:100-122 | a segment whose breaking leaves a chunk of one character |
| Segment.PackingKeepsMinimumIff | src/frontend/lang_packs/tr/segment.py:111-122 | comma packing keeps the 12-character minimum if and only if packing the clause lengths alone yields no length below 12 |
| Segment.HardSplitKeepsMinimumIff | src/frontend/lang_packs/tr/segment.py:104-110 | the cut near the middle keeps the minimum if and only if there is no cut or enough visible text on both sides |
| Segment.HardSplitKeepsMinimum | src/frontend/lang_packs/tr/segment.py:104-110 | in particular for a text without adjacent whitespace |
| Segment.LongClausesStayLong | src/frontend/lang_packs/tr/segment.py:111-121 | comma packing keeps the minimum when every clause has it |
| WsBuffer.SplitAtLastBoundary | src/server/ws.py:147-158 | the scan finds the last sentence end |
| WsBuffer.SentenceEndIff | src/server/ws.py:116 | what ends a sentence, character by character |
| WsBuffer.BoundaryIsLast | src/server/ws.py:147-158 | a boundary segment ends with its terminator and the remainder holds no sentence end |
| WsBuffer.DecideConserves | src/server/ws.py:602-632 | every flush branch conserves the visible text and shrinks a buffer at the ceiling |
| WsBuffer.UnforcedFlush | src/server/ws.py:613-632 | the two reasons for an unforced flush, the ceiling's bound, and when a word may be cut |
| WsBuffer.Connection.Accumulate | src/server/ws.py:588-600 | overflow drops exactly the buffer and rejects the text; otherwise the text is appended |
| WsBuffer.Connection.Receive | src/server/ws.py:550-650 | one message's effect on buffer, sent segments and accepted text: overflow, forced flush, long enough sentence, ceiling, or nothing yet; the buffer never exceeds 20000 |
| WsBuffer.AllSentIff | src/server/ws.py:588-668 | everything accepted was sent if and only if every dropped buffer was blank |
| WsBuffer.Session | src/server/ws.py:550-668 | over every message sequence without overflow the visible characters of the sent segments are those of the text, in order; a client that disconnects leaves exactly the buffered text unsent; segments are non-empty and trimmed |
| AdapterCache.RecentOrdered | src/worker/engine.py:325-329 | the reference list is strictly ordered by last successful use |
| AdapterCache.RecentComplete | src/worker/engine.py:325-329 | it holds exactly the keys ever used, with the model of their last use |
| AdapterCache.RecentIsLoaded | src/worker/engine.py:325-339 | that model is the one loaded last for the key |
| AdapterCache.HitKeeps | src/worker/engine.py:325-352 | a hit returns the model loaded last and keeps the cache the most recently used part of the history |
| AdapterCache.LoadKeeps | src/worker/engine.py:362-399 | so does a miss that loads, evicting only when full |
| AdapterCache.RoomKeeps | src/worker/engine.py:362-380 | so does a load that fails after the eviction |
| AdapterCache.Engine.ModelForAdapter | src/worker/engine.py:302-425 | the result, the last-used position and the eviction count of every request; the size bound; loads minus evictions is the size |
| DiskCache.ByTimeIsChronological | src/storage/r2.py:280 | the eviction order is oldest first |
| DiskCache.ByTimeIsStable | src/storage/r2.py:280 | and a stable rearrangement of the listing |
| DiskCache.EvictionBounds | src/storage/r2.py:255-298 | afterwards the total is within the limit or only the protected file is left, and the protected file survives |
| DiskCache.ShortestUnique | src/storage/r2.py:280-291 | only one prefix is the shortest sufficient one |
| DiskCache.Cache.List | src/storage/r2.py:267-276 | the listing and its total, partial downloads ignored |
| DiskCache.UncachedSurvives | src/storage/r2.py:268-269 | partial downloads and directories survive every eviction |
| DiskCache.UncachedIrrelevant | src/storage/r2.py:268-269 | and their sizes and ages change nothing |
| DiskCache.Cache.EnforceLimit | src/storage/r2.py:255-298 | the files tried are the shortest sufficient oldest-first prefix, protected skipped; nothing happens within a positive limit or without one; uncached entries survive |
| Wire.Base64RoundTrip | src/server/queue.py:163-167 | padded Base64 round-trips every byte string |
| Wire.Base64Vectors | src/server/queue.py:163-167 | the test vectors of section 10 of RFC 4648 |
| Wire.Base64Length | src/server/queue.py:163-167 | in whole quads |
| Wire.IntRoundTrip | src/server/queue.py:165-166 | decimal text round-trips every integer and is never empty |
| Wire.RoundTrip | src/server/queue.py:159-207 | decode undoes encode on every chunk, empty optional fields included |
| Wire.WithoutAttempt | src/server/queue.py:191-193 | a chunk without an attempt field reads as attempt 0 and is otherwise intact |
| Wire.WithoutFields | src/server/queue.py:188-207 | what a message without fields reads as |
| Wire.EncodeInjective | src/server/queue.py:159-175 | two different chunks never look alike on the wire |
| Wire.Encode | src/server/queue.py:159-175 | the fields written, an optional field exactly when it is set |

## Left out

- AdapterCache.Engine.constructor: a size below 1 is an exception in the source and a precondition here.
- Wire.RoundTrip: fields are keyed by name only, not by bytes or string; decoding of text that encode never writes (non-canonical Base64, integers with blanks or underscores) differs from Python's.
- Numbers.DecimalInjective: parsing of the input string is left out; the words start from sign, whole part and digits.
- ResultStream.CollectPcmUntilFinal: the generator's laziness, and a client that disconnects mid-stream, are not modelled there; a reader that leaves is the `Quit` step of the protocol.
- Worker.AlignmentTiles: binary rounding of the source's float division; `MillisTruncates` ties the integer arithmetic to exact division.
- Worker.PublishChunks: the same rounding.
- Worker.WorkerConsumer.Tick: the run loop around ticks and sweeps.
- Segment.TitlesDoNotSplit: one pass only; `AbbreviationsDoNotSplit` is about all of them. Which characters are word characters is a parameter.
- RateLimit.Bucket.Check: the window is fixed per bucket; script caching and the EVAL fallback are not modelled.
- WsBuffer.Session: `_flush_segment` is taken to deliver what it is given.
- AdapterCache.Engine.ModelForAdapter: two threads racing on the unlocked fast path, GPU memory and metrics.
- MAXLEN trimming of the job stream, and Redis ids that repeat or run backwards.
- SQL and Redis internals: a transaction commits atomically and a unique key rejects duplicates.
- Cross-tenant clients that share a request id in the delivery protocol: one request is one row there.
- The rest of the asynchronous job handler (status replay, listing), and the queue-depth check.
- Engine inference, watermarking, loudness, encoders, authentication, consent, deletion, evaluation and migrations: foreign or reporting code with no effect on these properties.
- Text normalisation before segmentation: table substitutions.
