# Verified model of the transcription and breakdown pipeline

The system turns online videos into transcripts and explains their sentences. A fetch worker
downloads audio and uploads it in chunks; a recognition worker detects speech, sends the speech
in a few stitched buffers to a recogniser and maps the recognised words back to the recording;
the words are split into sentences, and batches of sentences are explained by a language model.
Two database queues drive the workers.

The project proves, in this order of weight:

- **Audio-time round trip** (`AudioPieces`, `SpeechPadding`, `Packing`, `VadSegment`,
  `VadRestore`, `Partition`, `LowMemVad`, `ElevenTranscriber`, `SentAudio`, `TranscriptRows`). A restored word
  points at exactly the audio that was sent for it, through chunked detection, padding, packing
  with a reused buffer, partitioning, stitching, restoring and the second repair pass; and no
  detected speech is missing from what is sent.
- **Job queue** (`JobQueue`, `JobPipeline`, `JobLeases`, `JobQuota`, `JobAdmission`,
  `JobEnds`, `VideoProcess`, `JobStore`, `JobServices`, `JobExamples`) and **batch queue** (`BatchQueue`,
  `BatchStore`, `BatchExamples`). Each statement or
  transaction is one atomic step on the tables; services that issue several queries are several
  steps. `Next` relates two system states, and the theorems hold for every run of it: consistency
  of the pipeline, lease safety, short lives of jobs and which of them can still end, the quota,
  the bounds on both queues, and coverage of done batches. The `Store` classes are the same tables as
  mutable state; their
  methods refine the same functions.
- **LCS alignment** (`LcsAlign`): the table and the trace-back are optimal.
- **Streamed against batch arrangement** (`Breakdowns`): two independent implementations agree.
- **Word groupers** (`Runs`, `Sentences`, `Subtitles`): greedy splits are minimal.
- **Chunked transfer** (`Transfer`): an accepted transfer is the file.

`Wrappers`, `Sets` and `Constants` hold helpers. Code that works by changing things step by step
is a class or a method with loops, proved against a specification function; the properties are
lemmas about those functions. Seconds are whole milliseconds, except in `LowMemVad`, where they
are exact reals. Times of words are 32-bit and wrap around as in the service.

What the code does differently from what is said about it:

- A comment in internal/llm/bb_runner.go:293 calls the runner's test the same condition as the
  one in `arrangeAndConvert`. It is stricter: the arrangement also counts empty items that come
  before any sentence for their position. `Breakdowns.AcceptanceAgreesExactly` gives the exact
  difference, `Breakdowns.EmptySentencesFoolTheArrangement` an example.
- db/queries/breakdown_batches.sql:2-4 says that asking again after a failure retries a batch.
  That is so exactly while none of its sentences has a breakdown and there is room
  (`BatchStore.FailedIsRetriedExactly`); `BatchExamples.FailedBatchIsNotRetried` is an example.
- The daily quota of recognition seconds is checked before a lease and charged after the work, so
  it can be exceeded: by one longest video per recognition worker less one second and no more
  (`JobQuota.QuotaIsNearlyKept`), which any number of workers can reach
  (`JobExamples.QuotaBoundIsReached`).
- A job in its last attempt whose worker gives up can never end; every other job can, given a
  worker of its type (`JobEnds.EndsExactlyUnlessAbandoned`, `JobExamples.AbandonmentIsReachable`).
- The lease check reads the owner of the row without looking whether it is NULL, which it is
  exactly for pending and failed jobs (`JobStore.LeaseCheckIsSafeExactly`); a recognition worker
  that asks for the audio after its lease has expired can meet one (`JobExamples.OwnerMayBeNull`).
- The server trusts the video id of a fetch report; a wrong one always breaks the tables
  (`JobPipeline.MismatchedReportBreaksExactly`, `JobExamples.MismatchedReportBreaks`).
- A negative declared length passes the checks of an upload and stops the handler afterwards,
  exactly when it comes first and the other fields are valid (`Transfer.NegativeLengthStopsExactly`,
  `Transfer.NegativeLengthStops`).
- Audio below 1024 bytes is stored by the server but refused by the recognition worker
  (`Transfer.Relay`).

## Model

| member | source | states |
|---|---|---|
| `AudioPieces.RangesTile` | internal/vad/join.go:3-21 | the joined ranges follow one another without gap or overlap: each begins where the audio before it ends, and the last ends with the buffer |
| `AudioPieces.RangeOfFrame` | internal/vad/join.go:3-21 | every frame of the stitched buffer lies in some joined range |
| `AudioPieces.CopyStartsGrow` | internal/vad/join.go:3-21 | copy positions grow by at least the length of the range, so no frame lies in two ranges |
| `AudioPieces.CopyBehindReal` | internal/vad/segment.go:60-69 | a copy position is never ahead of the recording position it was copied from |
| `AudioPieces.CopyIsWholeMillis` | internal/vad/segment.go:60-69 | copy positions are whole milliseconds, since only the very last bound of a recording may not be |
| `AudioPieces.FrameFaithful` | internal/eleven/transcriber.go:473-486 | frame f of a stitched buffer is frame f + realStart - copyStart of the recording, for the range that contains f, and the buffer is exactly as long as its ranges |
| `SpeechPadding.PaddedRanges` | internal/vad/segment.go:172-257 | for sorted segments, including skipped ones, the padded ranges are non-empty, increasing, disjoint and inside the recording; each holds its clipped speech and at most the padding per side; all bounds but a final clipped one are whole milliseconds |
| `SpeechPadding.PiecesOfKept` | internal/vad/segment.go:175-205 | exactly the segments that start inside the recording and are not empty give a range, in order, with their own bounds |
| `SpeechPadding.PaddingIsExact` | internal/vad/segment.go:207-244 | every segment in range begins exactly the padding earlier, at the recording's start or with the larger half of a short gap to the last segment before, and ends exactly the padding later, with the smaller half of a short gap to the next segment, or at the end of the recording |
| `SpeechPadding.NeighboursShareGap` | internal/vad/segment.go:207-244 | the pieces of close neighbours meet inside their gap, the first taking the smaller half; other neighbours each take the whole padding |
| `SpeechPadding.TakePiece` | internal/vad/segment.go:207-244 | what one segment takes never reaches back into what is taken already, and leaves the next segment its half of the gap |
| `Packing.PackCutsExactly` | internal/vad/segment.go:96-135 | the fragments hold the accepted ranges in order, and a cut falls between two ranges exactly when the fragment was full or the gap too long |
| `Packing.CutsAreUnique` | internal/vad/segment.go:102-122 | that description has only one solution: any two cuttings that fit it are equal |
| `VadSegment.Fragment.CloneOf` | internal/vad/segment.go:71-77 | a finished fragment has buffers of its own with the same bytes and ranges |
| `VadSegment.Fragment.Reset` | internal/vad/segment.go:43-46 | the working fragment becomes empty but keeps its buffers |
| `VadSegment.Fragment.AppendSegment` | internal/vad/segment.go:60-69 | bytes are appended, and the new range records the frame count before them as its copy position |
| `VadSegment.Collector.Finalize` | internal/vad/segment.go:96-100 | the open group becomes the last finished one, earlier fragments stay the same objects, and their contents never change when the working buffer is reused |
| `VadSegment.Collector.FinalizeIfGap` | internal/vad/segment.go:109-115 | finalises exactly when there is content and the gap to the next speech is at least the limit |
| `VadSegment.Collector.FinalizeIfMaxFrames` | internal/vad/segment.go:102-107 | finalises exactly when the fragment has reached the frame limit |
| `VadSegment.Collector.FinalizeIfPresent` | internal/vad/segment.go:117-122 | leaves nothing open |
| `VadSegment.Collector.AppendSegment` | internal/vad/segment.go:124-135 | adds one piece to the groups held, after closing for a gap and before closing for length |
| `VadSegment.SegmentAudioByTimestampRanges` | internal/vad/segment.go:150-262 | fails exactly for a byte count that is not a whole number of frames; otherwise each fragment holds the audio, ranges and speech end of its group of padded pieces |
| `VadSegment.FragmentsInMillis` | internal/vad/segment.go:150-169 | inside a fragment speech gaps and the audio before its last piece stay below the two limits, given in milliseconds; between two fragments one of the limits is reached |
| `VadRestore.RepairInPlace` | internal/vad/restore.go:126-150 | the second pass over the results, which overwrites guessed starts and ends in place |
| `VadRestore.RestoreWordTimestamps` | internal/vad/restore.go:16-153 | the cursor loop, the four-way fit and the repair pass together compute the specified restoration, wrap-around included |
| `VadRestore.TimesWrapAround` | internal/vad/restore.go:31-69 | conversions keep the low 32 bits of the product, and of a frame the millisecond it lies in |
| `VadRestore.FitMeans` | internal/vad/restore.go:44-122 | any word is placed exactly if it begins or ends in the range; what lies in the range is shifted with it, a bound outside becomes the bound of the range, and that is recorded |
| `VadRestore.RepairMeans` | internal/vad/restore.go:124-152 | for any words the second pass moves a guessed start up to the repaired end before it and a guessed end back to the unrepaired start after it, and changes nothing else |
| `VadRestore.AdvanceIsHome` | internal/vad/restore.go:28-46 | wherever the cursor stands, it moves to the last range that has begun |
| `VadRestore.HomeContains` | internal/vad/restore.go:28-46 | the range found for a frame contains it exactly when the frame lies before the stitched end |
| `VadRestore.FitLiftsRange` | internal/vad/restore.go:48-124 | a word that starts inside a range is moved by realStart - copyStart, in whole milliseconds, and ends inside the range |
| `VadRestore.PlaceAllLifts` | internal/vad/restore.go:28-124 | exactly the words that start inside the stitched buffer are placed, each through its own range |
| `VadRestore.RepairMovesEndsOnly` | internal/vad/restore.go:126-150 | when no start was guessed and starts are sorted, the repair pass changes ends only, each by its right neighbour alone |
| `VadRestore.RestoreIsFaithful` | internal/vad/restore.go:16-153 | exactly the words starting at or after the stitched end are dropped; each kept word keeps text, speaker and confidence, starts exactly realStart - copyStart later, lies in one range, ends no earlier than it starts, and the starts stay sorted |
| `Partition.PartsPartition` | internal/eleven/partition.go:10-43 | the parts concatenate to the fragments and none is empty |
| `Partition.PartsGood` | internal/eleven/partition.go:10-43 | every part but the last has at least the target, and no part reaches the target before its last fragment |
| `Partition.FullPartsSum` | internal/eleven/partition.go:10-43 | all parts but the last together take at least their number times the target |
| `Partition.TargetIsLeast` | internal/eleven/transcriber.go:488-508 | the target is the least length of at least seven minutes that shares everything among ten parts, rounded down |
| `Partition.PartLimit` | internal/eleven/transcriber.go:488-508 | for any lengths: with the computed target there are at most eleven parts, and at most ten when the last part has at least ten frames |
| `LowMemVad.FinalizeSegmentSlice` | internal/eleven/transcriber.go:283-293 | a last segment without an end gets the end of its chunk, in place |
| `LowMemVad.ChunkIsSpoken` | internal/eleven/transcriber.go:283-312 | what the code takes from an answer is what the answer says: every segment shifted by its chunk, a last one without an end lasting as long as the chunk |
| `LowMemVad.AdjustSegmentValues` | internal/eleven/transcriber.go:295-322 | shifts every segment in place, or fails exactly when one ends beyond the chunk |
| `LowMemVad.ConcatSegments` | internal/eleven/transcriber.go:324-367 | body, seam and tail as specified, with the neighbours merged into the seam exactly when they are close to it |
| `LowMemVad.ConcatSorted` | internal/eleven/transcriber.go:324-367 | joining keeps segments sorted, disjoint and within the processed range |
| `LowMemVad.ConcatCovers` | internal/eleven/transcriber.go:324-367 | every segment of body and tail is covered by one joined segment |
| `LowMemVad.ConcatCoversSeam` | internal/eleven/transcriber.go:341-366 | with speech on both sides of a boundary the silence between them is covered as far as it lies within the radius |
| `LowMemVad.ConcatAddsNearSeam` | internal/eleven/transcriber.go:324-367 | time that is in the result but in neither input lies within the seam radius plus eps of the boundary |
| `LowMemVad.ApplyVadLowMem` | internal/eleven/transcriber.go:369-442 | the loop over chunks computes the specified joining, with its two failures and its early end at a short chunk |
| `LowMemVad.JoinedSucceedsExactly` | internal/eleven/transcriber.go:369-442 | detection succeeds exactly if the detector answers for every chunk and no segment it gives ends beyond its chunk |
| `LowMemVad.FirstFailureIsReported` | internal/eleven/transcriber.go:369-442 | otherwise the first chunk that fails gives the error, a failed detection or a segment out of range |
| `LowMemVad.LowMemoryVad` | internal/eleven/transcriber.go:369-442 | for any detector that stays in its chunks the joined segments are sorted, disjoint, inside the recording, cover everything detected, and add time only near the boundaries between two chunks |
| `LowMemVad.EveryChunkIsCovered` | internal/eleven/transcriber.go:369-442 | for every chunk all segments of the detector's raw answer are covered, an open last one up to the end of the chunk; if there was speech before, so is the silence near the boundary before the first of them |
| `LowMemVad.RoundMillisIsNearest` | internal/vad/segment.go:137-139 | the nearest whole millisecond, halves away from zero |
| `LowMemVad.RoundedIsSorted` | internal/vad/segment.go:137-139 | rounding sorted seconds to milliseconds keeps them sorted |
| `ElevenTranscriber.JoinRanges` | internal/vad/join.go:3-21 | rebased over all fragments, the ranges are those of one buffer made of all their pieces |
| `ElevenTranscriber.Stitch` | internal/eleven/transcriber.go:473-486 | the stitched bytes are the audio of all pieces in order; fails exactly when there are none |
| `ElevenTranscriber.PartitionFragments` | internal/eleven/partition.go:10-43 | the loop cuts the list of fragments into the specified parts |
| `ElevenTranscriber.PartitionByTarget` | internal/eleven/transcriber.go:488-508 | the target is the larger of seven minutes and a tenth of the content, and empty content is an error |
| `ElevenTranscriber.ConcatWords` | internal/eleven/transcriber.go:510-543 | the words of the parts in order of the parts |
| `ElevenTranscriber.ParallelRequest` | internal/eleven/transcriber.go:545-598 | succeeds exactly when every part is recognised, and returns the restored words of the parts in order |
| `ElevenTranscriber.WordPointsAtSentAudio` | internal/eleven/transcriber.go:545-598 | every recording frame between the times of a restored word is the frame the recogniser was sent at the word's own time |
| `ElevenTranscriber.CrossPartOrder` | internal/eleven/transcriber.go:510-598 | words of a later part start after those of an earlier part |
| `ElevenTranscriber.TranscriptRoundTrip` | internal/eleven/transcriber.go:545-710 | over the whole chain: the parts hold every padded piece once, restored words are globally sorted by start, exactly the words starting inside a part are kept, and each points at exactly the audio that was sent |
| `ElevenTranscriber.DetectionIsSorted` | internal/eleven/transcriber.go:369-442 | a detector that finds sorted speech inside each chunk gives the sorted segments that segmentation needs |
| `ElevenTranscriber.SomethingKept` | internal/eleven/transcriber.go:640-660 | there is content to send exactly when some segment starts inside the recording |
| `SentAudio.SentPartsAreFew` | internal/eleven/transcriber.go:488-508 | for the parts that are sent of any recording: at most eleven, and at most ten when the last part has at least ten frames |
| `SentAudio.DetectedSpeechIsSent` | internal/eleven/transcriber.go:633-708 | every segment of the detector's raw answer for any chunk, unless empty in milliseconds, lies up to half a millisecond in one piece of one part that is sent |
| `SentAudio.OneMillisecondIsKept` | internal/vad/segment.go:175-205 | a stretch of at least one millisecond inside the recording is never dropped as empty |
| `ElevenTranscriber.KazakhCountMeans` | internal/eleven/transcriber.go:674-690 | the count is known exactly when no sample fails, and zero exactly when no sample is Kazakh |
| `ElevenTranscriber.CountKazakh` | internal/eleven/transcriber.go:674-690 | the loop over the samples counts the Kazakh ones and stops at the first failure |
| `ElevenTranscriber.IdentifyLanguage` | internal/eleven/transcriber.go:667-690 | samples are chosen from exactly the audio of the fragments; failed sampling, a failed sample and no Kazakh sample each have their error |
| `ElevenTranscriber.TranscribeSegments` | internal/eleven/transcriber.go:632-710 | no speech gives no words; otherwise words exactly if there is content, some sample is Kazakh and every part is recognised, each failure with its reason |
| `ElevenTranscriber.WhyNoTranscript` | internal/eleven/transcriber.go:632-710 | an odd length, no speech in range, failed sampling, a sample that cannot be classified, no Kazakh sample and an unrecognised part give their errors, looked for in this order; otherwise the words of all parts |
| `ElevenTranscriber.GoodSizeInBytes` | internal/eleven/transcriber.go:615-625 | sizes from two seconds to three hours at 32000 bytes a second |
| `ElevenTranscriber.Transcribe` | internal/eleven/transcriber.go:609-710 | the size checks and a failed detection come first, each with its error; then the result is that of the detected segments |
| `Sentences.TerminalMeans` | internal/sentences/segment.go:23-29 | a word is terminal exactly when, trailing noise removed, its last character is a full stop, exclamation mark, question mark or ellipsis |
| `Sentences.LastWordOfSentence` | internal/sentences/segment.go:45-56 | the inner loop finds the longest allowed sentence from a word |
| `Sentences.SegmentWordStream` | internal/sentences/segment.go:39-68 | the sentences are consecutive runs that cover all words, each allowed and none extensible |
| `Sentences.SentencesSayAllWords` | internal/sentences/segment.go:31-68 | every word is in one sentence, in order; a sentence has the start of its first word and the end of its last, and its text is its words with one space between neighbours |
| `Sentences.BreaksAreForced` | internal/sentences/segment.go:39-68 | inside a sentence one person speaks, nothing ends a sentence and there are at most forty words; a sentence before another one stops because its last word ends it, somebody else goes on, or it is full |
| `Runs.GreedyStaysAhead` | internal/sentences/segment.go:39-68 | after any number of runs the greedy split is at least as far as any allowed split |
| `Runs.GreedyIsMinimal` | internal/subtitles/group.go:57-81 | a greedy split under a rule that shorter runs inherit has the fewest runs |
| `Sentences.FewestSentences` | internal/sentences/segment.go:39-68 | no allowed split has fewer sentences |
| `Sentences.GreedySplitIsUnique` | internal/sentences/segment.go:39-68 | only one list of sentences is such a greedy split |
| `Sentences.SentencesPassChecks` | internal/api/sentence_manager.go:71-85 | a sentence of any allowed split of words in order of start, cut to signed times, passes both checks of its table unless its end alone is from 2^31 milliseconds on |
| `TranscriptRows.RestoredWordsHaveDurations` | internal/vad/restore.go:28-153 | restored words never end before they start, end below 2^31 milliseconds and stay sorted across parts |
| `TranscriptRows.TranscriptSentencesPassChecks` | db/migrations/009_create_sentences.sql:20-21 | every sentence built from a restored transcript passes both checks of its table and keeps its times |
| `Subtitles.Group` | internal/subtitles/group.go:57-81 | the groups are consecutive runs that cover all words, each within the word limit and without an inner pause over the limit, and none extensible |
| `Subtitles.GroupsShowAllWords` | internal/subtitles/group.go:32-81 | every word is shown once, in order, with its own text and times, and a group lasts from its first word to its last |
| `Subtitles.BreaksAreForced` | internal/subtitles/group.go:57-81 | inside a group pauses are within the limit and one person speaks; a group before another one stops because of a longer pause, another speaker, or the word limit |
| `Subtitles.FewestGroups` | internal/subtitles/group.go:57-81 | no allowed grouping has fewer groups |
| `LcsAlign.LcsLengthIsUpperBound` | cmd/breakdown-eval/text.go:107-121 | no common subsequence is longer than the table entry |
| `LcsAlign.LongestWitness` | cmd/breakdown-eval/text.go:107-121 | some common subsequence is as long as the table entry |
| `LcsAlign.FillTable` | cmd/breakdown-eval/text.go:108-121 | the nested loops fill the table with the lengths for all pairs of suffixes |
| `LcsAlign.TraceBack` | cmd/breakdown-eval/text.go:122-136 | walking the filled table marks an optimal alignment and terminates |
| `LcsAlign.MarkedIsSubsequence` | cmd/breakdown-eval/text.go:122-136 | the marked elements in order are a subsequence |
| `LcsAlign.Align` | cmd/breakdown-eval/text.go:107-137 | the marked elements of both sides are the same sequence, a longest common subsequence, of the returned length; the trace-back terminates |
| `LcsAlign.SkippedAndExtraCounts` | cmd/breakdown-eval/checks.go:53-65 | skipped words are the input length less the matches, extra words the output length less the matches |
| `Transfer.ChunksCarryBlob` | internal/api/job_server.go:257-289 | the chunks contain every byte once, in order, none is empty or too large, and there are as few as possible |
| `Transfer.StreamAudio` | internal/fetch/fetch_worker.go:102-182 | sends the meta message and then exactly the chunks of the file, unless the file is too large |
| `Transfer.GetFetchedAudio` | internal/api/job_server.go:222-293 | sends the meta message and then exactly the chunks of the stored audio |
| `Transfer.CompleteFetch` | internal/api/job_server.go:118-219 | the receive loop gives the specified verdict and reason for every message sequence, a negative length included |
| `Transfer.UploadAcceptedExactly` | internal/api/job_server.go:118-219 | an upload is accepted exactly if, empty messages aside, one good meta message is followed by chunks with fitting offsets and right checksums that make up the declared length; then the audio is what they contain |
| `Transfer.RefusalIsTrue` | internal/api/job_server.go:170-215 | a message is refused exactly if it has one of the faults, and with a fault it has |
| `Transfer.ValidFilenameMeans` | internal/api/job_server.go:105-116 | a file name has more than three characters, does not begin with a dot, and has a dot before its last character |
| `Transfer.NegativeLengthStopsExactly` | internal/api/job_server.go:170-199 | the handler stops at a negative length exactly when the first message that is not empty declares one with positive ids and a valid file name |
| `Transfer.NegativeLengthStops` | internal/api/job_server.go:170-199 | a concrete upload of one message that stops the handler |
| `Transfer.BufferIsPrefix` | internal/api/job_server.go:188-215 | whatever genuine messages are dropped, repeated or reordered, the buffer is a prefix of the audio |
| `Transfer.AcceptedUploadIsBlob` | internal/api/job_server.go:133-165 | an accepted upload is the whole audio |
| `Transfer.UploadAccepted` | internal/api/job_server.go:168-215 | the sender's own sequence is accepted exactly for allowed sizes, ids and file names |
| `Transfer.ReceiveFetchedAudio` | internal/asr/asr_worker.go:104-222 | the worker's receive loop gives the specified verdict, reason and file for every message sequence; an accepted download is what the file holds |
| `Transfer.DownloadAcceptedExactly` | internal/asr/asr_worker.go:120-222 | a download is accepted exactly if a meta message with an allowed length is followed by chunks alone, with fitting offsets and right checksums, that make up this length |
| `Transfer.FileHoldsTakenChunks` | internal/asr/asr_worker.go:163-215 | for any messages the file grows by every chunk that follows with a right checksum, and by nothing after the first that does not or the first beyond the declared length |
| `Transfer.FileIsCreatedExactly` | internal/asr/asr_worker.go:120-162 | a file is created exactly for a meta message with an allowed length, and grows from nothing |
| `Transfer.FileIsPrefix` | internal/asr/asr_worker.go:163-215 | what the chunks leave in the file is a prefix of the audio, and what is accepted is all of it |
| `Transfer.FileIsAlwaysPrefix` | internal/asr/asr_worker.go:163-215 | after any number of genuine messages, refused or not, the file holds a prefix of the audio |
| `Transfer.AcceptedDownloadIsBlob` | internal/asr/asr_worker.go:163-215 | an accepted download is the whole audio |
| `Transfer.DownloadAccepted` | internal/asr/asr_worker.go:120-215 | the server's own sequence is accepted exactly for sizes from 1024 to 200000000 bytes |
| `Transfer.Relay` | internal/asr/asr_worker.go:104-222 | from file to file the bytes arrive unchanged; audio below 1024 bytes is stored by the server but never accepted by the recognition worker |
| `Breakdowns.ArrangeAndConvert` | internal/llm/llm.go:173-204 | the loop computes the arrangement and the vacancy count, and rejects exactly when more than half counts as vacant |
| `Breakdowns.BreakdownTable.Insert` | internal/llm/bb_runner.go:177-223 | a row that exists is kept, a new one is stored |
| `Breakdowns.Process` | internal/llm/bb_runner.go:225-317 | the callback stores first-come rows; tokens are charged even for a failed stream; success exactly when stream, arrangement and charge succeed and at least half of the batch was inserted |
| `Breakdowns.StreamAgreesWithArrangement` | internal/llm/stream.go:205-244 | with working inserts, streaming adds to any table exactly the non-empty positions of the arrangement that had no row, with the same content |
| `Breakdowns.StreamFromEmpty` | internal/llm/stream.go:205-244 | starting without rows, the stored rows are the arrangement |
| `Breakdowns.FailedInsertsDropOut` | internal/llm/bb_runner.go:177-245 | with any failing inserts, rows and counted positions are those of the items whose insert works |
| `Breakdowns.FirstSentenceWins` | internal/llm/llm.go:173-204 | a position holds the first item for it with a non-empty sentence |
| `Breakdowns.SpokenIsFilled` | internal/llm/llm.go:173-204 | a position is filled exactly when some item for it has a sentence |
| `Breakdowns.VacantCount` | internal/llm/llm.go:173-204 | the vacancy count is the batch size less the positions with some sentence, less the empty items that come before any sentence for their position |
| `Breakdowns.AcceptanceAgreesExactly` | internal/llm/bb_runner.go:292-314 | the runner's test implies the arrangement's; they agree unless the positions with a sentence are less than half of the batch and the early empty items make up for that |
| `Breakdowns.NoEmptySentenceNoHits` | internal/llm/bb_runner.go:292-314 | the two tests agree when no item of the batch has an empty sentence |
| `Breakdowns.EmptySentencesFoolTheArrangement` | internal/llm/llm.go:182-187 | a concrete answer without content that the arrangement accepts and the runner rejects |
| `Breakdowns.SuccessMeansHalfStored` | internal/llm/bb_runner.go:292-314 | whatever inserts fail, success means rows for at least half of the batch |
| `BatchQueue.BatchStart` | internal/llm/batch.go:19-25 | the batch of a sentence begins at a multiple of the batch size, and the sentence lies in it |
| `BatchQueue.BatchLenCounts` | internal/llm/batch.go:19-38 | the length of a batch is the number of its positions that have a sentence |
| `BatchQueue.NextKeepsSafe` | db/queries/breakdown_batches.sql:48-91 | every step of callers, runners, rebuilds and the clock keeps the tables consistent, and each runner's picture of its batch true while the row exists |
| `BatchQueue.RebuildKeeps` | internal/api/sentence_manager.go:60-101 | rebuilding sentences, with its two cascades, keeps that consistency |
| `BatchQueue.RebuildStartsAfresh` | db/migrations/009_create_sentences.sql:52-55 | after a rebuild the transcription has the new sentences, no breakdown in any language and no batch; everything of other transcriptions stays |
| `BatchQueue.RowsAreStoredSinceRebuild` | db/queries/sentences.sql:77-102 | in any run a breakdown is there exactly if a runner stored it after its sentences were last rebuilt |
| `BatchQueue.EachBatchMoves` | db/queries/breakdown_batches.sql:5-91 | what each step does to each batch, field by field: removed exactly by a rebuild, leased by a claim, done or failed exactly by the holder's mark, revived by an insert for its key, otherwise unchanged |
| `BatchQueue.NewBatchIsPending` | db/queries/breakdown_batches.sql:5-24 | a batch appears only for a waiting request whose key has none, pending, unlocked and with the time of the insert |
| `BatchQueue.OwnedOrClaimable` | db/queries/breakdown_batches.sql:48-63 | after a claim the batch is the claimer's alone, and it can be claimed again exactly after the expiry |
| `BatchQueue.BatchesArriveInOrder` | db/queries/breakdown_batches.sql:5-24 | batches are numbered in the order of their creation, in any run |
| `BatchQueue.EnqueueKeeps` | db/queries/breakdown_batches.sql:5-24 | inserting, joining or reviving a batch keeps it and adds at most one active batch |
| `BatchQueue.WorkCoversHalf` | internal/llm/bb_runner.go:292-314 | a runner that may mark its batch done has stored half of what the batch is at that moment |
| `BatchQueue.NextKeepsAdmitted` | internal/api/video_service.go:1130-1146 | active batches plus requests in the gap stay bounded at every step |
| `BatchQueue.RunIsSafe` | internal/llm/bb_runner.go:323-410 | both invariants hold in every state of every run |
| `BatchQueue.DoneBatchHasBreakdowns` | db/migrations/011_create_breakdown_batches.sql:29-32 | in every reachable state a done batch has its first sentence and breakdowns for at least half of its sentences |
| `BatchQueue.ActiveBatchesBounded` | internal/api/video_service.go:1130-1146 | with at most k requests in the gap a transcription has at most 2 + k active batches |
| `BatchQueue.StepKeepsDone` | db/queries/breakdown_batches.sql:65-91 | a step leaves a done row as it is, and removes it exactly when it rebuilds its sentences; no step brings a removed row back |
| `BatchQueue.DoneIsFinal` | db/queries/breakdown_batches.sql:65-91 | for the rest of any run a done batch keeps its row, until its sentences are rebuilt and it is gone for ever; both directions |
| `BatchStore.FailedIsRetriedExactly` | db/queries/breakdown_batches.sql:1-24 | in a reachable state a request retries a failed batch exactly when none of its sentences has a breakdown and quota and queue have room |
| `BatchExamples.FailedBatchIsNotRetried` | internal/api/video_service.go:1086-1096 | a reachable failed batch with one stored row that a request does not retry although quota and queue have room |
| `BatchStore.Store.EnqueueBreakdowns` | internal/api/video_service.go:1041-1155 | inserts or revives a batch, which is then pending, exactly when there are sentences, no breakdown, no unfailed batch, quota and room; otherwise nothing changes and each answer has its exact condition |
| `BatchStore.RequestMayCountExactly` | internal/api/video_service.go:1130-1139 | a request passes the count exactly while fewer than three batches of the transcription are pending or running |
| `BatchStore.RequestIsSteps` | internal/api/video_service.go:1130-1154 | enqueueing a wanted batch is the steps of counting and inserting |
| `BatchStore.Store.BatchSize` | internal/llm/batch.go:19-38 | counting the stored sentences of the range gives the length of the batch |
| `BatchStore.Store.EnqueueBreakdownBatch` | db/queries/breakdown_batches.sql:1-24 | insert, join, or make a failed batch pending again; refused exactly when the first sentence is missing |
| `BatchStore.Store.ClaimBreakdownBatch` | db/queries/breakdown_batches.sql:48-63 | leases the oldest claimable batch no one else has locked, or none exactly when there is none |
| `BatchStore.ClaimsInOrderOfArrival` | db/queries/breakdown_batches.sql:48-63 | a claim passes over a claimable batch that came earlier only if both were created at the same time |
| `BatchStore.Store.MarkBatch` | db/queries/breakdown_batches.sql:65-91 | ends the batch by row id exactly when this runner holds it |
| `BatchStore.Store.InsertSentenceBreakdown` | db/queries/sentences.sql:77-102 | stores a row once, and is refused exactly when the sentence is missing |
| `BatchStore.Store.UpsertSentences` | internal/api/sentence_manager.go:60-101 | deletes with cascades and stores the new sentences, their times cut to signed 32 bits, under the numbers 0, 1, ... and no others; rolled back exactly when one fails the checks of its table; other transcriptions stay |
| `JobPipeline.NextKeepsSafe` | db/queries/jobs.sql:23-108 | every step of callers, workers and the clock keeps: one job per video and type, and recognition job, audio and finished fetch job together |
| `JobPipeline.LaterStagesMeanFetchDone` | internal/api/job_service.go:139-176 | a recognition job or stored audio tells that the fetch job of the video is done |
| `JobPipeline.CompleteFetchKeeps` | internal/api/job_service.go:142-176 | the fetch transaction keeps the tables consistent for any leased pair of job and video |
| `JobPipeline.CompleteAsrKeeps` | internal/api/job_service.go:247-327 | so does the recognition transaction |
| `JobPipeline.ReportingFetchSucceedsExactly` | internal/api/job_service.go:142-176 | reporting fetched audio succeeds exactly when the worker still holds the running job, and then adds this audio for this video; otherwise nothing changes |
| `JobPipeline.ReportingAsrSucceedsExactly` | internal/api/job_service.go:247-327 | reporting a transcription succeeds exactly when the worker still holds the job and the confidences fit, and then replaces the words of this video and model only and drops their sentences; otherwise nothing changes |
| `JobQueue.StorableExactly` | internal/api/job_service.go:292 | words are stored exactly if the low 16 bits of every confidence are a percentage |
| `JobPipeline.MismatchedReportBreaksExactly` | internal/api/job_service.go:142-176 | storing audio under a reported video keeps the tables consistent if and only if it is the video of the job |
| `JobExamples.MismatchedReportBreaks` | internal/api/job_service.go:142-176 | a reachable state, within the lease, in which a report for another video succeeds and leaves inconsistent tables |
| `JobPipeline.RunIsSafe` | db/queries/jobs.sql:23-108 | the consistency holds in every state of every run |
| `JobPipeline.StagesExistTogether` | internal/api/job_service.go:139-176 | in every reachable state: audio exists exactly when the fetch job is done, exactly when a recognition job exists, whose id is larger; a done recognition job has a transcription |
| `JobPipeline.AudioIsFinal` | db/migrations/003_create_audio_blobs.sql:2-9 | in any run, audio once stored for a video never changes |
| `JobLeases.EachJobMoves` | db/queries/jobs.sql:36-108 | what a step may do to a job, field by field: nothing, a lease for the given time while claimable, or an end by the worker that holds it, with its message if any |
| `JobLeases.NextKeepsLeased` | internal/api/job_service.go:329-367 | attempts equal claims, pending jobs have attempts left, running and done jobs name their last claimer, and a decision to unlock is still right when it is written |
| `JobLeases.AttemptsAreClaims` | db/queries/jobs.sql:36-54 | in every reachable state attempts equal the number of claims and never exceed the maximum |
| `JobLeases.CreatedAtIsArrival` | db/queries/jobs.sql:23-34 | the creation time of a job is the time of the step that brought it, in any run |
| `JobLeases.JobsArriveInOrder` | db/queries/jobs.sql:23-54 | jobs are numbered in the order of their creation |
| `JobLeases.OnlyTheLatestClaimerActs` | db/queries/jobs.sql:64-108 | an unlock, done or fail changes a job only if it comes from the latest claimer of a running job |
| `JobLeases.StepSpendsBudget` | db/queries/jobs.sql:36-108 | each change of a job lowers twice the attempts left plus one if running |
| `JobLeases.JobLivesShort` | db/queries/jobs.sql:36-108 | in any run a job changes at most twice per allowed attempt |
| `JobLeases.EndsAreFinal` | db/queries/jobs.sql:36-108 | done and failed are never left |
| `JobLeases.AbandonedJobIsStuck` | db/queries/jobs.sql:43-52 | a job whose holder gives up in its last attempt stays as it is for ever |
| `JobEnds.EndsExactlyUnlessAbandoned` | db/queries/jobs.sql:36-108 | in every reachable state an unended job has a continuation that ends it if and only if there is a worker of its type and the job is not abandoned |
| `JobEnds.UnendedCanEnd` | internal/api/job_service.go:329-367 | any worker of the type ends a job with attempts left, after its lease and on a later day; a holder in the last attempt ends its own |
| `JobExamples.AbandonmentIsReachable` | db/queries/jobs.sql:43-52 | three claims for the five minutes of the service, each given up, reach a job that can never end although there is a worker for it |
| `JobQuota.NextKeepsCharged` | internal/api/job_service.go:316-323 | every step keeps the quota table equal to the history of charges |
| `JobQuota.DayLastsFromMidnight` | internal/quota/quota.go:10-29 | a quota day lasts from midnight to midnight in a zone five hours ahead |
| `JobQuota.EveryFinishedJobIsChargedOnce` | db/queries/asr_quota.sql:7-17 | in every reachable state a day's seconds are the sum of the durations charged that day, and exactly the finished recognition jobs are charged, once each |
| `JobQuota.NextKeepsWithinLimit` | internal/api/job_service.go:74-137 | the seconds used today plus the worst case of all workers that may still charge stay within the limit |
| `JobQueue.RoundingIsTight` | internal/api/time.go:5-12 | whole seconds not above, and not below, any interval |
| `JobQueue.CheckedSecs` | internal/api/time.go:5-7 | rounding a stored duration down gives back the seconds that were stored |
| `JobQueue.ChargedSecs` | internal/api/time.go:9-12 | so does rounding it up: check and charge use the same seconds |
| `JobQuota.QuotaIsNearlyKept` | internal/api/job_service.go:74-137 | on no day do the seconds exceed quota - 1 + W longest videos for W recognition workers, although check and charge are apart and days roll over |
| `JobExamples.QuotaBoundIsReached` | internal/api/job_service.go:74-137 | for any non-empty set of recognition workers a run that meets the bound exactly, whatever audio and words are reported |
| `JobAdmission.CompletingFetchKeepsCount` | internal/api/job_service.go:160-173 | finishing a fetch keeps the number of active jobs |
| `JobAdmission.NextKeepsAdmitted` | internal/api/video_service.go:515-530 | active jobs plus requests in the gap stay bounded at every step |
| `JobAdmission.QueueIsBounded` | internal/api/video_service.go:515-530 | with at most k requests in the gap there are never more than 4 + k active jobs |
| `VideoProcess.GetLatestJob` | internal/api/video_service.go:312-323 | the loop returns a row with the largest id, or none for no rows |
| `VideoProcess.GetVideoProcess` | internal/api/video_service.go:382-492 | too many rows are an error, no rows a new video, otherwise the latest row decides |
| `VideoProcess.AtMostTwoRows` | internal/api/video_service.go:384-389 | a video never has more than two job rows |
| `VideoProcess.AnswerIsTruthful` | internal/api/video_service.go:400-491 | each answer is given if and only if the jobs of the video are in that state; finished also means audio and transcription exist |
| `VideoProcess.StoppedSaysWhy` | internal/api/video_service.go:400-417 | a stopped video has a failed job, and the message names its stage and, for recognition, the stored error |
| `VideoProcess.ReachableAnswers` | internal/api/video_service.go:382-492 | in no reachable state is a corrupted-data error returned, for any order of the rows |
| `JobStore.Store.CreateFetchJob` | db/queries/jobs.sql:23-34 | creates the fetch job exactly when the video has none; a refused insert still draws an id |
| `JobStore.Store.ClaimOldest` | db/queries/jobs.sql:36-54 | leases the oldest claimable job of the type no one else has locked, or none exactly when there is none |
| `JobStore.ClaimsInOrderOfArrival` | db/queries/jobs.sql:43-54 | a claim passes over a claimable job that came earlier only if both were created at the same time |
| `JobStore.Store.MarkDone` | db/queries/jobs.sql:64-74 | takes effect exactly for the holder of a running job of that type, whatever the expiry, and keeps the lease columns |
| `JobStore.Store.ReleaseRow` | db/queries/jobs.sql:86-108 | unlock and fail take effect exactly for the holder and clear the lease |
| `JobStore.Store.CheckQuotaOk` | internal/api/job_service.go:74-88 | true exactly when less than the quota is used today |
| `JobStore.Store.LeaseJob` | internal/api/job_service.go:90-137 | nothing is leased exactly for a used-up quota or no claimable job; otherwise the oldest, for five or sixty minutes |
| `JobStore.Store.CheckLease` | internal/api/job_service.go:181-202 | stops exactly at a row without an owner; otherwise true exactly when the worker holds the running job and the lease has not expired |
| `JobStore.LeaseOrClaimable` | db/queries/jobs.sql:36-62 | after a claim the lease holds exactly up to its expiry, and the job can be claimed again exactly after it while attempts are left |
| `JobStore.LeaseCheckIsSafeExactly` | internal/api/job_service.go:181-202 | in a reachable state the owner column is set exactly for running and done jobs, so the check stops at the others; only the latest claimer passes |
| `JobExamples.OwnerMayBeNull` | internal/api/job_server.go:222-232 | a reachable state in which a recognition worker, about to ask for the audio, is still at its job while another claimed it after the hour and gave it back, so that its row has no owner |
| `JobStore.Store.CompleteFetchJob` | internal/api/job_service.go:142-176 | the transaction with its roll-back is the specified all-or-nothing change |
| `JobStore.Store.CompleteAsrJob` | internal/api/job_service.go:247-327 | the transaction with its roll-back is the specified all-or-nothing change: words replaced, their sentences dropped, job done, the duration charged to today |
| `JobStore.Store.FailJob` | internal/api/job_service.go:329-367 | takes effect exactly for the holder; unlocks exactly while attempts are left and the failure is not final; each error has its reason |
| `JobStore.Store.GetVideoJobs` | db/queries/jobs.sql:12-21 | lists each job of the video once |
| `JobStore.ProcessingObstacle` | internal/api/video.go:33-60 | there is an obstacle exactly for a video that cannot be embedded, is too long, has too few known likes or too few views; each answer has its reason |
| `JobStore.Store.GetOrCreateVideoProcess` | internal/api/video_service.go:494-556 | creates a job exactly for a known video without jobs and obstacles while the queue has room, and then answers that the fetch is pending; each refusal has its exact condition |
| `JobServices.RequestMayCountExactly` | internal/api/video_service.go:509-530 | a request passes the count exactly for a video without obstacles while there is room |
| `JobServices.RequestIsSteps` | internal/api/video_service.go:494-556 | creating a process is the steps of counting and inserting |
| `JobServices.QuotaMayBeCheckedExactly` | internal/api/job_service.go:74-113 | a recognition worker passes the quota check exactly while less than the quota is used today |
| `JobServices.LeaseIsSteps` | internal/api/job_service.go:90-137 | leasing is the quota check, for recognition, and the claim of the oldest job for five or sixty minutes |
| `JobServices.FailureIsSteps` | internal/api/job_service.go:329-367 | failing is reading the row and writing it, unlocked exactly while attempts are left and the failure is not final |

## Left out

- gRPC, HTTP, TLS, worker identity, handlers, configuration, logging: only message sequences and the order of steps are kept.
- Speech detection, recognition, the choice and classification of language samples and the language model are arbitrary functions from audio or prompts to answers; failed requests are `None`, and the repeated attempts of one request count as that one function.
- ElevenTranscriber.TranscriptRoundTrip: assumes what recognisers deliver, words sorted by start with times below 2^32 / 16 milliseconds; without this the 32-bit multiplication wraps.
- SpeechPadding.PaddedRanges: assumes sorted, disjoint segments and a non-negative padding, since the service slices out of bounds otherwise.
- ElevenTranscriber.ParallelRequest: the parts are requested one after another; the service waits for all of them and then reads results by index.
- LowMemVad.LowMemoryVad: floating-point rounding is not modelled; seconds are exact reals, and the detector's segments are assumed sorted inside each chunk.
- Transfer.GetFetchedAudio: the lease check and the read of the stored audio before the first message are `JobStore.Store.CheckLease` and the `blobs` of the tables.
- Conversion of recognised seconds to milliseconds, clamping of confidences and speaker numbers.
- Transfer.CompleteFetch: the 32-bit checksum is any function of the bytes.
- JSON decoding: the stream is the list of decoded items.
- Postgres internals: a statement or transaction is atomic; rows locked by others are a set passed to the claim.
- JobQueue: the order of claims is not needed for safety and is left open there; `JobStore.Store.ClaimOldest` has it. Clock skew and manual edits of rows are not modelled.
- JobQuota.QuotaIsNearlyKept: stored details of a video are fixed; a forced reload (internal/api/video_service.go:189-200) that brought a longer duration for a video already admitted would be charged as such.
- JobStore.Store.GetOrCreateVideoProcess: queue positions and quota percentages of the answer are dropped.
- BatchStore.Store.UpsertSentences: numbers of sentences and words are unbounded; the service cuts them to 32 bits, which differs from 2^31 words on.
- JobStore.Store.CompleteAsrJob: stored word times are not cut to 32 signed bits; the sentences here are counts, their rows are in `BatchStore`, where the deletion is a rebuild with no sentences.
- BatchQueue.NextKeepsAdmitted: the earlier checks of a request may be outdated at the insert and only turn more requests away; `BatchStore.Store.EnqueueBreakdowns` has them.
- Language quota, playlists, topics, search, video metadata, subtitles' time format, back-off periods, the scoring of breakdowns: true but easier.
