# Verification of the Bigtable client's retry and resume core

This project models the parts of the client that keep state across broken RPCs, and proves what they promise.

**Reading.** `ReadOperation` keeps an attempt count, the number of rows returned, a resume key and a row merger
across any number of broken streams. After a break it drops the partial row, trims the original row set to the keys
strictly after the resume key, lowers the limit and opens a new stream. `Exactness.BrokenStreamsReadAsOneScan` says
that, against every obedient server, the rows delivered are a prefix of one uninterrupted scan, and all of it when
the read finishes. A server is any function from attempt number and request to an answer. It is obedient if every
stream it opens spells, in any legal chunk encoding, the rows the request asks for, cut at any message boundary.
The clock and the receiver are arbitrary functions too. What a scan for a query returns is defined by `Selection` from
the query's own bounds, direction and limit. `Endings` tells, against any server at all, how a read goes and ends: each
read has exactly one story of attempts, and its last attempt decides the ending and the error.

**Merging.** `Merging.Push` is the meaning of the chunk parser over a flat list of completed cells;
`Merging.RowMerger` is the object with all its fields, updated in place, and is proved to compute it. `Wire` defines
a printer for the chunk language. `Acceptance` proves that the merger accepts exactly what that printer can print,
`Rejections` says which chunk is rejected for which reason, and `Rows` proves that grouping cells into families and
columns loses, invents and reorders nothing.

**Writing.** `Splitting` packs entries into requests and proves the packing optimal; `Encoding` says what that means
for the encoded requests. `Attempts` and `Batching` are one attempt and one batch, with the bitmap, the sorted failures
and the shrinking set of entries to send again. `Statuses` says what a reply calls for in terms of indexes and status
numbers, and that the verdicts of an attempt are exactly that. `Conservation` proves that every entry ends once,
`Attribution` and `Outcomes` that it ends as the reply to the very request that carried it says, that requests are sent
as long as an entry is open and the clock allows it, and that only the clock makes a deadline. `Bulk` and `Execution`
run batches side by side and put their outcomes together. `Replays` gives entries a meaning on a table and proves that
sending retry-safe entries again cannot be noticed.

Where the code and the repository's README differ: README.md line 587 says that an empty range bound is valid and
leaves its side unbounded. `end_at_or_before` and `end_at_or_after` compare an empty end key as the smallest key.
After the first break a forward read then drops such a range, and a reversed read asks for all of it again, so that
the merger reports a protocol violation. The model follows the code, and says exactly when that shows, for one range
(`Resuming.TrimRangeExactness`), for a resumed request (`Resuming.ResumeIsExact`) and for whole reads of any query
(`EmptyEnds.AlwaysGoodIffResumable`): a reversed query must have no such range; a forward one may, if its named keys
and its other ranges hold every selected key after the least one. `Resuming.Resumable` decides this from the bounds.

Assumptions that are part of the statements, not of the code: an obedient server marks or abandons only keys its
request selects, and only keys strictly after everything it has sent or marked in that answer, and it marks a key only
when every remaining row of the answer lies strictly after it; a server ignores a repeated entry that carries an
idempotency token; an entry is applied at most once for each request that carried it. What a successful report means
for the table (`Replays.CompleteMeansEachOnce`) also assumes that the server has applied what it confirmed. Others may
write to the table at any time.

## Model

| member | source | states |
|---|---|---|
| Queries.PrefixSuccessor | crates/bigtable-client/src/query.rs:217-223 | the bound lies above exactly the keys that start with the prefix or precede it; there is none only for prefixes of 0xFF bytes |
| Queries.PrefixRange | crates/bigtable-client/src/query.rs:53-59 | the prefix range holds a key if and only if the key starts with the prefix, for every prefix |
| Rows.GroupIsLossless | crates/bigtable-client/src/merge.rs:210-243 | grouping keeps every cell with its family and qualifier, as often as it arrived |
| Rows.GroupedShape | crates/bigtable-client/src/merge.rs:210-243 | families and qualifiers are distinct, nothing is empty, families and columns come in order of first appearance, and each column holds its cells in arrival order |
| Merging.RowMerger.constructor | crates/bigtable-client/src/merge.rs:30-44 | a new merger means the machine between rows with no last key |
| Merging.RowMerger.PushChunk | crates/bigtable-client/src/merge.rs:46-52 | the object moves and answers as the machine does; fields left over from earlier rows have no influence |
| Merging.RowMerger.ScanMarker | crates/bigtable-client/src/merge.rs:54-61 | a marker is accepted only between rows and in order, and moves only the last key |
| Merging.RowMerger.DiscardPartial | crates/bigtable-client/src/merge.rs:63-67 | after a discard the object means a machine between rows with the same last key, whatever it held |
| Merging.RowMerger.Finish | crates/bigtable-client/src/merge.rs:69-75 | a stream may end only between rows |
| Merging.RowMerger.StartRow | crates/bigtable-client/src/merge.rs:77-102 | first chunk of a row: the five rejections in order, then its first cell |
| Merging.RowMerger.StartCell | crates/bigtable-client/src/merge.rs:104-157 | first chunk of a cell: reset, column change, whole or split value, commit |
| Merging.RowMerger.BeginSplit | crates/bigtable-client/src/merge.rs:131-149 | first piece of a split value: its three rejections, and what is kept of it |
| Merging.RowMerger.ContinueCell | crates/bigtable-client/src/merge.rs:159-208 | later piece of a split value: sizes agree, the last piece completes the cell |
| Merging.RowMerger.EndCell | crates/bigtable-client/src/merge.rs:151-156 | a completed cell joins the row, which a commit delivers |
| Merging.RowMerger.FinishCell | crates/bigtable-client/src/merge.rs:210-243 | pushing into the nested vectors keeps the row equal to the grouping of all its cells |
| Merging.RowMerger.PushIntoColumns | crates/bigtable-client/src/merge.rs:224-236 | within a family the cell ends its column, or opens one at the end |
| Merging.RowMerger.CommitRowNow | crates/bigtable-client/src/merge.rs:245-251 | a commit hands the row over and leaves the machine between rows at its key |
| Merging.RowMerger.ValidateOrder | crates/bigtable-client/src/merge.rs:253-267 | a key is in order if it lies strictly after the last complete key in scan direction |
| Merging.RowMerger.ResetActiveRow | crates/bigtable-client/src/merge.rs:269-290 | only a bare reset is accepted, and it forgets the row |
| RoundTrip.FeedOpen | crates/bigtable-client/src/merge.rs:104-208 | any legal spelling of part of a row is read into exactly its cells, with no row completed |
| RoundTrip.FeedSend | crates/bigtable-client/src/merge.rs:245-251 | any legal spelling of a row, cut and abbreviated in any way, is read into that row, once |
| RoundTrip.FeedAbandon | crates/bigtable-client/src/merge.rs:284-290 | a partial row ended by a reset leaves the machine as it was before the row |
| RoundTrip.ScriptRoundTrip | crates/bigtable-client/src/merge.rs:46-251 | parser after printer is the identity on rows, for sent rows, abandoned rows and scan markers, and ends between rows |
| Acceptance.AcceptedWasSpelled | crates/bigtable-client/src/merge.rs:46-251 | printer after parser: whatever is accepted is the print of some legal script and open row |
| Acceptance.AcceptsExactlyTheLanguage | crates/bigtable-client/src/merge.rs:46-251 | chunks and markers are accepted if and only if they are a legal spelling, finished or cut short |
| Acceptance.SpellingIsUnambiguous | crates/bigtable-client/src/merge.rs:46-251 | equal prints have equal rows and leave equal states |
| Rejections.RejectedForAReason | crates/bigtable-client/src/merge.rs:77-208 | for every state, chunk and reason: the chunk is rejected for that reason if and only if the reason, spelled out for each, applies |
| Rejections.MarkerRejectedForAReason | crates/bigtable-client/src/merge.rs:54-61 | a marker is rejected within a row, and if it does not lie after the last complete key, and never otherwise |
| ScanOrder.ChunkMovesLast | crates/bigtable-client/src/merge.rs:245-251 | of all chunks only the one that completes a row moves the last key, and to that row |
| ScanOrder.RowsComeInOrder | crates/bigtable-client/src/merge.rs:253-267 | for any input, rows come in strict scan order between the old and the new last key |
| Resuming.ProperEndTrimsExactly | crates/bigtable-client/src/read.rs:538-559 | a range whose end is not the empty key is trimmed to exactly its keys after the progress key |
| Resuming.TrimRangeExactness | crates/bigtable-client/src/read.rs:538-591 | trimming a range is exact if and only if its end is not empty or, in reverse, it starts at or after the progress key |
| Resuming.EmptyEndDiverges | crates/bigtable-client/src/read.rs:579-591 | a concrete range with an empty end that is dropped forwards and left whole in reverse |
| Selection.BoundsAreSent | crates/bigtable-client/src/query.rs:225-239 | the sent range admits a key if and only if the start and end bounds of the query do |
| Selection.ScanAnswersQuery | crates/bigtable-client/src/query.rs:181-200 | the scan of the built request is the selection of the query in its direction, cut to its limit: no key, bound, direction or limit is lost |
| Selection.AnswerIsUnique | crates/bigtable-client/src/query.rs:181-200 | a query has one answer on a table |
| Resuming.TrimmingDoesNotInvert | crates/bigtable-client/src/read.rs:538-559 | trimming leaves a range alone or moves or adds the one bound behind the scan, and that bound never passes the other |
| Resuming.NoInvertedRange | crates/bigtable-client/src/read.rs:522-526 | ranges that are not inverted are not inverted after trimming |
| Resuming.TrimKeysExact | crates/bigtable-client/src/read.rs:511-521 | exactly the named keys strictly after the progress key are kept |
| Resuming.TrimRangesExact | crates/bigtable-client/src/read.rs:522-526 | what is left of any list of ranges: of those with a proper end the keys after the progress key, of the others nothing forwards and the whole range in reverse if it starts before that key |
| Resuming.TrimRowSetExactness | crates/bigtable-client/src/read.rs:511-536 | trimming a row set keeps exactly the selected keys after the progress key if and only if a decision on its bounds says so |
| Resuming.ResumeKeepsTheLimit | crates/bigtable-client/src/read.rs:484-508 | a resumed request is never an empty row set; its limit plus rows returned is the original limit, and at least one |
| Resuming.QueriesAreResumable | crates/bigtable-client/src/query.rs:181-200 | a query without an empty range end is resumable, and a reversed one only then |
| Resuming.ResumeIsExact | crates/bigtable-client/src/read.rs:484-536 | for every request and progress key: the resumed request selects exactly the selected keys not passed, and no request means none is left, if and only if nothing was passed, the limit is reached or trimming is right there |
| Resuming.ResumableExactly | crates/bigtable-client/src/read.rs:484-591 | a decision on the bounds of the original request is equivalent to right trimming at every selected key |
| Resuming.ResumableForwards | crates/bigtable-client/src/read.rs:579-591 | a forward request is resumable if and only if of any two selected keys the later one is named or lies in a range without an empty end |
| Scanning.PartialItem | crates/bigtable-client/src/read.rs:326-333 | a row cut before its last chunk delivers nothing and moves no position |
| Scanning.AnswersAreRead | crates/bigtable-client/src/read.rs:314-343 | an answer cut anywhere is read without an issue into the first rows it carries, with the position exactly between delivered and remaining rows |
| Reading.ReadOperation.constructor | crates/bigtable-client/src/read.rs:206-228 | a new operation has made no attempt, returned nothing and has no progress |
| Reading.ReadOperation.HandleMarker | crates/bigtable-client/src/read.rs:319-324 | a marker moves merger and progress together or fails |
| Reading.ReadOperation.HandleChunks | crates/bigtable-client/src/read.rs:326-342 | each completed row is counted, becomes the progress and is handed over, until the receiver goes away or a chunk is rejected |
| Reading.ReadOperation.HandleResponse | crates/bigtable-client/src/read.rs:314-343 | marker first, then chunks; progress equals the merger's last complete key after every message |
| Reading.ReadOperation.ReadStream | crates/bigtable-client/src/read.rs:234-312 | reads one stream as specified: limit after each message, discard on a break, incomplete row at the end |
| Reading.ReadOperation.Attempt | crates/bigtable-client/src/read.rs:345-443 | deadline, retry decision, backoff, resume, count and send, in that order |
| Reading.ReadOperation.Execute | crates/bigtable-client/src/read.rs:234-443 | delivered rows, attempts and ending are those of the specified run; the run ends |
| Reading.TryKeeps | crates/bigtable-client/src/read.rs:355-403 | every retry costs one attempt and none is made beyond the maximum; progress never resets the count |
| Exactness.ResumedScanIsTheRest | crates/bigtable-client/src/read.rs:484-508 | the resumed request scans exactly the selected rows not yet delivered |
| Exactness.NoRequestMeansDone | crates/bigtable-client/src/read.rs:386-391 | when there is nothing to resume everything was delivered |
| Exactness.CutStreamIsReached | crates/bigtable-client/src/read.rs:285-309 | wherever a stream breaks, the rows delivered are the selected rows up to the position reached |
| Exactness.TryIsGood | crates/bigtable-client/src/read.rs:345-443 | one attempt keeps that relation, or ends with a prefix of the scan, or with all of it if it finished |
| Exactness.BrokenStreamsReadAsOneScan | crates/bigtable-client/src/read.rs:234-443 | for any table, any query that is resumable or has a single attempt, any clock, receiver and obedient server: delivered rows are a prefix of the rows the query asks for, all of them on success, and no answer is called invalid |
| Exactness.FullAnswerCompletes | crates/bigtable-client/src/read.rs:345-443 | if only retryable breaks come first, an attempt answered in full within the maximum finishes the read with all rows the query asks for |
| Endings.EveryReadHasItsStory | crates/bigtable-client/src/read.rs:234-443 | against any server, clock and receiver: each attempt follows a break with one of four codes in time; the last one decides the ending, such as ReadRows with the very code that broke it, the deadline when the clock says so, and IncompleteRow for a stream that ends within a row |
| Endings.OneStoryOneEnding | crates/bigtable-client/src/read.rs:234-443 | there is one story and one report that fits it, so the endings leave nothing open |
| Endings.ErrorsReachTheCaller | crates/bigtable-client/src/read.rs:350-443 | if the receiver stays, a read never ends without saying why: a status is reported with its code and attempt exactly if it may not be survived or no attempt is left, a deadline only if the clock says so |
| Spelling.EveryRequestHasAFullAnswer | crates/bigtable-client/src/read.rs:314-343 | every request on every table has an obedient full answer |
| EmptyEnds.MarkingRun | crates/bigtable-client/src/read.rs:538-559 | a reversed read whose resumed request selects the passed key again ends in an alleged violation |
| EmptyEnds.LosingRun | crates/bigtable-client/src/read.rs:538-559 | a forward read whose resumed request drops a due key finishes without its row |
| AnyServer.RunIsOrderedAndBounded | crates/bigtable-client/src/read.rs:345-443 | against any server, from any sound state: strict key order across all attempts, at most the allowed attempts, and a status ends the read only if it is not retryable or attempts are used up |
| AnyServer.ReadIsOrderedAndBounded | crates/bigtable-client/src/read.rs:234-443 | the same for every new read, and against a server that ignores the limit all rows but those of one last message number fewer than the limit |
| AnyServer.MarkerComesFirst | crates/bigtable-client/src/read.rs:319-324 | a message is read as its marker and then its chunks from the marked position, or fails at the marker |
| AnyServer.RowsFollowMarker | crates/bigtable-client/src/read.rs:319-342 | every row of a message lies strictly after its marker |
| EmptyEnds.AlwaysGoodIffResumable | crates/bigtable-client/src/read.rs:484-591 | for every query, forward or reversed, with any keys, ranges and limit: reads are exact against all obedient servers if and only if there is a single attempt or the request is resumable |
| EmptyEnds.EmptyEndsDecideReversedReads | crates/bigtable-client/src/read.rs:579-591 | without empty range ends reads are always exact, and reversed ones only then |
| EmptyEnds.LoneEmptyEndShows | crates/bigtable-client/src/read.rs:579-591 | a query of one range with an empty end is never resumable |
| EmptyEnds.CoveredEmptyEndIsHarmless | crates/bigtable-client/src/read.rs:579-591 | a forward query that also names the whole table is resumable nevertheless |
| Columns.BisectIsComplete | crates/bigtable-client/src/mapping.rs:399-404 | on sorted columns the bisection finds the column |
| Columns.FindsTheColumn | crates/bigtable-client/src/mapping.rs:399-411 | sorted or not, a column is found iff it exists, and it is the one a plain scan finds |
| Columns.LookupFindsTheCells | crates/bigtable-client/src/mapping.rs:394-411 | on every merged row a lookup returns exactly the cells that arrived for that column, in order |
| Mutations.AppendSafety | crates/bigtable-client/src/mutation.rs:229-291 | appending fails exactly at the limit, and a row is retry safe iff each of its changes is |
| Mutations.BuildKeepsTheLimit | crates/bigtable-client/src/mutation.rs:229-268 | the builder succeeds exactly with at most 100,000 changes and tokens of at least eight bytes, and keeps key, changes in order and last token |
| Mutations.BuildableIsBounded | crates/bigtable-client/src/mutation.rs:207-268 | whatever is done with the builder, a row it yields has a key of 1 to 4096 bytes and at most 100,000 changes |
| Mutations.SafetyByKind | crates/bigtable-client/src/mutation.rs:184-195 | deletions and timestamped cells are safe, aggregates with a token only, cells at server time and empty changes never |
| Splitting.VarintSize | crates/bigtable-client/src/write.rs:434-441 | the loop counts the bytes of the varint |
| Splitting.VarintIsLeast | crates/bigtable-client/src/write.rs:430-441 | the varint decodes to its value and its length is the least k with v < 128^k |
| Splitting.SplitBatches | crates/bigtable-client/src/write.rs:384-428 | batches concatenate to the numbered input, each is one entry or within all three limits, and none could take the next entry |
| Splitting.SubsequenceFits | crates/bigtable-client/src/write.rs:406-409 | any nonempty selection of a batch that may be sent may be sent |
| Splitting.PackedIsOptimal | crates/bigtable-client/src/write.rs:401-427 | the greedy split uses no more requests than any order-preserving split within the limits |
| Splitting.PackedIsUnique | crates/bigtable-client/src/write.rs:401-427 | there is exactly one split of the entries in which every batch fits and is full |
| Encoding.BytesAreCounted | crates/bigtable-client/src/write.rs:398-432 | the running byte count is the length of the encoded request: head, then tag, length and message of every entry |
| Encoding.PackedRequests | crates/bigtable-client/src/write.rs:401-427 | every batch is one entry or within the entry limit, 100,000 changes and the byte limit; none could take the next entry; no other such cut makes do with fewer |
| Codes.NumbersAreRead | crates/bigtable-client/src/write.rs:789-801 | a status number is read as the gRPC code it belongs to, and as unknown if to none |
| Statuses.IssueIsFirstViolation | crates/bigtable-client/src/write.rs:599-621 | the issue reported is the first result with a negative, too large or repeated index |
| Statuses.VerdictsAreCalledFor | crates/bigtable-client/src/write.rs:599-749 | an entry is confirmed, sent again or failed for a cause if and only if indexes, status numbers and codes of the reply call for it |
| Statuses.ReplyDecidesOutcome | crates/bigtable-client/src/write.rs:578-749 | a reply calls for exactly one outcome |
| Attempts.ReadResult | crates/bigtable-client/src/write.rs:599-621 | one result: negative, out of range and repeated indexes are found by the bitmap exactly when the results say so |
| Attempts.ReadResults | crates/bigtable-client/src/write.rs:585-639 | bitmap, count and failure list agree with the results up to the first violation |
| Attempts.ClassifyStatus | crates/bigtable-client/src/write.rs:715-749 | send again iff safe, retryable and attempts remain, else fail with the origin of the status |
| Attempts.RpcFailure | crates/bigtable-client/src/write.rs:704-713 | a failed RPC gives every entry the verdict of its status, and settles it as that code calls for |
| Attempts.InvalidResponseOutcome | crates/bigtable-client/src/write.rs:682-702 | a violation fails every entry and sends none again |
| Attempts.PeekTellsVerdict | crates/bigtable-client/src/write.rs:652-664 | at each index bitmap and next sorted failure tell the answer reported for it |
| Attempts.SettleEntry | crates/bigtable-client/src/write.rs:655-677 | one step of the walk records the entry's verdict |
| Attempts.ConsumeStream | crates/bigtable-client/src/write.rs:578-680 | the outcome is that of a per-index lookup of the results, fast path included, and settles every entry as indexes, status numbers and codes of the stream call for |
| Sorting.SortIsSorted | crates/bigtable-client/src/write.rs:652 | sorting by distinct indexes is strictly increasing |
| Sorting.SortedIsUnique | crates/bigtable-client/src/write.rs:197 | there is one increasing arrangement of the same failures |
| Batching.BatchOperation.FailPendingDeadline | crates/bigtable-client/src/write.rs:751-760 | every pending entry fails with the deadline and none stays pending |
| Batching.BatchOperation.SendPending | crates/bigtable-client/src/write.rs:471-514 | counts the attempt for batch and entries, settles what the reply settles, keeps the rest |
| Batching.BatchOperation.Run | crates/bigtable-client/src/write.rs:465-556 | the loop computes the specified run and ends |
| Batching.SendOnceKeepsLockstep | crates/bigtable-client/src/write.rs:471-474 | every pending entry's attempt count equals the batch's RPC count and stays below the maximum; what remains is retry safe |
| Conservation.SettlePartitions | crates/bigtable-client/src/write.rs:652-677 | success, failure and retry partition the attempt, each in request order, and failures keep original indexes |
| Conservation.BatchIsConserved | crates/bigtable-client/src/write.rs:465-556 | every index ends exactly once; successes plus failures are all; at most the allowed requests, each an order-preserving selection; unsafe entries only in the first; no settled entry is sent again (what settles it is said by Attribution.BatchIsExplained) |
| Attribution.SettleExplains | crates/bigtable-client/src/write.rs:652-677 | an entry is confirmed, failed for a cause or kept if and only if that is its own verdict |
| Attribution.BatchIsExplained | crates/bigtable-client/src/write.rs:465-556 | each request carries exactly the entries still open; an entry is confirmed or failed by it if and only if its reply gave that entry that verdict, and failures carry the index, cause and attempts of that request; all other failures are deadlines of entries still open |
| Attribution.OkIsNeverSentAgain | crates/bigtable-client/src/write.rs:599-680 | an entry that any result answered OK is in no later request, even if the response was refused as a whole |
| Outcomes.BatchEndsAsReplied | crates/bigtable-client/src/write.rs:465-556 | each request carries the entries all earlier replies left open; confirmations and failures, with index, attempt and cause, are those the reply to that request calls for, and the deadlines of entries still open |
| Outcomes.BatchIsPaced | crates/bigtable-client/src/write.rs:465-556 | requests are sent as long as an entry is open and the clock allows it, and no longer |
| Outcomes.DeadlineNeedsClock | crates/bigtable-client/src/write.rs:467-470 | a failure is put down to the deadline only if the clock stopped the batch |
| Outcomes.RepliesDecideAll | crates/bigtable-client/src/write.rs:465-556 | if the clock never stops it, every entry of a batch ends as a reply says |
| Outcomes.AllAreConfirmedInTheEnd | crates/bigtable-client/src/write.rs:465-556 | retry-safe entries that meet only errors that pass, and are all confirmed by some request within the attempts, end confirmed |
| Conservation.RequestsKeepTheLimits | crates/bigtable-client/src/write.rs:475-482 | every request of a batch, however shrunk, keeps the entry limit and the 100,000-mutation limit, and unless it holds one entry the byte limit |
| Bulk.FleetStaysInBounds | crates/bigtable-client/src/write.rs:276-305 | under any interleaving at most the allowed batches run, and each started one runs or has completed once |
| Bulk.FleetCanMove | crates/bigtable-client/src/write.rs:276-305 | until all batches have completed some step is possible |
| Bulk.FleetEnds | crates/bigtable-client/src/write.rs:276-305 | no interleaving takes more than two steps a batch, and it is complete exactly when it has taken them |
| Bulk.FleetCanFinish | crates/bigtable-client/src/write.rs:276-305 | however far it has come, an interleaving can be brought to its end |
| Bulk.FleetCompletesEachOnce | crates/bigtable-client/src/write.rs:276-305 | in the end every batch has completed exactly once |
| Bulk.CollectOutcomes | crates/bigtable-client/src/write.rs:307-315 | successes are added, attempts added with saturation, failures appended |
| Bulk.ArrivalOrderIsIrrelevant | crates/bigtable-client/src/write.rs:307-315 | sums and failures are the same for every order of arrival |
| Execution.RunBatches | crates/bigtable-client/src/write.rs:241-316 | batches are run as a schedule of the bounded buffer has them completed, each comes to what its own server makes of it, outcomes are collected in that order; one batch alone takes the short path to the same result |
| Execution.SingleBatchAgrees | crates/bigtable-client/src/write.rs:245-263 | the single-batch path reports what the general one would |
| Execution.ReportIsConserved | crates/bigtable-client/src/write.rs:197-228 | the report does not depend on completion order; failures are index-sorted; confirmed and failed indexes make up 0..n-1; success iff all were confirmed |
| Execution.ReportCountsRequests | crates/bigtable-client/src/write.rs:207-211 | the attempts reported are the requests of all batches, up to the largest 32-bit number, whatever the order of completion |
| Execution.Execute | crates/bigtable-client/src/write.rs:149-229 | the report is the one that the packed split and each batch's specified run lead to, whatever the schedule within the in-flight limit |
| Execution.ReportIsDetermined | crates/bigtable-client/src/write.rs:149-229 | entries, policy and servers decide that report, its batches conserve their entries, and it counts their requests |
| Execution.ReportIsExplained | crates/bigtable-client/src/write.rs:197-228 | the failures reported are exactly those of the batches, each explained by a reply or a deadline, and each batch is sent as its clock allows |
| Execution.EveryRequestKeepsTheLimits | crates/bigtable-client/src/write.rs:384-482 | in a whole run every request of every batch keeps the three limits |
| Replays.SafeIsConstantOrIdentity | crates/bigtable-client/src/mutation.rs:184-195 | a safe entry without a token leaves each location constant or alone, at any time |
| Replays.SafetyIsTight | crates/bigtable-client/src/mutation.rs:184-195 | without a token a change is called safe if and only if no replay of it can ever be noticed |
| Replays.UnsafeIsSentOnce | crates/bigtable-client/src/write.rs:722-734 | over all batches an entry that is not retry safe is sent at most once |
| Replays.ReplaysAreInvisible | crates/bigtable-client/src/mutation.rs:184-195 | any run, any log with no more applications than requests and any writes of others in between: every location ends as if each applied entry took effect exactly once |
| Replays.CompleteMeansEachOnce | crates/bigtable-client/src/write.rs:197-228 | if the report is complete and what was confirmed was applied, every location ends as if each entry took effect exactly once |

## Left out

- Channels, authentication, service traits and the async runtime: replaced by functions that give answers, clock decisions and receiver behaviour.
- Telemetry, spans and observers, with the status code and retry delay an attempt reports to them: they do not influence results.
- Configuration, policy validation, resource names and error texts: single-branch checks; the models require what validation ensures, such as at least one attempt and one entry per request.
- Attempts.ClassifyStatus: leaves out the status code of the outcome, which only telemetry reads, and the server's retry delay, which only lengthens the backoff; whether a backoff outlasts the deadline is an arbitrary choice.
- Backoff arithmetic, jitter and `RetryInfo`: a delay is an arbitrary choice between sleeping, running out of time and being interrupted.
- Value decoders, JSON and the derive macro: they work on one cell at a time and keep no state.
- Row filters and cell contents: a stored row is the list of cells that is left after filtering.
- Protobuf encoding beyond varint and field sizes: an entry carries the length of its encoded message.
- Integer widths: chunk sizes, timestamps, row limits and row counts are unbounded here; only the saturating 32-bit attempt counters are modelled as such.
- Columns.BisectIsComplete: the bisection stands for the standard library's binary search, whose code is not part of this repository.
- Replays.ReplaysAreInvisible: two entries that share one idempotency token, and tokens the server has forgotten, are not modelled.
- Execution.RunBatches: a batch runs at the step where the schedule completes it, against its own server function; requests of different batches that reach one server are not interleaved.
