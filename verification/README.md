# A verified model of the fluss-go client core

fluss-go is a client for a replicated log and key-value store. This project models, in Dafny,
the parts of `pkg/fgo` that carry its guarantees, and proves those guarantees for every input,
every run or every reachable state:

- **Idempotent batching writers.** One scheduler per writer keeps an open batch, a queue, one
  running call, a sequence number and a poison mark for each bucket. `WriterLanes` is one bucket,
  `WriterLoop` the scheduler's operations on all of them, `WriterLoopProofs` and `WriterFlush` what
  every operation keeps, and `WriterScheduler` the scheduler as a class over its tables, each method
  tied to an operation. `WriterServer` adds one bucket's retry loop, an unreliable network and a
  server; `WriterSystem` puts callers, command queue, slots, scheduler, network and servers
  together as a step system; `WriterRuns` proves what holds after every run, `WriterRouting` where every
  write goes, `WriterAnswers` what callers are told, and `WriterDrain` that flush and close end.
- **Binary codecs.** `RowCodec` has both row layouts, binary arrays and maps, mutually recursive;
  `RowRoundTrip`, `RowDecoder` and `RowLoops` prove the round trip with its exact condition, that
  accepted bytes are accounted for to the last one, and that the in-place loops compute the same
  bytes. `KeyCodec`, `RecordBatch`, `LogBatch` and `RecordLoops` do the same for keys and batches,
  `SignedBytes` for decimals' big integers, and `LogFetch` composes encoder, cut and fetch.
  `RowAcceptance` and `BatchAcceptance` say exactly what is encoded, how long it is, and what bytes are
  accepted; `RowFixtures` has the bytes of Fluss's own row fixture.
- **Log scanner.** `FetchDecode` (framing with a cut tail, offset trimming), `ScanBounds` (row
  limits, stopping offsets, Arrow ownership), `LogScan`, `ScanRuns` (one poll), `ScanFailures` (what a
  poll moves, failed or not), `ScanDelivery`, `ScanLimit` and `ScanStops` (whole runs).
- **Schedulers.** `LookupRuns` with `LookupLoops`, `LookupAnswers` and `LookupShutdown`; `Coalescer` with
  `CoalescerRuns`; `RemoteLog` with `RemoteAssembly`. `Routing`, `RoutingAcceptance` and `Hashing` are about
  the bucket of a key, on which writer and lookups agree; `WriterRetry` about the retry loops and
  once-only completion.

Environment assumptions are explicit. The server of `WriterServer` stores a batch only if it carries
the next sequence number of its writer and bucket, answers DUPLICATE_SEQUENCE only for a number it
has stored, and may answer anything with an error. Whatever was once sent may arrive any number of
times, at any later point, or never. The servers of `ScanDelivery` answer with stored batches, cut at
any byte, overlapping at will but without a gap. CRC32C (section 12.1 of RFC 3720), the decoding of an
Arrow payload and the course of attempts are function parameters. Timers, cancellation, completion
order and network events are steps or arbitrary choices. Floats are bit patterns, timestamps are
nanoseconds, decimals are reals, and an Arrow batch is a base offset with opaque records.

## What turned out not to hold as one might expect

- `signedBigEndian` is not minimal at zero and at -2^(8k-1): `SignedBytes.LowerEndNotMinimal` gives
  the shorter bytes, `SignedBytes.MinimalExactlyWhen` says it is minimal for every other integer, and
  `SignedBytes.EncodedWidth` gives the exact width. Its two repair branches cannot be reached
  (`SignedBytes.RepairsUnreachable`).
- A row does not always come back as it was: `RowRoundTrip.RoundTrip` is an if-and-only-if. The
  indexed layout trims trailing zero bytes of fixed CHAR and BINARY, instants are cut to their
  precision, and a schema whose header alone is over the row limit is encoded but not decoded.
- An empty KV value comes back as a delete (`RecordBatch.KVRoundTripExact`); no encoded row is empty,
  so no upsert does (`RecordBatch.UpsertNeverDelete`).
- `LogBatch.EncodeRows` checks no total size, `DecodeLogBatchRows` does: the round trip holds exactly
  up to the limit (`LogBatch.LogRoundTrip`).
- A poll that fails at a later bucket hands out nothing but has moved the offsets of earlier buckets
  (`ScanFailures.FailedPollLosesRecords`). `ScanFailures.PollMoves` says exactly which buckets a poll
  moves and `ScanFailures.FailedPollKeepsOffsets` exactly when a failed one loses nothing;
  `ScanDelivery.ScanDeliversTheLog` admits all failed polls of that kind, and by
  `ScanDelivery.FailureExact` no others could be admitted. The row limit (`ScanLimit.RowLimitHolds`) is
  about all runs.
- After Close the coalescer can dispose one value twice (`Coalescer.DoubleDisposalHappens`);
  `Coalescer.DisposedTwiceExactlyWhen` says exactly when, `Coalescer.DisposedOrClaimed` that it never
  does without Close.

## Model

| member | source | states |
|---|---|---|
| `WriterRuns.ExactlyOnceInOrder` | pkg/fgo/log_writer.go:526-605 | after any run over a network that loses, delays and repeats, a bucket's log holds of ours exactly the records of the first n writes routed to it, each once, in acceptance order, and every write answered with success is among them |
| `WriterRouting.RouteHonoured` | pkg/fgo/log_writer.go:441-490 | a write with a bucket of its own is added to that bucket and no other, a row into the open batch it fits or a new one, which stays open unless it is ripe; other buckets' batches stay as they are |
| `WriterRouting.RoundRobinTurn` | pkg/fgo/log_writer.go:710-714 | the n-th row of a round-robin writer goes to the n-th bucket, counting around the list |
| `WriterRouting.StickyTurn` | pkg/fgo/log_writer.go:474-490 | rows of a sticky writer stay in one bucket until its batch cannot take the next or is ripe with it, then go on to the next bucket of the list |
| `WriterRouting.DecisionsObeyRoutes` | pkg/fgo/log_writer.go:441-450 | in every run the k-th write queued is turned away exactly when its caller was gone or it could not be routed, and otherwise placed in the bucket its route names, or whose turn it is |
| `WriterRouting.BucketsReceiveTheirs` | pkg/fgo/kv_writer.go:503-548 | in every run whose writes name their buckets, a bucket receives exactly the writes that name it and whose callers were still there, in the order queued |
| `WriterAnswers.ReplyDecides` | pkg/fgo/writer_retry.go:75-111 | stored at a base, a call's writes succeed at their own offsets from there; a duplicate succeeds without offset; an error not retried fails them and everything queued behind, and poisons the bucket |
| `WriterAnswers.ReplyEnds` | pkg/fgo/writer_retry.go:85-97 | a reply that is not retried ends the call |
| `WriterAnswers.CleanAttemptSucceeds` | pkg/fgo/writer_retry.go:75-111 | an attempt nothing disturbs stores the running call and says where, or finds it stored and leaves the log alone |
| `WriterAnswers.CompletionAnswers` | pkg/fgo/log_writer.go:574-605 | the end of a call answers its bucket's writes by its outcome, in order |
| `WriterAnswers.TimerSendsAll` | pkg/fgo/log_writer.go:414-439 | the batch timeout leaves no batch open and no usable request slot idle |
| `WriterRuns.OffsetsAreRight` | pkg/fgo/log_writer.go:658-679 | a write answered with a known offset is in the server's log, whole, at that offset |
| `WriterRuns.SequencesNeverReused` | pkg/fgo/log_writer.go:510-605 | in every run a bucket's calls carry 0, 1, 2, …, what was sent under a number never changes, and after its first failure a bucket starts nothing again |
| `WriterRuns.EveryWriteInOnePlace` | pkg/fgo/log_writer.go:309-333 | at every step each accepted write is queued, turned away, or in exactly one of one bucket's answered, in-flight, pending or open writes; inFlight is the number of active buckets within the limit; held slots are the unanswered writes within MaxBuffered |
| `WriterRuns.EveryBatchWithinLimits` | pkg/fgo/log_writer.go:441-508 | every batch ever started is one Arrow write, or rows of one target list within both limits unless it is a single row |
| `WriterRuns.FlushCoversEverything` | pkg/fgo/log_writer.go:607-623 | when a flush or close ends nothing is open, pending or active, every write routed before it has its answer, and it reports an error exactly when one of those answers is an error |
| `WriterRuns.CloseStrandsNothing` | pkg/fgo/log_writer.go:363-439 | a stopped writer has an empty queue, every accepted write has its answer, and only callers on their way in hold slots |
| `WriterDrain.DrainFinishes` | pkg/fgo/log_writer.go:607-614 | however and in whatever order the running calls end, a draining writer reaches the end of its flush or close, with nothing open, pending or active |
| `WriterDrain.DrainNeverStuck` | pkg/fgo/log_writer.go:607-614 | while a flush or close waits, the scheduler or a retry loop has a step to take |
| `WriterDrain.OwnStepSinks` | pkg/fgo/log_writer.go:550-605 | while draining, every attempt sent, answered, lost or given up and every completion leaves strictly less to do |
| `WriterDrain.OthersAddNothing` | pkg/fgo/log_writer.go:309-333 | while draining, callers, the network and the servers leave as much to do as there was |
| `WriterRuns.StepKeeps` | pkg/fgo/log_writer.go:414-439 | every step of callers, scheduler, retry loops, network and servers keeps the system invariant |
| `WriterRuns.RunKeeps` | pkg/fgo/log_writer.go:414-439 | every run keeps the invariant and only extends what was routed, started, acknowledged and answered |
| `WriterRuns.LaneSplits` | pkg/fgo/log_writer.go:441-605 | a bucket's writes are its answered, in-flight, pending and open ones, in that order |
| `WriterServer.StoredOnceInOrder` | pkg/fgo/writer_retry.go:75-111 | for one bucket, the log's own records are those of a prefix of the routed writes that includes all acknowledged ones |
| `WriterServer.ReportedOffsets` | pkg/fgo/log_writer.go:658-679 | a known reported offset is where the write's records stand in the log |
| `WriterServer.SendKeeps` | pkg/fgo/writer_retry.go:75-111 | another attempt sends the same call and keeps the link between writer and server |
| `WriterServer.DeliverKeeps` | pkg/fgo/writer_retry.go:75-111 | any delivery of anything ever sent, in any order and number, keeps the link |
| `WriterServer.ReceiveKeeps` | pkg/fgo/writer_retry.go:85-97 | success, duplicate and error replies end or continue the attempts without breaking the link |
| `WriterServer.BreakKeeps` | pkg/fgo/writer_retry.go:92-107 | a lost reply, a deadline or an encoding error keeps the link |
| `WriterServer.FinishLinked` | pkg/fgo/log_writer.go:574-605 | handing a call's outcome to the scheduler keeps sequence numbers and the server's log aligned |
| `WriterLoopProofs.AddKeeps` | pkg/fgo/log_writer.go:441-490 | adding a write keeps the scheduler's invariant and accounts for it once, in the bucket its routing says or turned away |
| `WriterLoopProofs.AddMutationKeeps` | pkg/fgo/kv_writer.go:503-548 | a mutation joins only a batch of its own target columns that it fits |
| `WriterLoopProofs.AddArrowKeeps` | pkg/fgo/log_writer.go:451-456 | an Arrow write closes the open batch and is a batch of its own |
| `WriterLoopProofs.PlaceKeeps` | pkg/fgo/log_writer.go:461-471 | a placed row keeps the open batch below its limits or closes it, and a sticky writer moves on |
| `WriterLoopProofs.FlushKeeps` | pkg/fgo/log_writer.go:510-524 | closing a batch keeps the invariant, changes no other bucket's writes, and queues or fails the batch |
| `WriterLoopProofs.QueueKeeps` | pkg/fgo/log_writer.go:616-623 | closing all batches leaves none open and routes nothing |
| `WriterLoopProofs.DispatchKeeps` | pkg/fgo/log_writer.go:526-548 | dispatching keeps the invariant and leaves no request slot idle while a bucket could use it |
| `WriterLoopProofs.FinishKeeps` | pkg/fgo/log_writer.go:574-605 | a completion keeps the invariant and touches no other bucket's writes |
| `WriterFlush.QueueReports` | pkg/fgo/log_writer.go:616-623 | closing all batches reports an error exactly when a write was failed by it |
| `WriterFlush.CompletionReports` | pkg/fgo/log_writer.go:574-605 | a completion reports an error exactly when a write was failed by it |
| `WriterFlush.CompletionProgress` | pkg/fgo/log_writer.go:607-614 | every completion leaves strictly less to do |
| `WriterFlush.NothingWaits` | pkg/fgo/log_writer.go:607-614 | when no call runs after all batches were closed, nothing is open, pending or active |
| `WriterFlush.DrainedAnswered` | pkg/fgo/log_writer.go:607-614 | in a drained writer every routed write has its answer |
| `WriterLanes.SucceedKeeps` | pkg/fgo/log_writer.go:597-602 | a success advances the sequence, answers the batch in order, and keeps one bucket's accounts |
| `WriterLanes.FailKeeps` | pkg/fgo/log_writer.go:587-596 | a failure poisons the bucket, answers the batch and its queue, and keeps the accounts |
| `WriterLanes.CloseKeeps` | pkg/fgo/log_writer.go:510-524 | a closed batch is queued, or failed at once in a poisoned bucket, and every write stays accounted for |
| `WriterLanes.StartKeeps` | pkg/fgo/log_writer.go:533-539 | a started call takes the oldest queued batch and the current sequence number |
| `WriterScheduler.Scheduler.DispatchCalls` | pkg/fgo/log_writer.go:526-548 | the nested sweeps over the tables do what the scheduler's dispatch operation does |
| `WriterScheduler.Scheduler.Flush` | pkg/fgo/log_writer.go:510-524 | on the tables: the bucket's batch is queued and dispatched, or failed, and the returned error says which |
| `WriterScheduler.Scheduler.HandleCompletion` | pkg/fgo/log_writer.go:574-605 | on the tables: release, acknowledge or poison, answer, dispatch |
| `WriterScheduler.Scheduler.QueueAll` | pkg/fgo/log_writer.go:616-623 | on the tables: every open batch is closed, errors joined |
| `WriterScheduler.Scheduler.FlushAll` | pkg/fgo/log_writer.go:607-614 | terminates for any completions, drains every bucket, and returns nil exactly when every write unresolved at its start succeeded |
| `WriterScheduler.Scheduler.AddWrite` | pkg/fgo/log_writer.go:441-472 | on the tables: assignment, full batches, immediate flush, sticky advance, Arrow and target-column cases |
| `WriterScheduler.Scheduler.AddRowTo` | pkg/fgo/log_writer.go:474-490 | on the tables: a row that does not fit closes the batch, and a sticky writer asks for the next bucket |
| `WriterScheduler.Scheduler.AddArrowTo` | pkg/fgo/log_writer.go:451-456 | on the tables: the open batch is closed, then the Arrow write as its own batch |
| `WriterScheduler.Scheduler.AssignBucket` | pkg/fgo/log_writer.go:710-718 | round robin and sticky assignment |
| `WriterScheduler.CompleteBatch` | pkg/fgo/log_writer.go:658-679 | every write of a batch is answered in order, each with the offset of its own first record |
| `WriterScheduler.CompleteQueued` | pkg/fgo/log_writer.go:590-596 | every write of every queued batch is failed, in order |
| `WriterRetry.ExecuteAttempts` | pkg/fgo/writer_retry.go:75-111 | attempts run up to the first that succeeds, is a duplicate, cannot be retried, is the last, or loses its context; the result is that attempt's |
| `WriterRetry.RetryLookup` | pkg/fgo/lookup_scheduler.go:167-196 | with at least one attempt allowed, one is made; all before the last were retryable failures; it succeeds exactly when the last was delivered, and gives up only on a mutation, at the maximum or on a failure not to be retried; with none allowed it fails |
| `WriterRetry.WriteFuture.Complete` | pkg/fgo/write_future.go:39-47 | the first completion sets the result and frees the slot, later ones change nothing |
| `RowRoundTrip.RoundTrip` | pkg/fgo/row_codec.go:137-227 | decoding an encoded row gives the row back if and only if the header is within the limit and the row is canonical, for both layouts and any nesting |
| `RowAcceptance.EncoderAcceptsExactly` | pkg/fgo/row_codec.go:137-173 | a row is encoded if and only if schema and row are valid, every decimal at every level is a whole number of units within its precision, of either sign, every indexed CHAR and BINARY cell is within its length and nothing is over the size limit; its length is then what types and values say |
| `RowAcceptance.RoundTripExactly` | pkg/fgo/row_codec.go:137-227 | for every schema and row: it is encoded and comes back as it was if and only if it is accepted and canonical and its header is within the limit |
| `RowAcceptance.UnscaledExactly` | pkg/fgo/row_value_codec.go:460-477 | a decimal is accepted exactly when its value in units is whole and within the precision, and is stored as that number |
| `RowAcceptance.ArrayAccepted` | pkg/fgo/binary_array_codec.go:12-55 | the same for arrays: count, fixed part and every element |
| `RowAcceptance.KeyAcceptedExactly` | pkg/fgo/row_codec.go:114-135 | the same for keys |
| `RowFixtures.CompactedFixture` | pkg/fgo/row_codec_test.go:55-64 | the compacted bytes of Fluss's fixture row |
| `RowFixtures.IndexedFixture` | pkg/fgo/row_codec_test.go:65-71 | its indexed bytes |
| `RowRoundTrip.DecodeAfterEncode` | pkg/fgo/row_codec.go:137-227 | decoding any encoded row gives its canonical form, or an error exactly for an oversized header |
| `RowRoundTrip.CanonFixpoint` | pkg/fgo/row_value_codec.go:217-345 | a value equals its canonical form exactly when it has no trailing zero, no finer instant and no wider one, at every level |
| `RowRoundTrip.CompactedReads` | pkg/fgo/row_value_codec.go:14-215 | wherever a compacted value stands in a buffer, reading there gives it back and ends right after it |
| `RowRoundTrip.IndexedReads` | pkg/fgo/row_value_codec.go:217-345 | the same for indexed values with their stored length |
| `RowRoundTrip.NestedReads` | pkg/fgo/binary_array_codec.go:88-138 | nested arrays, maps and rows come back in canonical form |
| `RowRoundTrip.ArrayReads` | pkg/fgo/binary_array_codec.go:12-86 | binary arrays come back element by element, nulls included |
| `RowRoundTrip.PackedReads` | pkg/fgo/binary_array_codec.go:326-355 | bytes packed into a slot or appended after it are told apart and read back |
| `RowRoundTrip.WallClockIsInstant` | pkg/fgo/row_value_codec.go:432-458 | reading a timestamp through wall-clock fields gives the instant back |
| `RowRoundTrip.DecimalRoundTrip` | pkg/fgo/row_value_codec.go:460-482 | an accepted decimal is its unscaled integer over the scale's power of ten |
| `RowDecoder.DecodedRowIsValid` | pkg/fgo/row_codec.go:195-227 | whatever bytes the decoder accepts, the row it returns fits the schema |
| `RowDecoder.DecodedRowTiles` | pkg/fgo/row_codec.go:195-227 | header and columns of an accepted buffer lie side by side and cover it to the last byte |
| `RowLoops.EncodeRowLoop` | pkg/fgo/row_codec.go:137-173 | the loop that sets null bits and lengths in place and appends values computes the closed form, errors included |
| `RowLoops.DecodeRowLoop` | pkg/fgo/row_codec.go:195-227 | the decoding loop computes the positional reader's result |
| `RowLoops.EncodeArrayLoop` | pkg/fgo/binary_array_codec.go:12-55 | in-place bits and slots and appended tails are the closed form |
| `RowLoops.DecodeArrayLoop` | pkg/fgo/binary_array_codec.go:57-86 | the element loop computes the positional reader's result |
| `Bytes.AppendVar64` | pkg/fgo/row_codec.go:310-316 | the loop appends the base-128 groups |
| `Bytes.ReadVarLoop` | pkg/fgo/row_codec.go:318-332 | the loop reads the groups in a 64-bit word, with its length and bounds errors |
| `Bytes.ReadVar64` | pkg/fgo/row_codec.go:310-332 | reading undoes appending for every 64-bit value, and ends right after it |
| `Bytes.ReadLengthBytesOf` | pkg/fgo/row_codec.go:334-349 | length-prefixed bytes come back and end right after themselves |
| `SignedBytes.RoundTrip` | pkg/fgo/row_value_codec.go:484-518 | signedBigInt undoes signedBigEndian for every integer |
| `SignedBytes.RepairsUnreachable` | pkg/fgo/row_value_codec.go:484-507 | the repairs after the width computation never happen |
| `SignedBytes.EncodedWidth` | pkg/fgo/row_value_codec.go:484-507 | the exact number of bytes of every integer |
| `SignedBytes.LowerEndNotMinimal` | pkg/fgo/row_value_codec.go:484-507 | zero and every -2^(8k-1) take one byte more than some bytes that decode to them |
| `SignedBytes.MinimalExactlyWhen` | pkg/fgo/row_value_codec.go:484-518 | no shorter bytes decode to an integer if and only if it is neither zero nor a -2^(8k-1) |
| `SignedBytes.DecimalFits16` | pkg/fgo/binary_array_codec.go:161-171 | every decimal of precision at most 38 fits the 16 bytes an array slot reserves |
| `KeyCodec.PrefixIff` | pkg/fgo/row_codec.go:99-135 | for canonical keys, a prefix's bytes begin a key's bytes if and only if the prefix begins the key |
| `KeyCodec.DistinctKeys` | pkg/fgo/row_codec.go:81-135 | canonical keys have equal bytes exactly when they are equal |
| `KeyCodec.PrefixBytesDetermine` | pkg/fgo/row_codec.go:99-135 | for any keys, bytes that begin a key's bytes come from a prefix equal to the key's as stored |
| `KeyCodec.KeyReads` | pkg/fgo/row_codec.go:114-135 | key bytes are self-delimiting: reading one value per column gives the key and its end |
| `KeyCodec.EncodeKeyLoop` | pkg/fgo/row_codec.go:114-135 | the appending loop, with its null, value and size errors |
| `RecordBatch.KVRoundTrip` | pkg/fgo/record_batch.go:55-134 | a KV batch is encoded exactly when all of it is within the limit, and every field and record comes back |
| `RecordBatch.KVRoundTripExact` | pkg/fgo/record_batch.go:55-134 | it comes back unchanged if and only if no put is empty |
| `BatchAcceptance.KVAcceptedExactly` | pkg/fgo/record_batch.go:55-83 | a KV batch is encoded if and only if header and records are within the limit, by their sizes, and is that long |
| `BatchAcceptance.AcceptedKV` | pkg/fgo/record_batch.go:87-134 | accepted bytes have the right length, version and checksum, and their records lie side by side to the last byte |
| `BatchAcceptance.CorruptKVRefused` | pkg/fgo/record_batch.go:87-98 | bytes that no longer have their checksum are refused |
| `RecordBatch.KVFitsExactly` | pkg/fgo/record_batch.go:65-79 | the record-by-record checks amount to one bound on the whole batch |
| `RecordBatch.UpsertNeverDelete` | pkg/fgo/kv_writer.go:195-216 | an encoded row is never read back as a delete |
| `RecordBatch.KVBatchBounded` | pkg/fgo/record_batch.go:55-83 | an encoded KV batch is at most 28 bytes above the sizes the writer added up |
| `LogBatch.LogRoundTrip` | pkg/fgo/record_batch.go:159-303 | a log batch of either version comes back exactly when it is within the limit, in canonical form |
| `BatchAcceptance.LogAcceptedExactly` | pkg/fgo/record_batch.go:159-213 | a log batch is encoded if and only if its version and changes are known and every row is acceptable, and is as long as its header and rows |
| `BatchAcceptance.AcceptedLog` | pkg/fgo/record_batch.go:217-303 | accepted bytes have a known version, the right length and checksum, and records side by side to the last byte, each at its own offset |
| `BatchAcceptance.CorruptLogRefused` | pkg/fgo/record_batch.go:250-269 | bytes that no longer have their checksum are refused |
| `LogBatch.LogRecordComesBack` | pkg/fgo/record_batch.go:271-303 | record k comes back at base offset plus k, and unchanged if and only if its row is canonical |
| `LogBatch.LogFrameReads` | pkg/fgo/record_batch.go:250-269 | every header field of both versions stands where the decoder looks for it |
| `RecordLoops.EncodeKVLoop` | pkg/fgo/record_batch.go:55-83 | fields stored at byte offsets, records appended, length and checksum last: the closed form |
| `RecordLoops.DecodeKVLoop` | pkg/fgo/record_batch.go:87-112 | the record loop computes the positional reader's result |
| `RecordLoops.EncodeLogLoop` | pkg/fgo/record_batch.go:159-213 | the same for log batches of both versions |
| `RecordLoops.DecodeLogLoop` | pkg/fgo/record_batch.go:217-248 | the record loop computes the positional reader's result |
| `FetchDecode.FetchDeliversExactly` | pkg/fgo/log_scanner_decode.go:50-93 | of any framed batches that decode and have non-decreasing bases, cut at any byte, each offset from the fetch offset on that lies in a whole batch is delivered once, in increasing order, below the next offset, with its content |
| `FetchDecode.AlwaysIncreasing` | pkg/fgo/log_scanner_decode.go:292-313 | whatever order the batches come in, delivered offsets strictly increase below the next offset |
| `FetchDecode.CutStream` | pkg/fgo/log_scanner_decode.go:224-236 | a stream cut anywhere decodes as its whole batches do |
| `LogFetch.EncodedIsFramed` | pkg/fgo/record_batch.go:159-213 | every encoded log batch has the length field the framing reads |
| `LogFetch.EncodedDecodes` | pkg/fgo/log_scanner_decode.go:50-93 | the fetch decoder turns an encoded batch into its records, in canonical form, at their offsets |
| `LogFetch.EncodedFetchDelivers` | pkg/fgo/log_scanner_decode.go:50-93 | encode any row batches of non-decreasing offsets, cut the bytes anywhere, fetch from any offset: every record of a whole batch from there on is delivered once, in order, in canonical form |
| `FetchDecode.DecodeFetchedLoop` | pkg/fgo/log_scanner_decode.go:50-93 | the loop over the response computes the recursive decoder's result, errors and cut tail included |
| `ScanBounds.BoundsExact` | pkg/fgo/log_scanner_bounds.go:26-124 | for non-overlapping segments in offset order, the returned records are the longest front below the stop and within the remaining rows, counted right, and next is just past them |
| `ScanBounds.ArrowsAccounted` | pkg/fgo/log_scanner_bounds.go:98-124 | every Arrow batch is handed on whole or released, once |
| `ScanBounds.InOrderSorts` | pkg/fgo/log_scanner_bounds.go:76-86 | segments are put in offset order |
| `ScanBounds.InOrderStable` | pkg/fgo/log_scanner_bounds.go:76-86 | segments of equal offset keep their order |
| `ScanBounds.ApplyBounds` | pkg/fgo/log_scanner_bounds.go:26-52 | the loop over segments returns the bounded rows, batches, count and next offset, and releases exactly the batches to be released |
| `ScanBounds.BoundedScan.AppendRow` | pkg/fgo/log_scanner_bounds.go:88-96 | one row against stop and remaining rows |
| `ScanBounds.BoundedScan.AppendArrow` | pkg/fgo/log_scanner_bounds.go:98-124 | one Arrow batch kept whole, or sliced and released, or released |
| `ScanBounds.LatestExact` | pkg/fgo/batch_scanner_decode.go:56-92 | exactly the last limit records in offset order are kept, every Arrow batch handed on or released once |
| `ScanBounds.LimitLatest` | pkg/fgo/batch_scanner_decode.go:56-92 | the skipping loop returns those records and releases those batches |
| `LogScan.HonestDecodes` | pkg/fgo/log_scanner_decode.go:50-93 | an answer of stored batches without gaps decodes to the log from the fetch offset on, without gap or overlap |
| `LogScan.OrderRestored` | pkg/fgo/log_scanner_bounds.go:76-86 | sorting the separated rows and Arrow batches restores decode order |
| `ScanRuns.LogScanner.PollAll` | pkg/fgo/log_scanner.go:324-362 | the poll loop over buckets, with its early ends and errors, computes the poll operation |
| `ScanRuns.LogScanner.PollOne` | pkg/fgo/log_scanner.go:395-472 | fetch, decode, bound and advance for one bucket, whatever others do to the scanner meanwhile |
| `ScanRuns.LogScanner.RecordFetchError` | pkg/fgo/log_scanner.go:474-498 | a failed fetch ends the poll if the caller gave up or the scanner was closed or woken, and a wakeup is used up by it |
| `ScanRuns.LogScanner.SubscribeAt` | pkg/fgo/log_scanner.go:294-313 | a known bucket of an open scanner is set to the offset and done is recomputed |
| `ScanRuns.LogScanner.Unsubscribe` | pkg/fgo/log_scanner.go:316-321 | the bucket is gone and done is recomputed |
| `ScanRuns.LogScanner.Wakeup` | pkg/fgo/log_scanner.go:518-528 | a wakeup is pending unless the scanner is closed or done |
| `ScanRuns.LogScanner.CloseScanner` | pkg/fgo/log_scanner.go:531-538 | the scanner is closed and has no subscriptions |
| `ScanRuns.LogScanner.Advance` | pkg/fgo/log_scanner.go:500-508 | the offset moves only if nobody else moved it, delivered rows are added, done is recomputed |
| `ScanRuns.LogScanner.UpdateDone` | pkg/fgo/log_scanner.go:563-582 | done means the row limit is reached or every subscribed bucket is at its stop |
| `ScanDelivery.ScanDeliversTheLog` | pkg/fgo/log_scanner.go:324-362 | over any run without resubscription whose failed polls moved no bucket still subscribed, with drops, wakeups and close at any moment, a bucket's delivered records are exactly its log from its start offset to its current offset, each once, in order |
| `ScanStops.NothingPastTheStop` | pkg/fgo/log_scanner_bounds.go:62-124 | whatever the scanner's state and the servers' answers, a poll hands out no record at or past a bucket's stopping offset |
| `ScanStops.PollStopsAtStops` | pkg/fgo/log_scanner_bounds.go:45-48 | failed or not, a poll moves no bucket past its stop |
| `ScanStops.PollReaches` | pkg/fgo/log_scanner.go:340-361 | without a row limit a poll takes every subscribed bucket to its stop or the end of its answer, and leaves those at their stops alone |
| `ScanStops.PollTakes` | pkg/fgo/log_scanner.go:340-361 | an undisturbed poll hands out as many records as the answers hold up to the stops, or as many as the row limit still allows |
| `ScanStops.DoneExactlyWhen` | pkg/fgo/log_scanner.go:563-582 | in any run at all an open scanner is done exactly when the row limit or all its stops are reached |
| `ScanStops.DoneMeansDelivered` | pkg/fgo/log_scanner.go:324-362 | a bounded scan that is done has delivered every bucket's log from its start to its stop, each record once, in order |
| `ScanStops.SubscriptionsCount` | pkg/fgo/log_scanner.go:294-321 | a subscribed bucket is fetched from its new offset unless its stop is there, a dropped one is not, others are untouched |
| `ScanDelivery.FailureExact` | pkg/fgo/log_scanner.go:352-355 | a failed poll keeps delivered records and offsets in step if and only if it moved no bucket still subscribed |
| `ScanFailures.PollMoves` | pkg/fgo/log_scanner.go:340-361 | in any poll, failed or not, a bucket still subscribed left its offset if and only if its fetch was made before the poll ended, decoded, and passed the bounds with a different next offset |
| `ScanFailures.FailedPollKeepsOffsets` | pkg/fgo/log_scanner.go:352-355 | a failed poll leaves every subscribed bucket where it was if and only if none of the buckets it moved is still subscribed |
| `ScanFailures.EarlyFailureIsHarmless` | pkg/fgo/log_scanner.go:364-386 | a poll of a scanner closed, woken or without subscriptions, and one whose first fetch fails it, moves nothing |
| `ScanFailures.WakeupInterruptsOnce` | pkg/fgo/log_scanner.go:518-528 | a wakeup fails the next poll before it fetches, and no other |
| `ScanFailures.ClosedForGood` | pkg/fgo/log_scanner.go:531-538 | a closed scanner fails every later poll |
| `ScanFailures.FailedPollLosesRecords` | pkg/fgo/log_scanner.go:352-355 | a poll that fails at a later bucket returns nothing though an earlier bucket's offset has moved |
| `ScanFailures.ResubscribedStays` | pkg/fgo/log_scanner.go:500-508 | a bucket subscribed anew during its fetch stays where it was put |
| `ScanDelivery.PollDelivers` | pkg/fgo/log_scanner.go:340-361 | one poll extends every bucket's delivered records by exactly the log its offset moved over |
| `ScanDelivery.BoundsDeliver` | pkg/fgo/log_scanner_bounds.go:26-52 | bounding contiguous records keeps a contiguous front that ends at the stop, the row limit or the answer's end, whichever comes first |
| `ScanLimit.RowLimitHolds` | pkg/fgo/log_scanner_bounds.go:62-96 | in any run at all, with failed polls, resubscriptions, wakeups and close at any moment, no more records are handed out than the row limit |
| `LookupRuns.ClosedLeavesNothing` | pkg/fgo/lookup_scheduler.go:98-114 | when the scheduler has stopped, every accepted task has its result and only callers on their way in hold slots |
| `LookupRuns.ResultsNeverChange` | pkg/fgo/lookup.go:155-162 | a result, once given, is never given again or changed |
| `LookupRuns.QueueNeverBlocks` | pkg/fgo/lookup.go:307-345 | a caller with a slot always finds room in the queue; held slots are the uncompleted tasks and those on their way in |
| `LookupRuns.AnswersAreTheBackends` | pkg/fgo/lookup_scheduler.go:116-248 | a successful task has an answer the backend gave about that task's key, in a request of that task's mode to its bucket, despite grouping, splitting, cancellation and reordering |
| `LookupAnswers.EveryResultHasItsCause` | pkg/fgo/lookup_scheduler.go:27-139 | in every run a task is completed exactly when some step decides it, with the answer or error of the first that does: its answer in its request, a caller gone, a failed or miscounted reply, or closing, which needs Close |
| `LookupAnswers.ReplyReachesTasks` | pkg/fgo/lookup_scheduler.go:212-248 | a reply with one answer a key gives the k-th task, unless completed before, the k-th answer; any other fails them |
| `LookupAnswers.StepDecides` | pkg/fgo/lookup_scheduler.go:27-139 | every step completes the tasks it decides, those only, and as it decides |
| `LookupAnswers.IdleHoldsNoFullGroup` | pkg/fgo/lookup_scheduler.go:36-46 | an idle scheduler holds back no full group, and nothing without a batch timeout |
| `LookupAnswers.TickSendsAll` | pkg/fgo/lookup_scheduler.go:47-54 | when the scheduler is idle again after a timer tick, every group has been sent |
| `LookupRuns.RequestsAreFormed` | pkg/fgo/lookup_scheduler.go:78-165 | every request in flight asks for 1 to MaxBatchKeys keys, the k-th being the k-th waiting task's, all of one mode and bucket, with at most MaxInFlightRequests of them |
| `LookupShutdown.CloseFinishes` | pkg/fgo/lookup_scheduler.go:98-114 | in whatever order scheduler and workers take their steps, a closed scheduler stops, with every accepted task completed |
| `LookupShutdown.ShutdownNeverStuck` | pkg/fgo/lookup_scheduler.go:98-114 | until it has stopped a closed scheduler has a step to take |
| `LookupShutdown.OwnStepSinks` | pkg/fgo/lookup_scheduler.go:27-139 | on a closed scheduler every step of scheduler and workers leaves strictly less to do |
| `LookupShutdown.CallersAddNothing` | pkg/fgo/lookup.go:307-345 | callers of a closed scheduler add nothing to do |
| `LookupRuns.StepKeeps` | pkg/fgo/lookup_scheduler.go:27-139 | every step of callers, scheduler and workers keeps the invariant: no taken task is lost, batches are of one group and within the limit, requests list their tasks' keys in order |
| `LookupLoops.KeepActive` | pkg/fgo/lookup_scheduler.go:116-126 | the worker's in-place filter keeps the waiting tasks at the front in order and hands back the others |
| `LookupLoops.EncodedKeys` | pkg/fgo/lookup_scheduler.go:198-204 | a request's keys are its tasks', in order |
| `LookupLoops.Completions.CompleteOnce` | pkg/fgo/lookup.go:155-162 | the first completion sets the result and frees the slot, later ones change nothing |
| `LookupLoops.Completions.CompleteTasks` | pkg/fgo/lookup_scheduler.go:212-248 | completing a request's tasks from its reply does what the finishing step does |
| `LookupLoops.ChunksExact` | pkg/fgo/lookup_scheduler.go:78-96 | a group's batches hold its tasks, all, in order, none empty and none over the limit |
| `LookupLoops.SendGroup` | pkg/fgo/lookup_scheduler.go:78-96 | the sending loop, uninterrupted, sends those batches |
| `Coalescer.RegisteredIsLive` | pkg/fgo/coalescer.go:34-80 | a registered call is unfinished and its count is its callers that have not returned, at least one |
| `CoalescerRuns.WorkDecides` | pkg/fgo/coalescer.go:82-106 | when a step ends a call's work, every answered caller of that call has its value or its error, or the closing error exactly if Close came before |
| `CoalescerRuns.AnswerHasWork` | pkg/fgo/coalescer.go:65-80 | every answer is the outcome of some work on the caller's own call |
| `CoalescerRuns.JoinsOwnKey` | pkg/fgo/coalescer.go:47-63 | a caller joins a call of its own key, and is refused exactly after Close |
| `CoalescerRuns.SharesTheCall` | pkg/fgo/coalescer.go:47-63 | a caller shares the call of every caller of its key that waits for unfinished work, and starts one if there is none |
| `CoalescerRuns.OneCallPerKey` | pkg/fgo/coalescer.go:34-63 | callers of one key that wait for unfinished work wait for the same work |
| `CoalescerRuns.ReturnsAsItLeft` | pkg/fgo/coalescer.go:65-80 | a caller that saw the call done is answered, one whose context ended is gone without an answer |
| `Coalescer.AnswersArePublished` | pkg/fgo/coalescer.go:65-80 | a Do that returns a result returns what its own call published |
| `Coalescer.DisposedOrClaimed` | pkg/fgo/coalescer.go:82-134 | without Close, a successful value is claimed and never disposed, or disposed exactly once when the last caller has left |
| `Coalescer.DisposedTwiceExactlyWhen` | pkg/fgo/coalescer.go:100-132 | with Close, a value is disposed twice exactly when its call succeeded after Close with callers waiting who all left without it |
| `Coalescer.DoubleDisposalHappens` | pkg/fgo/coalescer.go:100-132 | join, close, finish, leave disposes twice |
| `Coalescer.SharedCalls.Enter` | pkg/fgo/coalescer.go:47-63 | joining the key's call or registering a new one |
| `Coalescer.SharedCalls.Publish` | pkg/fgo/coalescer.go:88-106 | publishing, deregistering, and disposing what nobody will take |
| `Coalescer.SharedCalls.Release` | pkg/fgo/coalescer.go:108-134 | leaving: the last one cancels the call or disposes its value |
| `RemoteLog.PlanExact` | pkg/fgo/remote_file.go:162-198 | a plan is made exactly for a gapless chain of valid segments within all limits, and counts its bytes |
| `RemoteLog.PlanIgnoresOrder` | pkg/fgo/remote_file.go:170-172 | any listing and any tie-breaking of the sort give the same plan |
| `RemoteLog.PlanLoop` | pkg/fgo/remote_file.go:173-198 | the planning loop computes that plan |
| `RemoteLog.DestinationsTile` | pkg/fgo/remote_file.go:209-221 | the destinations lie side by side and fill the output buffer |
| `RemoteAssembly.Assemble` | pkg/fgo/remote_file.go:200-240 | in whatever order the downloads end, the buffer then is the segments' bytes one after the other, without those before the first position |
| `RemoteAssembly.PlanCounts` | pkg/fgo/remote_file.go:173-198 | a plan's size is that of all segments' bytes less the skipped ones, and the total limit is on that |
| `RemoteLog.RunDownloads` | pkg/fgo/remote_download.go:32-55 | when it returns, with or without error, every job started has ended, once; without error all jobs were; it fails exactly when a job failed, the context ended or some job is over the byte budget |
| `RemoteLog.Downloads.StartReady` | pkg/fgo/remote_download.go:61-73 | jobs start in order while both budgets allow; counts and bytes are those of the running jobs |
| `RemoteLog.Downloads.AwaitCompletion` | pkg/fgo/remote_download.go:85-101 | one job ends or the context does; the first error stays |
| `Routing.RowKey` | pkg/fgo/kv_writer.go:267-279 | the key a mutation is routed by is what stands in its key columns, wherever those are |
| `Routing.PointFollowsWriter` | pkg/fgo/lookup.go:347-359 | a point lookup of a row's key goes where the writer put the row, and fails when the writer does |
| `Routing.PrefixFollowsKey` | pkg/fgo/lookup.go:361-403 | the writer of a row, a point lookup of its key and every accepted prefix lookup of it go to the same bucket of the list |
| `RoutingAcceptance.PrefixAcceptedExactly` | pkg/fgo/lookup.go:361-403 | a prefix is routed if and only if it is not empty, covers a bucket key that leads the primary key, is encodable, and there are buckets |
| `RoutingAcceptance.PointAcceptedExactly` | pkg/fgo/lookup.go:347-359 | a key is routed if and only if it and its bucket columns are encodable and there are buckets |
| `Routing.PrefixBytesFollowKey` | pkg/fgo/row_codec.go:99-135 | a prefix's bytes begin the bytes of every key under it |
| `Routing.BucketIndex` | pkg/fgo/bucket.go:27-34 | the hash index is inside the list; only an empty key or an empty list is refused |
| `Routing.Magnitude` | pkg/fgo/bucket.go:49-60 | negative hashes are negated, the one without a negation becomes zero, and the result is never negative |
| `Routing.HashBytesLoop` | pkg/fgo/bucket.go:36-47 | whole words, then signed tail bytes, then length and finalization |
| `Hashing.BucketFollowsPieces` | pkg/fgo/bucket.go:27-60 | a key's bucket is the twice-mixed hash of its words, tail bytes and length, modulo the number of buckets |
| `Hashing.NearKeysNeverCollide` | pkg/fgo/bucket.go:36-77 | keys of one length that differ in one word or one tail byte have different hashes |
| `Hashing.MixInjective` | pkg/fgo/bucket.go:62-69 | mixing in a value loses neither the hash so far nor the value |
| `Hashing.FinalInjective` | pkg/fgo/bucket.go:71-77 | finalization loses nothing |
| `Hashing.SecondHashPairs` | pkg/fgo/bucket.go:49-60 | first hashes with one bucket hash are opposite before the sign is dropped, but for zero |
| `Hashing.WordIs` | pkg/fgo/bucket.go:39-41 | words are little-endian |
| `Hashing.SignIs` | pkg/fgo/bucket.go:42-44 | tail bytes are taken as signed |
| `Hashing.FixtureFluss` | pkg/fgo/log_writer_test.go:109-122 | the hash of Fluss's fixture key |
| `Routing.TargetKeyInjective` | pkg/fgo/kv_writer.go:735-742 | two target lists have the same map key exactly when they are the same |
| `Routing.TargetKeyLoop` | pkg/fgo/kv_writer.go:735-742 | the builder loop writes every target in decimal followed by a comma |

## Left out

- Sequence numbers are unbounded here; the source's int32 counter would wrap after 2^31 batches of one bucket.
- The offsets an upsert batch reports, counted back from the server's log end, depend on how many log records the server writes for a mutation, and are not modelled; the rest of the upsert writer is the same scheduler.
- One scheduler class stands for the append writer and the upsert writer: for append writes, whose target list is empty, the target-column check never closes a batch.
- Filtered fetches (a filtered end offset beyond the last record) and logs with gaps: delivery is stated for contiguous, unfiltered logs.
- Subscribing again during a run is in `ScanRuns` and `ScanLimit` but not in `ScanDelivery`, whose claim is about runs without it.
- Releasing decoded Arrow batches when a later batch of the same response fails to decode.
- The lookup scheduler's table of groups and its channels are modelled on values, as steps; only its loops and completions are imperative, so aliasing of task lists is not captured.
- Schema resolution, evolution and projection of decoded rows and batches, and Arrow payload decoding.
- The choice between hashing a row's bucket key and the no-key assigner in the append writer is an input of `WriterLoop.Add`; the hashing itself is in `Routing`, for the columns of a primary key.
- Column and field names in schemas, except where `Routing` follows them.
- Backoff durations, request timeouts, pressure throttling, metrics and real clocks: they are steps that may happen or not.
- Filling a remote segment's destination, its retries, and tokens; only sizes, budgets and positions are modelled.
- Connection management, authentication, protobuf messages, administration calls, filesystem adapters and typed wrappers.
