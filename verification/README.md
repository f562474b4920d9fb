# OpenData: verified models of the buffer queue, the log and the time-series index

A Dafny model of three stateful cores of the repository, with proofs about whole runs.

**The buffer queue** (`buffer/`). Producers, consumer incarnations and garbage collectors share
one manifest object through read, modify, conditional write. `Manifest.dfy` models the
byte-level manifest as a class over its buffers and refines it to a plain record;
`QueueCodec.dfy` is its entry codec, `Utf8.dfy` the text encoding of locations. `BufferProtocol.dfy` is the protocol as a transition
system in which every read and every conditional write is one step and any actor may move
between two steps of another. `BufferHistory`, `BufferFencing`, `BufferDelivery` and `BufferGc`
prove what every run keeps: one append-only history, fencing, exactly-once delivery, no dangling
entry. `BufferSweep` traces what a collector knew of a file it deletes, and `BufferProgress` shows
what can be done from every reachable state. `BufferBytes` carries the protocol's manifest down to bytes. `BufferBatches` models the
producer's batches, the batch file and the writer task, `BufferActors` the retry loops, the write
of a batch and the consumer object. `BufferAcked` joins them: the code's write of a batch is a
call of the protocol, and a watcher that was told Ok can rely on its entries in every later
state.

**The segmented log** (`log/`, `common/src/sequence.rs`). `KeyEncodings`, `LogKeys` and
`ByteRanges` are the order-preserving byte layer. `LogTable` says what a table of bytes stands
for (reserved block, segments, key listing, records). `Sequence`, `Segments`, `Listing` and
`LogWriter` model the write path, `LogStorage` and `LogReader` the read path, as classes proved
against functions. `LogRuns` is the system: one writer, background durability, a subscriber
behind a watch cell that coalesces and may fail to read segments, readers, crashes that keep a
prefix of the puts, and restarts. `LogGuarantees` has the theorems over all its runs, `LogSealing` those about
the seal interval, `LogProgress` what is still possible from every reachable state, `LogInstance` the opening of a log
and the subscriber task, `LogFailures` what a failed put does to a writer that goes on.

**The time-series delta and label index** (`timeseries/src/delta.rs`, `index.rs`). `LabelIndex`
and `SeriesDelta` model the indexes and the write delta as classes; `SeriesRuns` proves what
holds after any applies and freezes.

## How the environment is modelled

- Object store: a conditional write can go through only while the stored manifest is the one
  that was read. A write or file put that reports an error may have been applied or not; a
  reported conflict was not applied. File names are never reused. Each file a
  collector lists or deletes is one step.
- Downstream of a consumer: the caller writes a batch with its sequence atomically, only the
  newest incarnation's writes are accepted, and a restart resumes from the last committed
  sequence. Callers acknowledge only what is committed.
- Log storage: an ordered map with atomic puts. Each put is numbered; a crash keeps a prefix of
  the puts that includes every durable one.
- Clock, object identifiers, compression and hashing are parameters. Compression is required to
  invert; the hash is arbitrary.

## Where code and documentation disagree

The model follows the code.

- `common/src/bytes.rs:7-11` calls `lex_increment` the smallest string strictly greater than its
  argument. It is the least string above every extension of it (`ByteRanges.SuccessorIsLeast`).
- `log/src/serde.rs:22-35` documents an escape for the byte 0xFF. The code in
  `common/src/serde/terminated_bytes.rs` escapes only 0x00 and 0x01, so encoded keys sort as the
  user keys do (`TerminatedBytes.TerminatedOrder`).
- `timeseries/src/model.rs:21` gives bucket sizes as powers of two hours, the code squares the
  size; only hour buckets are built, and only those are modelled.

## Properties that do not hold as one might expect

- Dequeue drops a leading run of entries. That is the same as removing every entry at or below
  the bound, for all bounds, exactly when sequences ascend (`Manifests.DropIsFilterIffAscending`).
  In reachable manifests they do.
- The garbage collector is safe for writes that land in time exactly when there is a grace period
  (`BufferGc.NeverDanglesIff`): a file dated in the future counts as age zero. Without the timing
  condition no grace period is enough (`BufferGc.LateAppendDangles`).
- The log writer goes on after a failed put. After a put that was not applied its caches still
  describe the storage exactly when the put carried no block, no segment and no new listing record
  (`LogFailures.UnappliedHarmlessIff`). The next append is acknowledged; a restart finds its
  records exactly when the lost put made no segment or the append makes one itself, and keeps
  their numbers exactly when the lost put reserved no block or the append reserves one
  (`LogFailures.RestartAfterLostPut`, with a concrete run in `LogFailures.ForgottenAfterFailedPut`).
  After a put that was applied but reported an error, the next broadcast names the newest segment,
  and a reader that follows it finds the next append, exactly when the put made no segment or the
  next append makes one (`LogFailures.BroadcastAfterUnreportedPut`). In `LogRuns` the writer stops
  after its first failed put, which `log/src/writer.rs:709-711` names as the intended behaviour.
- A subscriber that fails to read the segments moves its snapshot and its watermark all the same.
  A read then returns all of a key's records exactly when none lies in a segment the view does not
  know (`LogGuarantees.ReadsKnownSegments`); `LogGuarantees.UnreadableHides` has a run in which a
  read misses an append it waited for.
- Series fingerprints hash names and values without separators. For every hash, each sample is
  stored under its own labels exactly when no two accepted label lists that differ share a
  fingerprint (`SeriesRuns.OwnLabelsIff`); where the hash itself does not collide on the accepted
  lists, exactly when no two that differ are written the same
  (`SeriesRuns.OwnLabelsIffWritingsDiffer`). The lists a=bc and ab=c are
  (`SeriesRuns.CollisionHidesSeries`).

## Model

| member | source | states |
|---|---|---|
| ByteRanges.LexIncrement | common/src/bytes.rs:28-47 | the in-place truncate-and-increment loop computes `Successor` for every input; the rows below state what that is |
| ByteRanges.PrefixRangeExact | common/src/bytes.rs:62-89 | a key is in the prefix range of `p` if and only if `p` is a prefix of it, for every `p` including empty and all-0xFF ones |
| ByteRanges.SuccessorIsLeast | common/src/bytes.rs:28-47 | the increment is above every extension of its argument, and no smaller string is |
| ByteRanges.SuccessorExists | common/src/bytes.rs:28-47 | an increment is returned if and only if some string is above all extensions, that is unless every byte is 0xFF |
| KeyValueKeys.DecodeInvertsEncode | keyvalue/src/serde.rs:29-71 | decoding inverts encoding; exactly the prefixed keys decode, and each is the encoding of what it decodes to |
| KeyValueKeys.EncodedRangeExact | keyvalue/src/serde.rs:77-99 | an encoded range contains exactly the encodings of the user keys in the user range, for every kind of bound |
| KeyValueKeys.InsideIsPrefixed | keyvalue/src/serde.rs:77-99 | nothing in an encoded range fails to decode |
| TerminatedBytes.Serialize | common/src/serde/terminated_bytes.rs:54-69 | the escaping loop appends the escaped, terminated form |
| TerminatedBytes.Deserialize | common/src/serde/terminated_bytes.rs:82-122 | the scanning loop agrees with the recursive parser on every input, errors included |
| TerminatedBytes.ParseTerminated | common/src/serde/terminated_bytes.rs:54-122 | parsing an encoding followed by anything returns the data and what follows |
| TerminatedBytes.ParseIsCanonical | common/src/serde/terminated_bytes.rs:82-122 | whatever parses is the encoding of its result followed by the rest, so no data has two encodings |
| TerminatedBytes.TerminatedOrder | common/src/serde/terminated_bytes.rs:54-69 | encodings sort as the data does, whatever is appended to them |
| TerminatedBytes.TerminatedPrefixRangeExact | common/src/serde/terminated_bytes.rs:136-146 | the encoded prefix range contains an encoding if and only if the data has the prefix |
| VarInt.Serialize | common/src/serde/varint.rs:320-355 | the shift-and-mask loops, with the 64-bit shift special case, produce the length-coded big-endian form |
| VarInt.Deserialize | common/src/serde/varint.rs:365-405 | the accumulating loop agrees with the parser on every input, errors included |
| VarInt.ParseEncode | common/src/serde/varint.rs:320-405 | parsing inverts encoding for every 64-bit value and consumes exactly the bytes written |
| VarInt.EncodeOrder | common/src/serde/varint.rs:320-355 | encodings sort as the numbers do, whatever is appended to them |
| LogKeys.EntryKeyRoundTrip | log/src/serde.rs:166-209 | decoding a serialized entry key with its segment's start returns the key |
| LogKeys.EntryOrder | log/src/serde.rs:166-174 | serialized entry keys compare by segment, then user key, then sequence, for arbitrary byte keys |
| LogKeys.EntryScanExact | log/src/serde.rs:216-231 | an entry is in the scan range of (segment, key, range) if and only if segment and key match and its sequence is in the range, also where the start saturates |
| LogKeys.SegmentMetaRoundTrip | log/src/serde.rs:252-339 | segment keys and metadata, signed times included, decode to what was encoded |
| LogKeys.SegmentScanExact | log/src/serde.rs:282-286 | a segment record is in an id range exactly when its id is |
| LogKeys.ListingRoundTrip | log/src/serde.rs:369-398 | listing keys decode to their segment and user key |
| LogKeys.ListingScanExact | log/src/serde.rs:404-416 | a listing record is in a segment range exactly when its segment is, whatever the user key |
| LogKeys.SeqBlockRoundTrip | common/src/serde/seq_block.rs:55-84 | a sequence block survives encoding |
| LogKeys.KindsDisjoint | log/src/serde.rs:82-124 | records of different kinds never share a key |
| LogKeys.TypesOfKinds | log/src/serde.rs:82-124 | the type read back from a key is the one of its kind |
| QueueCodec.EncodeEntry | buffer/src/queue.rs:311-343 | appends exactly the entry's bytes, or fails when a payload is over 32 bits |
| QueueCodec.EncodeMetadata | buffer/src/queue.rs:328-343 | the metadata loop appends every item in order, or fails exactly when some payload is too long |
| QueueCodec.DecodeEntryAt | buffer/src/queue.rs:373-482 | the decoder with its moving offset returns the same result and offset as `DecodeEntry` on every byte string, without reading outside the buffer |
| QueueCodec.DecodeMetadataListAt | buffer/src/queue.rs:414-482 | the metadata loop agrees with its recursive form, result and offset, on every byte string |
| QueueCodec.DecodeStaysInside | buffer/src/queue.rs:373-482 | on arbitrary bytes with a footer behind them no read leaves the buffer, and a successful decode advances by at least the smallest entry and stays inside |
| QueueCodec.EntryRoundTrip | buffer/src/queue.rs:311-482 | an encoded entry at any position decodes to itself and consumes exactly its bytes |
| Utf8.ValidIffText | buffer/src/queue.rs:410-411 | the byte strings accepted as locations are exactly the UTF-8 encodings of lists of Unicode scalar values |
| QueueCodec.BatchPathFits | buffer/src/producer.rs:243-244 | an entry that names a batch file below a text prefix fits whenever its lengths do |
| Manifests.SplitEntries | buffer/src/queue.rs:349-370 | the splitting loop removes exactly the leading run at or below the bound and returns where the untouched bytes start; on other bytes it fails or stays inside |
| Manifests.DropIsFilterIffAscending | buffer/src/queue.rs:220-264 | dropping the leading run equals filtering, for all bounds, if and only if sequences ascend |
| Manifests.FindIs | buffer/src/queue.rs:734-743 | the search returns the first entry with the sequence, and nothing if and only if no entry has it |
| Manifests.DequeueBytes | buffer/src/queue.rs:220-264 | the new base buffer is the bytes that stay plus one footer, without re-encoding |
| Manifests.MergedBytes | buffer/src/queue.rs:278-309 | the merged image of base and appended bytes is the image of the record |
| Manifests.Manifest.Empty | buffer/src/queue.rs:84-97 | a new manifest represents the empty record |
| Manifests.Manifest.FromBytes | buffer/src/queue.rs:100-138 | opens exactly the byte strings with a footer of this version; the image of a record opens as that record |
| Manifests.Manifest.Append | buffer/src/queue.rs:208-215 | appending to the buffers is appending to the record under the next sequence, which wraps after 2^64 - 1; fails exactly when a payload is too long, and then counts nothing |
| Manifests.Manifest.Dequeue | buffer/src/queue.rs:220-264 | a valid manifest never fails: copying the remaining bytes is filtering the record, and removed and remaining entries together are the old ones; on other bytes an error changes nothing |
| Manifests.Manifest.SetEpoch | buffer/src/queue.rs:267-273 | patching eight bytes in place changes the epoch of the record and nothing else |
| Manifests.Manifest.ToBytes | buffer/src/queue.rs:278-309 | the bytes written are the image of the represented record; fails only when the entry count is over 32 bits |
| Manifests.Manifest.Iter | buffer/src/queue.rs:174-190 | iterating a manifest's buffers yields all entries of its record, base and appended, in order |
| Manifests.ManifestIter.Next | buffer/src/queue.rs:495-520 | over arbitrary base bytes, yields the pending items one by one and then stops for good, also after errors |
| Manifests.ManifestIter.CollectAll | buffer/src/queue.rs:174-190 | collecting is the pending items' entries, or the first error |
| Manifests.Items | buffer/src/queue.rs:495-520 | at most one item more than the footer's count and the appended entries, on arbitrary base bytes |
| Manifests.ItemsOfBuffers | buffer/src/queue.rs:495-520 | buffers that hold encoded entries yield exactly those, without an error at the end |
| Manifests.ItemsOfImage | buffer/src/queue.rs:174-190 | iterating the image of a record yields exactly its entries |
| Manifests.ParseManifest | buffer/src/queue.rs:820-837 | parsing inverts serializing for every manifest within the field limits; on any accepted bytes it returns the collected entries with the next sequence and epoch of the footer, and it fails on bytes that are not accepted |
| BatchFiles.EncodeBatch | buffer/src/model.rs:40-68 | writes the records, compressed or not, and the footer |
| BatchFiles.DecodeBatch | buffer/src/model.rs:70-113 | agrees with `ReadBatch` on every byte string, all error cases included |
| BatchFiles.BatchRoundTrip | buffer/src/model.rs:40-113 | decoding an encoded batch returns its entries in order, for both compression settings |
| ProducerBatches.Batch.Add | buffer/src/producer.rs:68-137 | the accumulated fields are what the calls so far add up to; an oversized entry changes nothing; a call past the 32-bit count is refused and only its entries and size stay behind |
| ProducerBatches.Batch.Take | buffer/src/producer.rs:139-143 | hands over everything accumulated and leaves an empty batch |
| ProducerBatches.SlicesAreCalls | buffer/src/producer.rs:68-90 | start indices rise strictly from zero and the slices between them are exactly the calls' entries, in order and without remainder |
| ProducerBatches.BatchWriterTask.WriteBatch | buffer/src/producer.rs:219-233 | every buffered call goes out in one batch, is told what the write returned, and that is returned; nobody else is told anything; nobody is told Ok without a written batch that holds the call and a call of the protocol that succeeded with its bytes and metadata |
| ProducerBatches.BatchWriterTask.AddToBatch | buffer/src/producer.rs:199-204 | a call that cannot be encoded is told so at once; any other joins the buffered ones, and if these reach the flush size all are written and told the outcome, otherwise nothing is written |
| ProducerBatches.BatchWriterTask.Handle | buffer/src/producer.rs:183-217 | a flush and the timer write all that is buffered, tell each caller and return the outcome; a produce call does as above; over any event written calls followed by buffered calls are the accepted calls in arrival order |
| BufferActors.Enqueue | buffer/src/queue.rs:643-658 | Ok means exactly one conditional write went through, of the append to the manifest read in the same turn; all earlier turns lost the race; without a write the last turn is missing, unread or read a full manifest; a location, a payload or a manifest over its limit is refused without a write |
| BufferActors.WriteAndEnqueue | buffer/src/producer.rs:235-260 | encodes the batch, puts the file, enqueues it; returns Ok exactly when the same writes end a protocol call in success, and an error exactly when they end it in failure |
| BufferActors.WriteIsCall | buffer/src/producer.rs:235-260 | taking the steps that the code takes, a protocol call that is writing ends in exactly that phase with its location, metadata and content unchanged |
| BufferActors.Consumer.Initialize | buffer/src/queue.rs:699-719 | takes the successor epoch of the manifest it won the race on, never the reserved value; a failure keeps the old epoch |
| BufferActors.Consumer.Dequeue | buffer/src/queue.rs:746-762 | only a manifest with the consumer's own epoch is ever rewritten; fenced exactly when a turn reads another epoch; on Ok the removed entries and the ones kept are those of the manifest |
| BufferActors.Consumer.NextBatch | buffer/src/consumer.rs:100-156 | returns nothing if and only if the manifest has its epoch and no entry with the number after the cursor, or none at all before the first fetch; otherwise the first such entry with its file's entries, and the cursor moves to it; on any error or fence the cursor stays |
| BufferActors.Consumer.Ack | buffer/src/consumer.rs:164-181 | an out-of-order acknowledgement fails and changes nothing; every hundredth accepted one dequeues through its sequence and returns what that returns; any other is Ok without a write |
| BufferActors.Consumer.Flush | buffer/src/consumer.rs:184-189 | dequeues through the last acknowledged sequence and returns what that returns; Ok without a write if there is none |
| BufferHistory.AppendKeepsSuffix | buffer/src/queue.rs:208-215 | an append extends both the manifest and the history |
| BufferHistory.DequeueKeepsSuffix | buffer/src/queue.rs:220-264 | a dequeue leaves a suffix that starts after the bound, or where it did |
| BufferHistory.QueueHistory | buffer/src/queue.rs:643-658 | in every reachable state the manifest is a contiguous suffix of one append-only history ending at the next sequence, every successful enqueue owns exactly one number, and none is assigned twice |
| BufferBytes.AppendBytes | buffer/src/queue.rs:643-658 | reading the stored bytes, appending to the buffers and serializing turns the image of the record into the image of the record with the entry; refused exactly when the manifest is full |
| BufferBytes.DequeueBytes | buffer/src/queue.rs:746-762 | likewise for a dequeue, which returns the entries that the new image lacks |
| BufferBytes.EpochBytes | buffer/src/queue.rs:699-719 | likewise for the epoch of an initialization |
| BufferBytes.StoredImages | buffer/src/queue.rs:643-762 | in every run the stored manifest fits its image and ascends, so the three rows above apply to it, and it changes only by one of the three writes |
| BufferFencing.MatchesIff | buffer/src/queue.rs:699-719 | a consumer's epoch matches the manifest's if and only if its initialization is the latest, counted modulo the number of epochs |
| BufferFencing.Fencing | buffer/src/queue.rs:723-762 | with fewer initializations than epochs, a consumer that is not the latest to initialize never changes the manifest nor reads an entry from it, even when it read before the fence; one never initialized is always fenced |
| BufferFencing.FencedForGood | buffer/src/queue.rs:699-719 | a later initialization is never undone, so a fenced consumer stays fenced |
| BufferDelivery.ExactlyOnce | buffer/src/consumer.rs:59-189 | with crashes at any point the committed batches are exactly a prefix of the history, each with the content its producer wrote, and no entry leaves the manifest before it is committed |
| BufferDelivery.CommitsGrow | buffer/src/consumer.rs:100-189 | what is committed stays committed, in place |
| BufferDelivery.NextIsGiven | buffer/src/consumer.rs:100-128 | in every run the consumer that may commit and is not fenced is given the history's entry right after the last one it fetched, whenever there is one |
| BufferProgress.CanDeliverAll | buffer/src/consumer.rs:59-189 | from every state that a run with writes in time reaches, a consumer that starts anew can initialize, open, and fetch and commit until every batch of the history is committed |
| BufferProgress.CanEnqueue | buffer/src/producer.rs:235-260 | from every such state with room in the manifest a batch under a new name can be written and enqueued, under the next number |
| BufferProgress.CanFlush | buffer/src/consumer.rs:183-189 | from every such state a ready consumer that is not fenced can flush, and then exactly the entries up to its last acknowledged one have left the manifest |
| BufferProgress.OpenedClean | buffer/src/consumer.rs:59-93 | a consumer hands out nothing before it is open, and once it is, every batch that was committed when it started has left the manifest |
| BufferGc.DanglingFree | buffer/src/gc.rs:46-114 | under every interleaving of producers, consumers and collectors in which writes land in time, each manifest entry names an existing file with its producer's content |
| BufferGc.NeverDanglesIff | buffer/src/gc.rs:46-89 | that holds for all on-time runs if and only if there is a grace period, or no name carries a positive creation time |
| BufferGc.TakenInFlight | buffer/src/gc.rs:46-89 | whenever the deletion rule admits a file in flight, a concrete run ends with an entry whose file is gone |
| BufferGc.LateAppendDangles | buffer/src/producer.rs:235-260 | for every grace period some run with a late append dangles |
| BufferSweep.OldestIsLeast | buffer/src/gc.rs:140-161 | the oldest time is the least creation time of the entries and one of theirs; none if and only if no entry has one |
| BufferSweep.CollectedIsGarbage | buffer/src/gc.rs:46-114 | in every run, a file that is deleted had been there for the grace period when the sweep began, and in the manifest the sweep read no entry named it nor was any entry as old |
| BufferGc.ReadSnapshot | buffer/src/gc.rs:140-161 | the loop collects exactly the locations and the oldest creation time |
| BufferGc.SelectFiles | buffer/src/gc.rs:57-90 | the selection loop keeps exactly the listed files the rule admits |
| BufferAcked.FinishedStays | buffer/src/producer.rs:219-260 | a protocol call that has returned never changes again |
| BufferAcked.BackedStays | buffer/src/producer.rs:219-233 | writes that the task made as calls of the protocol stay so in every later state |
| BufferAcked.MadeByRun | buffer/src/producer.rs:219-260 | when the steps of a protocol call in a run are those of the code's write of a batch, the call ends as the write returns, whatever other actors do in between |
| BufferAcked.EnqueuedIffWentIn | buffer/src/producer.rs:235-260 | in every run a write's batch is in the history if and only if one of its conditional writes went in, also where it reported an error |
| BufferAcked.QueuedOrCommitted | buffer/src/producer.rs:219-260 | once a write has succeeded, in every later state of a run with writes in time its batch has the same one place in the history and is still queued with its file or committed downstream |
| BufferAcked.AckedRecoverable | buffer/src/producer.rs:183-260 | in every such later state decoding that content and cutting it by the metadata returns each caller's own entries, time and payload |
| BufferAcked.ToldOkRecoverable | buffer/src/producer.rs:183-260 | a watcher that was told Ok belongs to a produce call whose batch was written, and in every later state that call's entries, time and payload can be recovered from the one place of its batch, queued or committed |
| LogTables.ScanIter | log/src/storage.rs:31-70 | the scan of a table yields the records of the range, each once, in key order |
| LogTables.ScanUnique | log/src/storage.rs:31-70 | that determines the scan |
| LogTables.PutEntry | log/src/writer.rs:259-279 | writing a record under a key of its own extends what the table stands for and touches nothing else |
| LogTables.PutSegment | log/src/segment.rs:181-215 | writing a segment record with a new id extends the segments and touches nothing else |
| LogTables.PutListing | log/src/listing.rs:104-117 | writing a listing record extends the listing and touches nothing else |
| LogTables.PutBlock | common/src/sequence.rs:202-214 | writing a block replaces the reservation and touches nothing else |
| Sequences.ReserveContiguous | common/src/sequence.rs:175-214 | an allocation is exactly the next `count` numbers, also across blocks; blocks follow each other without gap or overlap |
| Sequences.SequenceAllocator.Allocate | common/src/sequence.rs:175-200 | returns the old next number and advances it by the count; a record is returned exactly when a new block was reserved |
| Sequences.SequenceAllocator.InitNextBlock | common/src/sequence.rs:202-214 | a new block starts where the last one ends and is large enough |
| Sequences.LoadReserves | common/src/sequence.rs:105-120 | a restart hands out only numbers above every stored sequence and segment start |
| Segments.SegmentCache.constructor | log/src/segment.rs:86-95 | the cache holds the loaded segments by first sequence |
| Segments.SegmentCache.FindCovering | log/src/segment.rs:117-140 | returns exactly the segments whose interval meets the range, in order |
| Segments.SegmentCache.Refresh | log/src/segment.rs:151-174 | loads the segments after the known one, or all; an error of the storage or in a record changes nothing |
| Segments.SegmentCache.AssignSegment | log/src/segment.rs:181-236 | rolls if and only if there is no segment or the write is at least the interval after the newest one's start; a new segment has the next id, the write's first number and time, a record and a place in the cache |
| Segments.InsertMember | log/src/segment.rs:143-145 | insertion keeps the order and replaces only a segment with the same first sequence |
| Segments.AssignFits | log/src/segment.rs:181-215 | a write past every segment goes to the last one, ids keep counting up with the first sequence |
| Segments.RefreshCompletes | log/src/segment.rs:151-174 | refreshing a prefix of the stored segments from the table makes it complete |
| Listings.NewKeysExact | log/src/listing.rs:90-120 | every key not known for the segment is listed once, and nothing else is |
| Listings.ListingCache.AssignNewKeys | log/src/listing.rs:90-120 | the loop emits one record per new key in order, a change of segment forgets the cache, and afterwards all keys of the batch are known |
| LogStorage.ScanSegments | log/src/storage.rs:58-70 | decodes the scanned records in order, or fails at the first that does not decode |
| LogStorage.SegmentsExact | log/src/storage.rs:58-70 | on a table of the log it returns exactly the segments with an id in the range |
| LogStorage.AllSegmentsExact | log/src/storage.rs:58-70 | on a table whose segment ids rise it returns all segments, also where ids are missing |
| LogStorage.ListKeys | log/src/storage.rs:31-53 | collects the scanned keys, or fails at the first that does not decode; an empty range lists nothing |
| LogStorage.ListKeysExact | log/src/storage.rs:31-53 | on a table of the log it lists exactly the keys with a record in the segments of the range |
| LogWriters.LogWriter.AddEntries | log/src/writer.rs:259-279 | one storage record per user record, under consecutive sequences |
| LogWriters.LogWriter.BuildAppend | log/src/writer.rs:166-194 | the records and the new caches are those of `Prepare`, and the first sequence is the old next one |
| LogWriters.LogWriter.HandleAppend | log/src/writer.rs:166-249 | an empty write changes nothing; a put that goes through is broadcast under the next epoch with its snapshot and newest segment; a failed one leaves the caches moved on and nothing broadcast |
| LogWriters.LogWriter.HandleFlush | log/src/writer.rs:252-256 | the durable watermark becomes the current epoch only when the flush succeeded |
| LogWriters.AppendRepresents | log/src/writer.rs:166-202 | the table after the put holds exactly the old content and the new records |
| LogWriters.AppendKeeps | log/src/writer.rs:166-202 | an append keeps the segment partition, the reservation, the listing and the agreement of all caches with the storage, and gives the batch exactly the next sequences in order |
| LogWriters.BroadcastKeeps | log/src/writer.rs:222-249 | the broadcast reports the newest stored segment |
| LogReaders.SegmentIterator.Next | log/src/storage.rs:117-144 | on any scan: skips entries below the range, ends at one past it, fails on one that does not decode |
| LogReaders.EntriesExact | log/src/storage.rs:75-88 | a scan of one segment yields exactly the key's records of the segment in the range, in append order |
| LogReaders.ScanEntries | log/src/storage.rs:75-88 | the iterator stands before exactly those records |
| LogReaders.CoveringIsFilter | log/src/reader.rs:550-620 | reading the covering ones of the first segments one after the other is filtering the one list of appended records |
| LogReaders.ReadKnownIsFilter | log/src/reader.rs:550-620 | as bytes, reading through a cache that knows only the first segments yields exactly the key's records of those segments in the range, in append order |
| LogReaders.ReadIsFilter | log/src/reader.rs:550-620 | with all segments known, that is exactly the key's records in the range |
| LogReaders.LogIterator.Open | log/src/reader.rs:550-565 | sets the iterator before exactly the key's records in the range of the segments its cache knows, which are all when the cache is complete |
| LogReaders.LogIterator.TakeCurrent | log/src/reader.rs:586-596 | takes the next record of the segment, or leaves an exhausted one |
| LogReaders.LogIterator.AdvanceSegment | log/src/reader.rs:608-620 | opens the next segment without changing what is still to come |
| LogReaders.LogIterator.Next | log/src/reader.rs:586-603 | returns the next record in append order, across segments; none is skipped, repeated or out of place |
| LogViews.ViewTracker.Push | log/src/view_tracker.rs:41-43 | entries queue in order |
| LogViews.ViewTracker.Advance | log/src/view_tracker.rs:47-59 | drains exactly the covered front and returns its newest entry |
| LogViews.RefreshExact | log/src/log.rs:512-541 | a view that knew a prefix of the segments knows them all after moving to a newer snapshot |
| LogRuns.ReloadAgrees | log/src/log.rs:327-343 | a restart finds its caches in agreement with what survived, with an empty listing cache |
| LogRuns.StepKeeps | log/src/log.rs:512-638 | every step of writer, subscriber, storage, crash and restart keeps the invariant of storage, caches, queue, view and watermarks, also where segments could not be read |
| LogInstances.FromStorage | log/src/log.rs:327-357 | opening loads exactly the state a restart specifies, or fails when the block or a segment does not decode |
| LogInstances.Subscriber.TryAdvanceReadView | log/src/log.rs:512-541 | moves view and watermark as specified, and segments with the known segment only if they could be read |
| LogInstances.Subscriber.OnWritten | log/src/log.rs:543-621 | a new cell value is queued and the view advanced through the right watermark in both modes, whether or not segments can be read |
| LogInstances.Subscriber.OnDurable | log/src/log.rs:622-632 | a new durable watermark advances the view, whether or not segments can be read |
| LogGuarantees.LogRefinement | log/src/reader.rs:550-620 | in every run with crashes, reading a key's range from any surviving put gives exactly the key's records appended by then, in append order, and these are the first of the surviving records |
| LogGuarantees.SegmentPartition | log/src/segment.rs:181-236 | in every reachable state ids count up with the first sequence, each record lies between its segment's start and the next, and no two records share a sequence |
| LogSealing.SegmentsSpaced | log/src/segment.rs:181-236 | in every run each segment starts at least the seal interval after the one before it; without an interval there is never a second one |
| LogSealing.SealedInTime | log/src/segment.rs:181-236 | in every run an append starts a segment if and only if there is none or the newest is as old as the interval; its records go to the newest segment, which has then been open for less than the interval |
| LogGuarantees.ListingAgrees | log/src/listing.rs:90-120 | in every reachable state and segment range the listing is exactly the keys with a record there, across rolls and restarts |
| LogGuarantees.NoSequenceReuse | common/src/sequence.rs:97-214 | every append, also after crashes and reloads, gets consecutive sequences above all surviving ones |
| LogGuarantees.DurableStays | log/src/writer.rs:252-256 | a put that was durable is there ever after, in the same place |
| LogGuarantees.DurableSurvives | log/src/writer.rs:252-256 | records that were durable once are surviving records ever after |
| LogGuarantees.FlushedSurvives | log/src/writer.rs:252-256 | after a successful flush everything appended before it survives for good |
| LogGuarantees.SurvivorsArePuts | log/src/writer.rs:166-202 | in every run the keys and values of the surviving records are, in order, those of the writes whose puts survive, also of a put that was applied but reported an error; likewise for each surviving snapshot |
| LogGuarantees.ReadVisibility | log/src/log.rs:283-294 | a read sees a view at least as new as the epoch it waited for and no older than any earlier view, whatever the cell coalesced; in remote mode the view is durable; it knows the first segments of its snapshot, and all of them if and only if it knows the newest, as where none failed to be read |
| LogGuarantees.ReadsOwnWrites | log/src/log.rs:283-294 | in memory mode the view of a read includes everything acknowledged before the read began, and with its segments known the read returns exactly the key's records in it |
| LogGuarantees.ReadsKnownSegments | log/src/log.rs:512-541 | in every run a read returns exactly the key's records of the segments its view knows, which are all if and only if none lies in a later segment |
| LogGuarantees.UnreadableHides | log/src/log.rs:512-541 | for every first write to a new log there is a run in which reading the segments fails and a read misses the write it waited for |
| LogGuarantees.RemoteReadsSurvive | log/src/log.rs:583-638 | in remote mode what a read returns survives every later crash |
| LogProgress.CanReopen | log/src/log.rs:327-357 | after any run that ended in a crash the log opens, with a view of everything that survived |
| LogProgress.CrashAndReopen | log/src/log.rs:327-357 | in every run a crash can keep any prefix of the puts that has the durable ones, and the log then opens on exactly that |
| LogProgress.ViewCatchesUp | log/src/log.rs:512-638 | from every reachable state and without another write the view can reach the newest write, in remote mode once it is durable; whatever reads wait for is then reached |
| LogFailures.UnappliedHarmlessIff | log/src/writer.rs:166-249 | after a put that was not applied the caches describe the storage if and only if the put carried no block, no segment and no new listing record |
| LogFailures.RestartAfterLostPut | log/src/writer.rs:166-249 | for any two appends of which the first was not applied: a restart finds the second's records if and only if the first made no segment or the second makes one, and keeps their numbers if and only if the first reserved no block or the second reserves one |
| LogFailures.ForgottenAfterFailedPut | log/src/writer.rs:698-715 | a concrete family of runs in which an acknowledged record is found in no range after a restart and its number is handed out again |
| LogFailures.BroadcastAfterUnreportedPut | log/src/writer.rs:222-249 | after a put that was applied but reported an error, the next broadcast names the newest segment, a reader's view knows all segments and finds the next append's records, each if and only if the put made no segment or the next append makes one |
| LabelIndexes.SortBySize | timeseries/src/index.rs:108-108 | posting lists are sorted by size and none is lost |
| LabelIndexes.InvertedIndex.Intersect | timeseries/src/index.rs:92-116 | the result is exactly the series under every term; no terms, or an unknown one, give nothing |
| LabelIndexes.InvertedIndex.Union | timeseries/src/index.rs:127-141 | the result is exactly the series under some term |
| LabelIndexes.InvertedIndex.Insert | timeseries/src/index.rs:143-147 | the term gains the series, other terms keep theirs |
| LabelIndexes.InvertedIndex.Merge | timeseries/src/index.rs:149-153 | each term lists the series of both indexes |
| LabelIndexes.MergeForward | timeseries/src/index.rs:63-69 | the other index's entries are added and win |
| SeriesDeltas.SortByNameOk | timeseries/src/delta.rs:58-59 | labels end up in name order, those of one name in their old order, so none is lost or added |
| SeriesDeltas.SortedSameIff | timeseries/src/delta.rs:58-59 | two label lists are sorted into the same one if and only if they have the same labels of each name in the same order |
| SeriesDeltas.OrderIsForgotten | timeseries/src/delta.rs:58-59 | lists of the same labels with distinct names are sorted into the same one, whatever their order |
| SeriesDeltas.JoinedAt | timeseries/src/util.rs:33-38 | what is hashed has the name and value of each label in its place, and is as long as all of them together |
| SeriesDeltas.JoinedSameShape | timeseries/src/util.rs:33-38 | lists with names and values of the same lengths are hashed alike if and only if they are equal |
| SeriesDeltas.MetricNameIs | timeseries/src/delta.rs:91-95 | the metric name is the value of the first `__name__` label, or empty if there is none |
| SeriesDeltas.Accepted | timeseries/src/delta.rs:61-88 | the accepted samples are those before the first one outside the bucket |
| SeriesDeltas.TsdbWriteDelta.Register | timeseries/src/delta.rs:103-126 | a new series gets the next id, a dictionary entry, its description and a posting under each of its labels |
| SeriesDeltas.TsdbWriteDelta.IngestSample | timeseries/src/delta.rs:72-137 | a sample outside the bucket is refused and changes nothing; any other is stored as `Put` says, overlay before base |
| SeriesDeltas.TsdbWriteDelta.Ingest | timeseries/src/delta.rs:57-70 | stores a series up to its first refused sample, under its labels in order |
| SeriesDeltas.TsdbWriteDelta.Apply | timeseries/src/delta.rs:160-165 | stores everything before the first refused sample and says whether that was all |
| SeriesDeltas.TsdbWriteDelta.Freeze | timeseries/src/delta.rs:175-201 | hands over the delta's parts and a context with base and overlay merged |
| SeriesRuns.AddKeeps | timeseries/src/delta.rs:72-137 | one sample keeps dictionary, descriptions, postings and points in agreement with the accepted samples |
| SeriesRuns.FreezeTotals | timeseries/src/delta.rs:175-201 | a freeze moves the parts and changes nothing about the bucket as a whole |
| SeriesRuns.SamplesInOrder | timeseries/src/delta.rs:128-137 | after any applies and freezes every accepted sample appears once under its id, in arrival order |
| SeriesRuns.IntersectAgrees | timeseries/src/index.rs:92-153 | on the merged indexes the series under non-empty terms are exactly those whose description carries every term |
| SeriesRuns.SameSeriesIff | timeseries/src/util.rs:32-46 | for every hash, two accepted samples share an id if and only if they share a fingerprint |
| SeriesRuns.OwnLabelsIff | timeseries/src/util.rs:32-46 | for every hash, every sample is stored under its own labels if and only if no two accepted label lists that differ share a fingerprint |
| SeriesRuns.OneIdPerLabels | timeseries/src/delta.rs:97-126 | under that condition a label list has one id and different lists have different ids, across freezes |
| SeriesRuns.OwnLabelsIffWritingsDiffer | timeseries/src/util.rs:32-46 | where the hash does not collide on the accepted lists, samples are under their own labels if and only if no two lists that differ are written the same |
| SeriesRuns.SameShapeDifferentIds | timeseries/src/delta.rs:97-126 | where the hash does not collide, two accepted lists of the same shape share an id if and only if they are equal |
| SeriesRuns.OneIdInAnyOrder | timeseries/src/delta.rs:57-70 | writes with the same labels of distinct names in any order share an id, whatever the hash |
| SeriesRuns.StoredMetricName | timeseries/src/delta.rs:128-137 | where different lists have different fingerprints, the name stored with a series' samples is the value of the first `__name__` label of its description |
| SeriesRuns.CollisionHidesSeries | timeseries/src/util.rs:32-46 | with a=bc and ab=c in one bucket a query for ab=c finds nothing, whatever the hash |

## Left out

- Object store, storage engine, channels, tasks, timers and metrics: abstracted as described above.
- Buffer consumers and collectors in whole runs: the protocol steps are functions on values, since any actor may move between two steps of another; their loops and objects are modelled separately in `BufferActors`, `BufferGc` and `ProducerBatches`.
- ProducerBatches.BatchWriterTask.AddToBatch: requires that the batch stays within 2^32 - 1 entries; what a refused call leaves behind past that is stated at `Batch.Add`, and the writes of such a batch are not followed.
- ProducerBatches.BatchWriterTask.Handle: requires the same, as it calls AddToBatch.
- Manifests.Manifest.Dequeue: past 2^32 - 1 entries in all, more than a footer can count, only success, next sequence and epoch are stated, not the entries.
- Sequences.SequenceAllocator.Allocate: requires that a new block ends within 64 bits; the source overflows there.
- Segments.SegmentCache.AssignSegment: requires a last id below 2^32 - 1; in whole runs the id 2^32 - 1 is not assigned, since the source's own scans exclude it.
- LogWriters.LogWriter.HandleAppend: requires room for the numbers and one more segment, and that cached segments do not start after the next sequence, without which the relative sequence underflows; every reachable writer meets the latter.
- SeriesDeltas.TsdbWriteDelta.Register: series ids are unbounded; the source counts in 32 bits.
- Fairness: that the steps of `LogProgress` and `BufferProgress` are taken in the end; a read in remote mode can wait for the next durable point.
- LogDbReader, the log's separate reader process, and `count`, which is not implemented.
- Forced sealing of a segment, which exists in tests only.
- Range normalisation (`log/src/range.rs`): half-open ranges are taken as input.
- Compression and hashing themselves.
- Time buckets other than one hour, sample values beyond their bits, and the storage format of frozen deltas.
- Write coordinator, query evaluation, vector index, HTTP servers, configuration and command line: they would add easy members or their protocols are separate.
