/** The writer's step from a batch of user records to one atomic put (log/src/writer.rs). */
module LogWriters {
  import opened ByteStrings
  import opened LogKeys
  import opened LogTables
  import opened Sequences
  import opened Segments
  import opened Listings

  datatype UserRecord = UserRecord(key: Bytes, value: Bytes)

  datatype Write = Write(records: seq<UserRecord>, timestampMs: i64)

  /** The writer's own state. */
  datatype WriterState = WriterState(
    alloc: Alloc, segments: seq<LogSegment>, listing: ListingState, epoch: nat, lastSegment: Option<u32>)

  /** The writer of a new log. */
  const NEW_WRITER: WriterState := WriterState(Alloc(None, 0), [], ListingState(None, {}), 0, None)

  /** An append prepared in memory: the state it leaves and the records it puts. */
  datatype Prepared = Prepared(
    writer: WriterState, records: seq<Record>, block: Option<SeqBlock>, assignment: Assignment,
    newKeys: seq<Bytes>, entries: seq<LogRec>)

  function KeysOf(users: seq<UserRecord>): (r: seq<Bytes>)
    ensures |r| == |users|
  {
    seq(|users|, i requires 0 <= i < |users| => users[i].key)
  }

  /** The log records of a batch, numbered from `base`. */
  function EntriesOf(segment: LogSegment, base: u64, users: seq<UserRecord>): (r: seq<LogRec>)
    requires base + |users| <= U64_MAX
    ensures |r| == |users|
  {
    seq(|users|, i requires 0 <= i < |users| => LogRec(segment, users[i].key, users[i].value, base + i))
  }

  /** There is room for the numbers and for one more segment. */
  predicate Room(w: WriterState, write: Write)
  {
    && w.alloc.Ok() && w.alloc.Room(|write.records|)
    && (w.segments == [] || w.segments[|w.segments| - 1].id + 1 < U32_MAX)
  }

  function Prepare(interval: Option<int>, w: WriterState, write: Write): Prepared
    requires Room(w, write)
  {
    ReserveContiguous(w.alloc, |write.records|);
    var a := Reserve(w.alloc, |write.records|);
    var s := Assign(w.segments, interval, write.timestampMs, a.base);
    var keys := KeysOf(write.records);
    var newKeys := NewKeys(w.listing.KnownIn(s.segment.id), keys);
    var entries := EntriesOf(s.segment, a.base, write.records);
    Prepared(
      WriterState(a.alloc, if s.isNew then Insert(w.segments, s.segment) else w.segments,
                  ListingState(Some(s.segment.id), w.listing.KnownIn(s.segment.id) + set k | k in keys),
                  w.epoch, w.lastSegment),
      (if a.block.Some? then [BlockRecord(a.block.value)] else []) +
      (if s.isNew then [SegmentRecord(s.segment)] else []) +
      ListingRecords(s.segment.id, newKeys) + EntryRecords(entries),
      a.block, s, newKeys, entries)
  }

  /** What a put that went through does to the writer: the next epoch is broadcast. */
  function Broadcast(p: Prepared): WriterState
  {
    p.writer.(epoch := p.writer.epoch + 1,
              lastSegment := if p.assignment.isNew then Some(p.assignment.segment.id) else p.writer.lastSegment)
  }

  function ListedKeys(id: u32, keys: seq<Bytes>): set<Listed>
  {
    set k | k in keys :: Listed(id, k)
  }

  /** The content after the put. */
  function After(c: Content, p: Prepared): Content
  {
    Content(if p.block.Some? then p.block else c.block,
            if p.assignment.isNew then c.segments + [p.assignment.segment] else c.segments,
            c.listing + ListedKeys(p.assignment.segment.id, p.newKeys),
            c.log + p.entries)
  }

  // ----- the writer's caches agree with what is stored -----

  ghost predicate NextUnused(next: u64, c: Content)
  {
    && (forall i :: 0 <= i < |c.log| ==> c.log[i].sequence < next)
    && (forall i :: 0 <= i < |c.segments| ==> c.segments[i].meta.startSeq < next)
  }

  ghost predicate ListingKnown(l: ListingState, c: Content)
  {
    l.current.Some? ==> forall k :: k in l.keys ==> Listed(l.current.value, k) in c.listing
  }

  /** The allocator, the segment cache and the listing cache describe the stored content. */
  ghost predicate Agrees(w: WriterState, c: Content)
  {
    && w.alloc.Ok() && w.alloc.block == c.block && NextUnused(w.alloc.next, c)
    && w.segments == c.segments
    && ListingKnown(w.listing, c)
  }

  /** What an append takes from the allocator and the segment cache. */
  lemma PreparedParts(interval: Option<int>, w: WriterState, write: Write)
    requires Room(w, write)
    ensures var p := Prepare(interval, w, write);
            && p.assignment == Assign(w.segments, interval, write.timestampMs, w.alloc.next)
            && p.writer.segments
               == (if p.assignment.isNew then Insert(w.segments, p.assignment.segment) else w.segments)
            && p.writer.lastSegment == w.lastSegment
            && p.writer.alloc == Reserve(w.alloc, |write.records|).alloc
            && p.block == Reserve(w.alloc, |write.records|).block
            && |p.entries| == |write.records|
            && forall i :: 0 <= i < |p.entries| ==>
                 && p.entries[i].segment == p.assignment.segment
                 && p.entries[i].key == write.records[i].key && p.entries[i].value == write.records[i].value
                 && p.entries[i].sequence == w.alloc.next + i
  {
    hide Assign, Insert, NewKeys, Reserve;
    ReserveContiguous(w.alloc, |write.records|);
  }

  /** The numbers, the segment and the records of a prepared append fit the content. */
  lemma PreparedFits(interval: Option<int>, w: WriterState, write: Write, c: Content)
    requires Room(w, write) && Agrees(w, c) && ContentOk(c) && write.records != []
    ensures var p := Prepare(interval, w, write);
            && p.writer.segments == After(c, p).segments
            && p.assignment.segment.id == |p.writer.segments| - 1
            && p.writer.segments[p.assignment.segment.id] == p.assignment.segment
            && (p.assignment.isNew ==>
                  p.assignment.segment.id == |c.segments| && p.assignment.segment.meta.startSeq == w.alloc.next)
            && p.assignment.segment.meta.startSeq <= w.alloc.next
            && SegmentsOk(p.writer.segments)
  {
    hide LogOk, Reserved, ListingOk, ListingKnown, Insert, ShouldRoll;
    ReserveContiguous(w.alloc, |write.records|);
    AssignFits(w.segments, interval, write.timestampMs, w.alloc.next);
  }

  lemma EntriesFit(interval: Option<int>, w: WriterState, write: Write, c: Content)
    requires Room(w, write) && Agrees(w, c) && ContentOk(c) && write.records != []
    ensures var p := Prepare(interval, w, write);
            LogOk(c.log + p.entries, p.writer.segments)
  {
    hide Reserved, ListingOk, ListingKnown, SegmentsOk;
    PreparedFits(interval, w, write, c);
    ReserveContiguous(w.alloc, |write.records|);
    var p := Prepare(interval, w, write);
    var log := c.log + p.entries;
    forall i | 0 <= i < |log|
      ensures InSegment(p.writer.segments, log[i])
    {
      assert i < |c.log| ==> InSegment(c.segments, c.log[i]);
    }
  }

  // ----- the put, record by record -----

  lemma {:induction false} PutConcat(t: Table, xs: seq<Record>, ys: seq<Record>)
    ensures PutAll(t, xs + ys) == PutAll(PutAll(t, xs), ys)
  {
    if ys == [] {
      assert xs + ys == xs;
    } else {
      var n := |ys| - 1;
      assert xs + ys == (xs + ys[..n]) + [ys[n]] && ys == ys[..n] + [ys[n]];
      PutOne(t, xs + ys[..n], ys[n]);
      PutConcat(t, xs, ys[..n]);
    }
  }

  lemma {:induction false} PutListings(t: Table, c: Content, id: u32, keys: seq<Bytes>)
    requires Represents(t, c)
    ensures Represents(PutAll(t, ListingRecords(id, keys)), c.(listing := c.listing + ListedKeys(id, keys)))
  {
    hide Represents;
    if keys == [] {
      assert c.listing + ListedKeys(id, keys) == c.listing;
    } else {
      var n := |keys| - 1;
      var front := c.(listing := c.listing + ListedKeys(id, keys[..n]));
      PutListings(t, c, id, keys[..n]);
      assert ListingRecords(id, keys) == ListingRecords(id, keys[..n]) + [ListingRecord(Listed(id, keys[n]))];
      PutOne(t, ListingRecords(id, keys[..n]), ListingRecord(Listed(id, keys[n])));
      PutListing(PutAll(t, ListingRecords(id, keys[..n])), front, Listed(id, keys[n]));
      assert keys == keys[..n] + [keys[n]];
      assert c.listing + ListedKeys(id, keys) == front.listing + {Listed(id, keys[n])};
    }
  }

  lemma {:induction false} PutEntries(t: Table, c: Content, recs: seq<LogRec>)
    requires Represents(t, c) && DistinctKeys(c.log + recs)
    ensures Represents(PutAll(t, EntryRecords(recs)), c.(log := c.log + recs))
  {
    hide Represents, EntryKeyOf;
    if recs == [] {
      assert c.log + recs == c.log;
    } else {
      var n := |recs| - 1;
      var front := c.(log := c.log + recs[..n]);
      assert c.log + recs == front.log + [recs[n]];
      DistinctFront(front.log, recs[n]);
      PutEntries(t, c, recs[..n]);
      assert EntryRecords(recs) == EntryRecords(recs[..n]) + [EntryRecord(recs[n])];
      PutOne(t, EntryRecords(recs[..n]), EntryRecord(recs[n]));
      PutEntry(PutAll(t, EntryRecords(recs[..n])), front, recs[n]);
    }
  }

  ghost predicate NewId(segs: seq<LogSegment>, id: u32)
  {
    forall i :: 0 <= i < |segs| ==> segs[i].id != id
  }

  /** The records of the block and of the segment, if any. */
  lemma PutHeader(t: Table, c: Content, block: Option<SeqBlock>, a: Assignment)
    requires Represents(t, c) && (a.isNew ==> NewId(c.segments, a.segment.id))
    ensures var rs := (if block.Some? then [BlockRecord(block.value)] else []) +
                      (if a.isNew then [SegmentRecord(a.segment)] else []);
            Represents(PutAll(t, rs), c.(block := if block.Some? then block else c.block,
                                         segments := if a.isNew then c.segments + [a.segment] else c.segments))
  {
    hide Represents;
    var b: seq<Record> := if block.Some? then [BlockRecord(block.value)] else [];
    var s: seq<Record> := if a.isNew then [SegmentRecord(a.segment)] else [];
    var c1 := c.(block := if block.Some? then block else c.block);
    if block.Some? {
      PutOne(t, [], b[0]);
      assert [] + [b[0]] == b;
      PutBlock(t, c, block.value);
    }
    PutConcat(t, b, s);
    if a.isNew {
      PutOne(PutAll(t, b), [], s[0]);
      assert [] + [s[0]] == s;
      PutSegment(PutAll(t, b), c1, a.segment);
    }
  }

  /** The table after the put holds exactly the content with the new records. */
  lemma AppendRepresents(interval: Option<int>, w: WriterState, write: Write, t: Table, c: Content)
    requires Room(w, write) && Agrees(w, c) && ContentOk(c) && Represents(t, c) && write.records != []
    ensures var p := Prepare(interval, w, write);
            Represents(PutAll(t, p.records), After(c, p))
  {
    PreparedFits(interval, w, write, c);
    EntriesFit(interval, w, write, c);
    var p := Prepare(interval, w, write);
    LogOkIsDistinct(c.log + p.entries, p.writer.segments);
    PutPrepared(t, c, p.block, p.assignment, p.newKeys, p.entries);
  }

  lemma PutPrepared(t: Table, c: Content, block: Option<SeqBlock>, a: Assignment, keys: seq<Bytes>, recs: seq<LogRec>)
    requires Represents(t, c) && (a.isNew ==> NewId(c.segments, a.segment.id)) && DistinctKeys(c.log + recs)
    ensures var rs := (if block.Some? then [BlockRecord(block.value)] else []) +
                      (if a.isNew then [SegmentRecord(a.segment)] else []) +
                      ListingRecords(a.segment.id, keys) + EntryRecords(recs);
            Represents(PutAll(t, rs), Content(if block.Some? then block else c.block,
                                              if a.isNew then c.segments + [a.segment] else c.segments,
                                              c.listing + ListedKeys(a.segment.id, keys), c.log + recs))
  {
    hide Represents, DistinctKeys;
    var header := (if block.Some? then [BlockRecord(block.value)] else []) +
                  (if a.isNew then [SegmentRecord(a.segment)] else []);
    var c1 := c.(block := if block.Some? then block else c.block,
                 segments := if a.isNew then c.segments + [a.segment] else c.segments);
    PutHeader(t, c, block, a);
    var listed := ListingRecords(a.segment.id, keys);
    PutConcat(t, header, listed);
    PutListings(PutAll(t, header), c1, a.segment.id, keys);
    PutConcat(t, header + listed, EntryRecords(recs));
    PutEntries(PutAll(t, header + listed), c1.(listing := c1.listing + ListedKeys(a.segment.id, keys)), recs);
  }

  // ----- what an append keeps -----

  lemma AppendUnused(interval: Option<int>, w: WriterState, write: Write, c: Content)
    requires Room(w, write) && Agrees(w, c) && ContentOk(c) && write.records != []
    ensures var p := Prepare(interval, w, write);
            NextUnused(p.writer.alloc.next, After(c, p))
  {
    hide ListingOk, ListingKnown, LogOk, Represents, Reserved, SegmentsOk;
    PreparedFits(interval, w, write, c);
    ReserveContiguous(w.alloc, |write.records|);
  }

  lemma UnusedReserves(a: Alloc, c: Content)
    requires a.Ok() && a.block == c.block && c.block.Some? && NextUnused(a.next, c)
    ensures Reserved(c)
  {
  }

  lemma AppendReserves(interval: Option<int>, w: WriterState, write: Write, c: Content)
    requires Room(w, write) && Agrees(w, c) && ContentOk(c) && write.records != []
    ensures var p := Prepare(interval, w, write);
            && Reserved(After(c, p)) && NextUnused(p.writer.alloc.next, After(c, p))
            && p.writer.alloc.Ok() && p.writer.alloc.block == After(c, p).block
  {
    hide ListingOk, ListingKnown, LogOk, Represents, Reserved, SegmentsOk, NextUnused;
    AppendUnused(interval, w, write, c);
    ReserveContiguous(w.alloc, |write.records|);
    var p := Prepare(interval, w, write);
    UnusedReserves(p.writer.alloc, After(c, p));
  }

  lemma AppendLists(interval: Option<int>, w: WriterState, write: Write, c: Content)
    requires Room(w, write) && Agrees(w, c) && ContentOk(c) && write.records != []
    ensures var p := Prepare(interval, w, write);
            && ListingOk(After(c, p).listing, After(c, p).log)
            && ListingKnown(p.writer.listing, After(c, p))
  {
    hide LogOk, Represents, Reserved, SegmentsOk;
    var p := Prepare(interval, w, write);
    var id := p.assignment.segment.id;
    var keys, known := KeysOf(write.records), w.listing.KnownIn(id);
    NewKeysExact(known, keys);
    var c' := After(c, p);
    forall k | k in keys || k in known
      ensures Listed(id, k) in c'.listing
    {
    }
    forall i | 0 <= i < |c'.log|
      ensures ListedOf(c'.log[i]) in c'.listing
    {
      if i >= |c.log| {
        assert keys[i - |c.log|] in keys;
      }
    }
    forall l | l in c'.listing
      ensures exists i :: 0 <= i < |c'.log| && ListedOf(c'.log[i]) == l
    {
      ListedHasEntry(c, c', p, write, l);
    }
  }

  lemma ListedHasEntry(c: Content, c': Content, p: Prepared, write: Write, l: Listed)
    requires ListingOk(c.listing, c.log) && c'.log == c.log + p.entries && |p.entries| == |write.records|
    requires forall i :: 0 <= i < |p.entries| ==>
               ListedOf(p.entries[i]) == Listed(p.assignment.segment.id, write.records[i].key)
    requires l in c.listing || (l.segmentId == p.assignment.segment.id && l.key in KeysOf(write.records))
    ensures exists i :: 0 <= i < |c'.log| && ListedOf(c'.log[i]) == l
  {
    if l in c.listing {
      var i :| 0 <= i < |c.log| && ListedOf(c.log[i]) == l;
      assert c'.log[i] == c.log[i];
    } else {
      var i :| 0 <= i < |write.records| && KeysOf(write.records)[i] == l.key;
      assert c'.log[|c.log| + i] == p.entries[i];
    }
  }

  /** An append keeps the partition, the reservation and the listing, and the caches still
      describe what is stored; its records take exactly the next numbers. */
  lemma AppendKeeps(interval: Option<int>, w: WriterState, write: Write, t: Table, c: Content)
    requires Room(w, write) && Agrees(w, c) && ContentOk(c) && Represents(t, c) && write.records != []
    ensures var p := Prepare(interval, w, write);
            var c' := After(c, p);
            && Represents(PutAll(t, p.records), c') && ContentOk(c') && Agrees(p.writer, c')
            && c.log <= c'.log && |c'.log| == |c.log| + |write.records|
            && forall i :: 0 <= i < |write.records| ==>
                 var r := c'.log[|c.log| + i];
                 r.key == write.records[i].key && r.value == write.records[i].value && r.sequence == w.alloc.next + i
  {
    hide Represents, LogOk, SegmentsOk, Reserved, ListingOk, NextUnused, ListingKnown;
    AppendRepresents(interval, w, write, t, c);
    PreparedFits(interval, w, write, c);
    EntriesFit(interval, w, write, c);
    AppendReserves(interval, w, write, c);
    AppendLists(interval, w, write, c);
    ReserveContiguous(w.alloc, |write.records|);
  }

  /** What is broadcast reports the newest segment of the new content. */
  lemma BroadcastKeeps(interval: Option<int>, w: WriterState, write: Write, c: Content)
    requires Room(w, write) && Agrees(w, c) && ContentOk(c) && write.records != []
    requires w.lastSegment == LatestId(c.segments)
    ensures var p := Prepare(interval, w, write);
            && Broadcast(p).lastSegment == LatestId(After(c, p).segments)
            && Broadcast(p).epoch == w.epoch + 1
            && (Agrees(p.writer, After(c, p)) <==> Agrees(Broadcast(p), After(c, p)))
  {
    hide LogOk, Reserved, ListingOk, SegmentsOk, NextUnused, ListingKnown;
    PreparedFits(interval, w, write, c);
  }

  // ----- the writer task -----

  /** The cell that subscribers watch: the last write's epoch, snapshot and newest segment. */
  datatype WrittenView = WrittenView(epoch: nat, snapshot: Table, seqnum: nat, lastSegment: Option<u32>)

  /** How a put ends. It may be applied although it reports an error; the snapshot taken
      after it may fail too. */
  datatype PutOutcome = Written(seqnum: nat) | PutFailed(applied: bool) | SnapshotFailed

  class LogWriter {
    const allocator: SequenceAllocator
    const segmentCache: SegmentCache
    const listingCache: ListingCache
    var epoch: nat
    var lastSegment: Option<u32>
    var storage: Table
    var written: WrittenView
    var writtenEpoch: nat
    var durableEpoch: nat

    function Value(): WriterState
      reads this, allocator, segmentCache, listingCache
    {
      WriterState(allocator.Value(), segmentCache.segments, listingCache.Value(), epoch, lastSegment)
    }

    constructor (a: SequenceAllocator, s: SegmentCache, l: ListingCache, t: Table)
      ensures Value() == WriterState(a.Value(), s.segments, l.Value(), 0, LatestId(s.segments))
      ensures allocator == a && segmentCache == s && listingCache == l && storage == t
      ensures written == WrittenView(0, t, 0, LatestId(s.segments))
    {
      allocator, segmentCache, listingCache := a, s, l;
      epoch, lastSegment, storage := 0, LatestId(s.segments), t;
      written := WrittenView(0, t, 0, LatestId(s.segments));
      writtenEpoch, durableEpoch := 0, 0;
    }

    /** One storage record per user record, under the next numbers. */
    method AddEntries(segment: LogSegment, base: u64, users: seq<UserRecord>, records: seq<Record>)
      returns (out: seq<Record>)
      requires base + |users| <= U64_MAX && segment.meta.startSeq <= base
      ensures out == records + EntryRecords(EntriesOf(segment, base, users))
    {
      hide EntryBytes;
      out := records;
      for i := 0 to |users|
        invariant out == records + EntryRecords(EntriesOf(segment, base, users))[..i]
      {
        var key := SerializeEntryKey(LogEntryKey(segment.id, users[i].key, base + i), segment.meta.startSeq);
        assert EntryRecords(EntriesOf(segment, base, users))[i] == Record(key, users[i].value);
        out := out + [Record(key, users[i].value)];
      }
    }

    /** The records of an append, built while the caches move on. */
    method BuildAppend(write: Write) returns (records: seq<Record>, a: Assignment, base: u64)
      requires Room(Value(), write)
      requires forall i :: 0 <= i < |segmentCache.segments| ==>
                 segmentCache.segments[i].meta.startSeq <= allocator.nextSequence
      modifies allocator, segmentCache, listingCache
      ensures var p := Prepare(segmentCache.sealInterval, old(Value()), write);
              Value() == p.writer && records == p.records && a == p.assignment && base == old(allocator.nextSequence)
    {
      ReserveContiguous(allocator.Value(), |write.records|);
      records := [];
      var start, blockRecord := allocator.Allocate(|write.records|);
      base := start;
      if blockRecord.Some? {
        records := [blockRecord.value];
      }
      a, records := segmentCache.AssignSegment(write.timestampMs, base, records);
      var newKeys;
      newKeys, records := listingCache.AssignNewKeys(a.segment.id, KeysOf(write.records), records);
      records := AddEntries(a.segment, base, write.records, records);
    }

    /** A write that goes through is broadcast under the next epoch. A failed one leaves
        the caches as the append prepared them. */
    method HandleAppend(write: Write, outcome: PutOutcome) returns (r: Result<Option<u64>>)
      requires Room(Value(), write)
      requires forall i :: 0 <= i < |segmentCache.segments| ==>
                 segmentCache.segments[i].meta.startSeq <= allocator.nextSequence
      modifies this, allocator, segmentCache, listingCache
      ensures write.records == [] ==> r == Ok(None) && Value() == old(Value()) && storage == old(storage)
      ensures write.records != [] ==>
                var p := Prepare(segmentCache.sealInterval, old(Value()), write);
                && (r.Ok? <==> outcome.Written?)
                && (r.Ok? ==> r.value == Some(old(allocator.nextSequence)) && Value() == Broadcast(p))
                && (r.Err? ==> Value() == p.writer && written == old(written) && writtenEpoch == old(writtenEpoch))
                && storage == (if outcome == PutFailed(false) then old(storage) else PutAll(old(storage), p.records))
                && (r.Ok? ==>
                      written == WrittenView(epoch, storage, outcome.seqnum, lastSegment) && writtenEpoch == epoch)
    {
      hide Prepare, PutAll, Room;
      if write.records == [] {
        return Ok(None);
      }
      var records, a, base := BuildAppend(write);
      if outcome.PutFailed? {
        if outcome.applied {
          storage := PutAll(storage, records);
        }
        return Err(Error.Storage);
      }
      storage := PutAll(storage, records);
      if outcome.SnapshotFailed? {
        return Err(Error.Storage);
      }
      epoch := epoch + 1;
      if a.isNew {
        lastSegment := Some(a.segment.id);
      }
      written := WrittenView(epoch, storage, outcome.seqnum, lastSegment);
      writtenEpoch := epoch;
      r := Ok(Some(base));
    }

    method HandleFlush(ok: bool) returns (r: Result<nat>)
      modifies `durableEpoch
      ensures r == if ok then Ok(epoch) else Err(Error.Storage)
      ensures durableEpoch == if ok then epoch else old(durableEpoch)
    {
      if !ok {
        return Err(Error.Storage);
      }
      durableEpoch := epoch;
      r := Ok(epoch);
    }
  }
}
