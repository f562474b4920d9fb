/** What a failed put does to a writer that goes on (log/src/writer.rs). The caches have
    moved on although the put may not have been applied. */
module LogFailures {
  import opened ByteStrings
  import opened LogKeys
  import opened LogTables
  import opened LogStorage
  import opened Sequences
  import opened Segments
  import opened Listings
  import opened LogWriters
  import opened LogReaders
  import opened LogViews
  import opened LogRuns

  // ----- the caches after a put that was not applied -----

  /** The put carried only log entries, or listing records that were stored already. */
  ghost predicate OnlyEntries(p: Prepared, c: Content)
  {
    && p.block.None? && !p.assignment.isNew
    && forall k :: k in p.newKeys ==> Listed(p.assignment.segment.id, k) in c.listing
  }

  /** After a put that was not applied, the caches still describe what is stored exactly when
      the put carried neither a block nor a segment nor a new listing record. */
  lemma UnappliedHarmlessIff(interval: Option<int>, w: WriterState, write: Write, c: Content)
    requires Room(w, write) && Agrees(w, c) && ContentOk(c) && write.records != []
    ensures var p := Prepare(interval, w, write);
            Agrees(p.writer, c) <==> OnlyEntries(p, c)
  {
    hide LogOk, Reserved, ListingOk, SegmentsOk;
    ReserveContiguous(w.alloc, |write.records|);
    PreparedFits(interval, w, write, c);
    ListingAgreesIff(interval, w, write, c);
    var p := Prepare(interval, w, write);
    assert p.assignment.isNew ==> p.writer.segments != c.segments;
  }

  lemma ListingAgreesIff(interval: Option<int>, w: WriterState, write: Write, c: Content)
    requires Room(w, write) && Agrees(w, c)
    ensures var p := Prepare(interval, w, write);
            ListingKnown(p.writer.listing, c) <==>
            forall k :: k in p.newKeys ==> Listed(p.assignment.segment.id, k) in c.listing
  {
    hide NextUnused;
    var id := Prepare(interval, w, write).assignment.segment.id;
    NewKeysExact(w.listing.KnownIn(id), KeysOf(write.records));
  }

  // ----- when a record is read -----

  lemma {:induction false} ReadFromMember(
      t: Table, segs: seq<LogSegment>, i: nat, key: Bytes, a: u64, b: u64, x: Record)
    ensures x in ReadFrom(t, segs, i, key, a, b) <==> ReadAfter(t, segs, i, key, a, b, x)
    decreases |segs| - i
  {
    hide Scan, Meets, EntryScanRange;
    if i < |segs| {
      ReadFromMember(t, segs, i + 1, key, a, b, x);
      ReadAfterStep(t, segs, i, key, a, b, x);
    }
  }

  /** Some segment from index `i` on that the range meets has the record in its scan. */
  ghost predicate ReadAfter(t: Table, segs: seq<LogSegment>, i: nat, key: Bytes, a: u64, b: u64, x: Record)
  {
    exists j :: i <= j < |segs| && Meets(segs, j, a, b) && x in Scan(t, EntryScanRange(segs[j], key, a, b))
  }

  lemma ReadAfterStep(t: Table, segs: seq<LogSegment>, i: nat, key: Bytes, a: u64, b: u64, x: Record)
    requires i < |segs|
    ensures ReadAfter(t, segs, i, key, a, b, x) <==>
            || (Meets(segs, i, a, b) && x in Scan(t, EntryScanRange(segs[i], key, a, b)))
            || ReadAfter(t, segs, i + 1, key, a, b, x)
  {
    hide Scan, Meets, EntryScanRange;
  }

  lemma InScanIff(t: Table, s: LogSegment, r: LogRec, a: u64, b: u64)
    requires Holds(t, EntryRecord(r)) && r.segment.meta.startSeq <= r.sequence
    requires s.id == r.segment.id ==> s == r.segment
    ensures EntryRecord(r) in Scan(t, EntryScanRange(s, r.key, a, b)) <==> s == r.segment && a <= r.sequence < b
  {
    hide EntryBytes, EntryScanRange;
    var range := EntryScanRange(s, r.key, a, b);
    ScanMembers(Scan(t, range), t, range, EntryRecord(r));
    EntryScanExact(s, r.key, a, b, LogEntryKey(r.segment.id, r.key, r.sequence), r.segment.meta.startSeq);
  }

  /** A stored record of the newest segment is read exactly through a cache that has the segment. */
  lemma ReadIff(t: Table, segs: seq<LogSegment>, r: LogRec, a: u64, b: u64)
    requires Holds(t, EntryRecord(r)) && r.segment.meta.startSeq <= r.sequence && a <= r.sequence < b
    requires forall j :: 0 <= j < |segs| && segs[j].id == r.segment.id ==> j == |segs| - 1 && segs[j] == r.segment
    ensures EntryRecord(r) in ReadFrom(t, segs, 0, r.key, a, b) <==> segs != [] && segs[|segs| - 1] == r.segment
  {
    hide Scan, EntryScanRange, ReadFrom, Holds;
    ReadFromMember(t, segs, 0, r.key, a, b, EntryRecord(r));
    forall j | 0 <= j < |segs|
      ensures EntryRecord(r) in Scan(t, EntryScanRange(segs[j], r.key, a, b)) <==> segs[j] == r.segment
    {
      InScanIff(t, segs[j], r, a, b);
    }
    if segs != [] && segs[|segs| - 1] == r.segment {
      assert Meets(segs, |segs| - 1, a, b);
    }
  }

  // ----- the write after a put that was not applied -----

  /** Two appends in a row, prepared from caches that describe `c`. */
  ghost predicate InARow(interval: Option<int>, w: WriterState, write1: Write, write2: Write, c: Content)
  {
    && Agrees(w, c) && ContentOk(c)
    && Room(w, write1) && write1.records != []
    && Room(Prepare(interval, w, write1).writer, write2) && write2.records != []
  }

  function First(interval: Option<int>, w: WriterState, write1: Write): Prepared
    requires Room(w, write1)
  {
    Prepare(interval, w, write1)
  }

  function Second(interval: Option<int>, w: WriterState, write1: Write, write2: Write): Prepared
    requires Room(w, write1) && Room(First(interval, w, write1).writer, write2)
  {
    Prepare(interval, First(interval, w, write1).writer, write2)
  }

  /** The segment of the second append, seen from what was stored before both. */
  lemma SecondSegment(interval: Option<int>, w: WriterState, write1: Write, write2: Write, c: Content)
    requires InARow(interval, w, write1, write2, c)
    ensures var p1, p2 := First(interval, w, write1), Second(interval, w, write1, write2);
            var s, n := p2.assignment.segment, |c.segments|;
            && (p1.assignment.isNew || p2.assignment.isNew ==> n <= s.id < U32_MAX)
            && (!p1.assignment.isNew && !p2.assignment.isNew ==> s.id == n - 1 && c.segments[n - 1] == s)
            && (p1.assignment.isNew && !p2.assignment.isNew ==> s == p1.assignment.segment && s.id == n)
            && s.meta.startSeq <= p1.writer.alloc.next
            && (p2.assignment.isNew ==> s.meta.startSeq == p1.writer.alloc.next)
  {
    hide LogOk, Reserved, ListingOk, ListingKnown, Insert, Assign, Prepare, Reserve;
    var p1 := First(interval, w, write1);
    PreparedParts(interval, w, write1);
    PreparedParts(interval, p1.writer, write2);
    ReserveContiguous(w.alloc, |write1.records|);
    PreparedFits(interval, w, write1, c);
    AssignFits(p1.writer.segments, interval, write2.timestampMs, p1.writer.alloc.next);
  }

  /** The numbers of the second append follow those of the first. */
  lemma SecondNumbers(interval: Option<int>, w: WriterState, write1: Write, write2: Write, c: Content)
    requires InARow(interval, w, write1, write2, c)
    ensures var p1, p2 := First(interval, w, write1), Second(interval, w, write1, write2);
            && p1.writer.alloc.next == w.alloc.next + |write1.records|
            && |p2.entries| == |write2.records|
            && forall i :: 0 <= i < |p2.entries| ==>
                 p2.entries[i].segment == p2.assignment.segment && p2.entries[i].sequence == p1.writer.alloc.next + i
  {
    hide ContentOk, NextUnused, ListingKnown, Insert, Assign, Prepare, Reserve;
    PreparedParts(interval, w, write1);
    PreparedParts(interval, First(interval, w, write1).writer, write2);
    ReserveContiguous(w.alloc, |write1.records|);
  }

  lemma SecondIsDistinct(interval: Option<int>, w: WriterState, write1: Write, write2: Write, c: Content)
    requires InARow(interval, w, write1, write2, c)
    ensures DistinctKeys(c.log + Second(interval, w, write1, write2).entries)
  {
    hide Reserved, ListingOk, ListingKnown, SegmentsOk, Prepare, Room;
    SecondSegment(interval, w, write1, write2, c);
    SecondNumbers(interval, w, write1, write2, c);
    var log := c.log + Second(interval, w, write1, write2).entries;
    forall i | 0 <= i < |c.log|
      ensures InSegment(c.segments, log[i])
    {
      assert log[i] == c.log[i];
    }
    RisingIsDistinct(log);
  }

  /** The table after the second put alone stands for the old content and that put. */
  lemma SecondRepresents(interval: Option<int>, w: WriterState, write1: Write, write2: Write, t: Table, c: Content)
    requires InARow(interval, w, write1, write2, c) && Represents(t, c)
    ensures var p2 := Second(interval, w, write1, write2);
            Represents(PutAll(t, p2.records), After(c, p2))
  {
    hide Represents, LogOk, Reserved, ListingOk, DistinctKeys, Agrees, Room;
    SecondSegment(interval, w, write1, write2, c);
    SecondIsDistinct(interval, w, write1, write2, c);
    var p2 := Second(interval, w, write1, write2);
    PutPrepared(t, c, p2.block, p2.assignment, p2.newKeys, p2.entries);
  }

  /** The block that is stored after the second put alone, against the numbers it gave out. */
  lemma SecondBlock(interval: Option<int>, w: WriterState, write1: Write, write2: Write, c: Content)
    requires InARow(interval, w, write1, write2, c)
    ensures var p1, p2 := First(interval, w, write1), Second(interval, w, write1, write2);
            var block, next := After(c, p2).block, p1.writer.alloc.next;
            var base := if block.None? then 0 else block.value.NextBase();
            && base <= U64_MAX
            && (p1.block.None? || p2.block.Some? ==> next + |write2.records| <= base)
            && (p1.block.Some? && p2.block.None? ==> base <= next)
  {
    hide LogOk, ListingOk, ListingKnown, SegmentsOk, Prepare, NextUnused, Reserved;
    var p1 := First(interval, w, write1);
    PreparedParts(interval, w, write1);
    PreparedParts(interval, p1.writer, write2);
    ReserveContiguous(w.alloc, |write1.records|);
    ReserveContiguous(p1.writer.alloc, |write2.records|);
  }

  /** What a restart after the second put finds. */
  lemma RestartLoads(interval: Option<int>, w: WriterState, write1: Write, write2: Write, t: Table, c: Content)
    requires InARow(interval, w, write1, write2, c) && Represents(t, c)
    ensures var p2 := Second(interval, w, write1, write2);
            var c2 := After(c, p2);
            var r := Reload(PutAll(t, p2.records));
            && r.Some? && r.value.segments == c2.segments
            && r.value.alloc.next == if c2.block.None? then 0 else c2.block.value.NextBase()
  {
    hide Represents, LogOk, Reserved, ListingOk, Agrees, Room, Prepare, SegmentsIn, Load, InsertAll;
    SecondRepresents(interval, w, write1, write2, t, c);
    SecondSegment(interval, w, write1, write2, c);
    SecondBlock(interval, w, write1, write2, c);
    StartsRise(interval, w, write1, write2, c);
    var p2 := Second(interval, w, write1, write2);
    var c2, t2 := After(c, p2), PutAll(t, p2.records);
    LoadIs(t2, c2);
    AllSegmentsExact(t2, c2);
    InsertRest(c2.segments, 0, |c2.segments|);
    assert c2.segments[..0] == [] && c2.segments[0..|c2.segments|] == c2.segments;
    assert c2.segments[..|c2.segments|] == c2.segments;
  }

  lemma StartsRise(interval: Option<int>, w: WriterState, write1: Write, write2: Write, c: Content)
    requires InARow(interval, w, write1, write2, c)
    ensures ByStart(After(c, Second(interval, w, write1, write2)).segments)
  {
    hide LogOk, ListingOk, ListingKnown, Prepare, Reserved, Room;
    SecondSegment(interval, w, write1, write2, c);
    SecondNumbers(interval, w, write1, write2, c);
  }

  lemma SecondIsStored(
      interval: Option<int>, w: WriterState, write1: Write, write2: Write, t: Table, c: Content, i: nat)
    requires InARow(interval, w, write1, write2, c) && Represents(t, c)
    requires i < |Second(interval, w, write1, write2).entries|
    ensures var p2 := Second(interval, w, write1, write2);
            Holds(PutAll(t, p2.records), EntryRecord(p2.entries[i]))
  {
    hide Prepare, Agrees, ContentOk, Room, PutAll, Represents, Holds;
    SecondRepresents(interval, w, write1, write2, t, c);
    var p2 := Second(interval, w, write1, write2);
    LastIsStored(PutAll(t, p2.records), After(c, p2), p2, i);
  }

  /** A put fails without being applied and the writer goes on; the next put goes through. A
      restart then reads the records of that put, in every range that has them, exactly when
      the lost put made no segment or the next one did; and it hands their numbers out again
      exactly when the lost put reserved a block and the next one did not. */
  lemma RestartAfterLostPut(interval: Option<int>, w: WriterState, write1: Write, write2: Write, t: Table, c: Content,
                            i: nat, a: u64, b: u64)
    requires InARow(interval, w, write1, write2, c) && Represents(t, c)
    requires i < |Second(interval, w, write1, write2).entries|
    requires a <= Second(interval, w, write1, write2).entries[i].sequence < b
    ensures var p1, p2 := First(interval, w, write1), Second(interval, w, write1, write2);
            var t2, r := PutAll(t, p2.records), p2.entries[i];
            && Reload(t2).Some?
            && (EntryRecord(r) in ReadFrom(t2, Reload(t2).value.segments, 0, r.key, a, b) <==>
                !p1.assignment.isNew || p2.assignment.isNew)
            && (r.sequence < Reload(t2).value.alloc.next <==> p1.block.None? || p2.block.Some?)
  {
    hide Represents, LogOk, Reserved, ListingOk, Agrees, Room, Prepare, ReadFrom, Reload, PutAll, Holds;
    SecondSegment(interval, w, write1, write2, c);
    SecondNumbers(interval, w, write1, write2, c);
    SecondBlock(interval, w, write1, write2, c);
    RestartLoads(interval, w, write1, write2, t, c);
    SecondIsStored(interval, w, write1, write2, t, c, i);
    var p2 := Second(interval, w, write1, write2);
    ReadIff(PutAll(t, p2.records), After(c, p2).segments, p2.entries[i], a, b);
  }

  // ----- an acknowledged append that a restart does not find -----

  function One(key: Bytes, value: Bytes, now: i64): Write
  {
    Write([UserRecord(key, value)], now)
  }

  lemma NewLog(k1: Bytes, v1: Bytes, k2: Bytes, v2: Bytes, now: i64)
    ensures Represents(map[], NOTHING) && InARow(None, NEW_WRITER, One(k1, v1, now), One(k2, v2, now), NOTHING)
    ensures var p1 := First(None, NEW_WRITER, One(k1, v1, now));
            var p2 := Second(None, NEW_WRITER, One(k1, v1, now), One(k2, v2, now));
            && p1.block.Some? && p1.assignment.isNew && p2.block.None? && !p2.assignment.isNew
            && |p2.entries| == 1 && p2.entries[0].sequence == 1
  {
    hide NewKeys, ListingRecords, EntryRecords, Prepare;
    PreparedParts(None, NEW_WRITER, One(k1, v1, now));
    PreparedParts(None, First(None, NEW_WRITER, One(k1, v1, now)).writer, One(k2, v2, now));
  }

  /** The first put of a new log fails without being applied, the second goes through and is
      acknowledged. A restart reads the acknowledged record in no range that has it, and
      hands out its number again. */
  lemma ForgottenAfterFailedPut(k1: Bytes, v1: Bytes, k2: Bytes, v2: Bytes, now: i64, a: u64, b: u64)
    requires a <= 1 < b
    ensures InARow(None, NEW_WRITER, One(k1, v1, now), One(k2, v2, now), NOTHING)
    ensures var p2 := Second(None, NEW_WRITER, One(k1, v1, now), One(k2, v2, now));
            var t := PutAll(map[], p2.records);
            && |p2.entries| == 1 && p2.entries[0].sequence == 1 && Holds(t, EntryRecord(p2.entries[0]))
            && Reload(t).Some? && Reload(t).value.alloc.next <= 1
            && EntryRecord(p2.entries[0]) !in ReadFrom(t, Reload(t).value.segments, 0, p2.entries[0].key, a, b)
  {
    hide Prepare, PutAll, Reload, ReadFrom, InARow;
    NewLog(k1, v1, k2, v2, now);
    RestartAfterLostPut(None, NEW_WRITER, One(k1, v1, now), One(k2, v2, now), map[], NOTHING, 0, a, b);
    SecondIsStored(None, NEW_WRITER, One(k1, v1, now), One(k2, v2, now), map[], NOTHING, 0);
  }

  // ----- a put that was applied although it reported an error -----

  /** The table and the content after both puts. */
  lemma BothRepresent(interval: Option<int>, w: WriterState, write1: Write, write2: Write, t: Table, c: Content)
    requires InARow(interval, w, write1, write2, c) && Represents(t, c)
    ensures var p1, p2 := First(interval, w, write1), Second(interval, w, write1, write2);
            var c3 := After(After(c, p1), p2);
            && Represents(PutAll(PutAll(t, p1.records), p2.records), c3) && ContentOk(c3)
  {
    hide Represents, ContentOk, Agrees, Prepare, Room;
    var p1 := First(interval, w, write1);
    AppendKeeps(interval, w, write1, t, c);
    AppendKeeps(interval, p1.writer, write2, PutAll(t, p1.records), After(c, p1));
  }

  lemma BothSegments(interval: Option<int>, w: WriterState, write1: Write, write2: Write, c: Content)
    requires InARow(interval, w, write1, write2, c) && w.lastSegment == LatestId(c.segments)
    ensures var p1, p2 := First(interval, w, write1), Second(interval, w, write1, write2);
            var segs := After(After(c, p1), p2).segments;
            && c.segments <= segs
            && (LatestId(segs) == Broadcast(p2).lastSegment <==> !p1.assignment.isNew || p2.assignment.isNew)
            && (p1.assignment.isNew && !p2.assignment.isNew ==> Broadcast(p2).lastSegment == LatestId(c.segments))
            && (p1.assignment.isNew && !p2.assignment.isNew ==> segs != c.segments)
            && segs != [] && segs[|segs| - 1] == p2.assignment.segment
  {
    hide LogOk, Reserved, ListingOk, ListingKnown, Insert, Assign, Prepare, Reserve, NextUnused, Room;
    var p1 := First(interval, w, write1);
    PreparedParts(interval, w, write1);
    PreparedParts(interval, p1.writer, write2);
    PreparedFits(interval, w, write1, c);
    SecondSegment(interval, w, write1, write2, c);
  }

  ghost function ViewAfter(interval: Option<int>, w: WriterState, write1: Write, write2: Write, t: Table, c: Content)
    : seq<LogSegment>
    requires Room(w, write1) && Room(First(interval, w, write1).writer, write2)
  {
    var p1, p2 := First(interval, w, write1), Second(interval, w, write1, write2);
    Refreshed(PutAll(PutAll(t, p1.records), p2.records), c.segments, LatestId(c.segments), Broadcast(p2).lastSegment)
  }

  lemma ViewIs(interval: Option<int>, w: WriterState, write1: Write, write2: Write, t: Table, c: Content)
    requires InARow(interval, w, write1, write2, c) && Represents(t, c) && w.lastSegment == LatestId(c.segments)
    ensures var p1, p2 := First(interval, w, write1), Second(interval, w, write1, write2);
            ViewAfter(interval, w, write1, write2, t, c) ==
            if p1.assignment.isNew && !p2.assignment.isNew then c.segments else After(After(c, p1), p2).segments
  {
    hide Represents, LogOk, Reserved, ListingOk, SegmentsOk, Agrees, Room, Prepare, PutAll, SegmentsIn, InsertAll;
    BothRepresent(interval, w, write1, write2, t, c);
    BothSegments(interval, w, write1, write2, c);
    var p1, p2 := First(interval, w, write1), Second(interval, w, write1, write2);
    var t3, c3 := PutAll(PutAll(t, p1.records), p2.records), After(After(c, p1), p2);
    RefreshExact(t3, c3, |c.segments|);
    assert c3.segments[..|c.segments|] == c.segments;
  }

  /** A put is applied but reports an error, so nothing is broadcast for it; the next put goes
      through. Its broadcast names the newest stored segment, a view that knew all segments
      before both puts knows them all after moving to it, and a read of that view returns the
      next put's records, exactly when the unreported put made no segment or the next one did. */
  lemma BroadcastAfterUnreportedPut(interval: Option<int>, w: WriterState, write1: Write, write2: Write,
                                    t: Table, c: Content, i: nat, a: u64, b: u64)
    requires InARow(interval, w, write1, write2, c) && Represents(t, c) && w.lastSegment == LatestId(c.segments)
    requires i < |Second(interval, w, write1, write2).entries|
    requires a <= Second(interval, w, write1, write2).entries[i].sequence < b
    ensures var p1, p2 := First(interval, w, write1), Second(interval, w, write1, write2);
            var t3, c3 := PutAll(PutAll(t, p1.records), p2.records), After(After(c, p1), p2);
            var view := ViewAfter(interval, w, write1, write2, t, c);
            var right := !p1.assignment.isNew || p2.assignment.isNew;
            && (Broadcast(p2).lastSegment == LatestId(c3.segments) <==> right)
            && (view == c3.segments <==> right)
            && (EntryRecord(p2.entries[i]) in ReadFrom(t3, view, 0, p2.entries[i].key, a, b) <==> right)
  {
    hide Represents, ContentOk, Agrees, Room, Prepare, ReadFrom, PutAll, Holds, ViewAfter;
    BothSegments(interval, w, write1, write2, c);
    ViewIs(interval, w, write1, write2, t, c);
    SecondInView(interval, w, write1, write2, t, c, i);
    var p1, p2 := First(interval, w, write1), Second(interval, w, write1, write2);
    var t3 := PutAll(PutAll(t, p1.records), p2.records);
    ReadIff(t3, ViewAfter(interval, w, write1, write2, t, c), p2.entries[i], a, b);
  }

  /** The second append's record is stored, and only its own segment, the last, has its id. */
  lemma SecondInView(interval: Option<int>, w: WriterState, write1: Write, write2: Write,
                     t: Table, c: Content, i: nat)
    requires InARow(interval, w, write1, write2, c) && Represents(t, c) && w.lastSegment == LatestId(c.segments)
    requires i < |Second(interval, w, write1, write2).entries|
    ensures var p1, p2 := First(interval, w, write1), Second(interval, w, write1, write2);
            var r, view := p2.entries[i], ViewAfter(interval, w, write1, write2, t, c);
            && Holds(PutAll(PutAll(t, p1.records), p2.records), EntryRecord(r))
            && r.segment == p2.assignment.segment && r.segment.meta.startSeq <= r.sequence
            && (forall j :: 0 <= j < |view| && view[j].id == r.segment.id ==> j == |view| - 1 && view[j] == r.segment)
            && (p1.assignment.isNew && !p2.assignment.isNew ==> r.segment.id == |view|)
  {
    hide Represents, LogOk, Reserved, ListingOk, Agrees, Room, Prepare, PutAll, Holds, ViewAfter;
    BothRepresent(interval, w, write1, write2, t, c);
    BothSegments(interval, w, write1, write2, c);
    SecondSegment(interval, w, write1, write2, c);
    SecondNumbers(interval, w, write1, write2, c);
    ViewIs(interval, w, write1, write2, t, c);
    var p1, p2 := First(interval, w, write1), Second(interval, w, write1, write2);
    LastIsStored(PutAll(PutAll(t, p1.records), p2.records), After(After(c, p1), p2), p2, i);
  }

  lemma LastIsStored(t: Table, c: Content, p: Prepared, i: nat)
    requires Represents(t, c) && i < |p.entries|
    requires |p.entries| <= |c.log| && c.log[|c.log| - |p.entries|..] == p.entries
    ensures Holds(t, EntryRecord(p.entries[i]))
  {
    assert c.log[|c.log| - |p.entries| + i] == p.entries[i];
  }
}
