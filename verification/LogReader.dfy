/** Reading a key's records across segments (log/src/storage.rs, log/src/reader.rs). */
module LogReaders {
  import opened ByteStrings
  import opened LogKeys
  import opened LogTables
  import opened Segments

  datatype LogEntry = LogEntry(key: Bytes, sequence: u64, value: Bytes)

  function EntryOf(r: LogRec): LogEntry
  {
    LogEntry(r.key, r.sequence, r.value)
  }

  function EntriesOf(recs: seq<LogRec>): (r: seq<LogEntry>)
    ensures |r| == |recs|
  {
    seq(|recs|, i requires 0 <= i < |recs| => EntryOf(recs[i]))
  }

  // ----- the simple form: filter one list -----

  function Filter(log: seq<LogRec>, p: LogRec -> bool): seq<LogRec>
  {
    if log == [] then []
    else Filter(log[..|log| - 1], p) + if p(log[|log| - 1]) then [log[|log| - 1]] else []
  }

  /** The records of a key with a sequence in [a, b). */
  function OfKey(key: Bytes, a: u64, b: u64): LogRec -> bool
  {
    (r: LogRec) => r.key == key && a <= r.sequence < b
  }

  /** Those in the first `k` segments. */
  function OfKeyBelow(k: nat, key: Bytes, a: u64, b: u64): LogRec -> bool
  {
    (r: LogRec) => r.segment.id < k && r.key == key && a <= r.sequence < b
  }

  /** Those of one segment. */
  function OfSegment(id: u32, key: Bytes, a: u64, b: u64): LogRec -> bool
  {
    (r: LogRec) => r.segment.id == id && r.key == key && a <= r.sequence < b
  }

  function BySequence(): (LogRec, LogRec) -> bool
  {
    (x: LogRec, y: LogRec) => x.sequence < y.sequence
  }

  lemma {:induction false} FilterMembers(log: seq<LogRec>, p: LogRec -> bool)
    ensures forall r :: r in Filter(log, p) <==> r in log && p(r)
  {
    if log != [] {
      FilterMembers(log[..|log| - 1], p);
      assert log == log[..|log| - 1] + [log[|log| - 1]];
    }
  }

  lemma {:induction false} FilterAscends(log: seq<LogRec>, p: LogRec -> bool)
    requires Ascends(BySequence(), log)
    ensures Ascends(BySequence(), Filter(log, p))
  {
    if log != [] {
      var n := |log| - 1;
      FilterAscends(log[..n], p);
      FilterMembers(log[..n], p);
      var front := Filter(log[..n], p);
      forall i | 0 <= i < |front|
        ensures front[i].sequence < log[n].sequence
      {
        assert front[i] in front && front[i] in log[..n];
        var j :| 0 <= j < n && log[j] == front[i];
        assert BySequence()(log[j], log[n]);
      }
    }
  }

  lemma LogAscends(c: Content)
    requires ContentOk(c)
    ensures Ascends(BySequence(), c.log) && Asymmetric(BySequence())
  {
  }

  // ----- one segment -----

  /** The segment is stored as given. */
  predicate HasSegment(c: Content, s: LogSegment)
  {
    s.id < |c.segments| && c.segments[s.id] == s
  }

  lemma EntryInRange(t: Table, c: Content, s: LogSegment, key: Bytes, a: u64, b: u64, i: nat)
    requires Represents(t, c) && ContentOk(c) && HasSegment(c, s) && i < |c.log|
    ensures Holds(t, EntryRecord(c.log[i]))
    ensures EntryScanRange(s, key, a, b).Contains(EntryKeyOf(c.log[i])) <==> OfSegment(s.id, key, a, b)(c.log[i])
  {
    hide EntryBytes, EntryScanRange, Reserved, ListingOk;
    var r := c.log[i];
    assert InSegment(c.segments, r);
    EntryScanExact(s, key, a, b, LogEntryKey(r.segment.id, r.key, r.sequence), r.segment.meta.startSeq);
  }

  lemma EntryIsLogged(t: Table, c: Content, s: LogSegment, key: Bytes, a: u64, b: u64, k: Bytes) returns (i: nat)
    requires Represents(t, c) && ContentOk(c) && HasSegment(c, s) && k in t && EntryScanRange(s, key, a, b).Contains(k)
    ensures i < |c.log| && EntryKeyOf(c.log[i]) == k && OfSegment(s.id, key, a, b)(c.log[i])
  {
    EntryRangeInside(s, key, a, b, k);
    KindsDisjoint(k);
    assert Known(c, k);
    KindOfKey(c, k);
    i :| 0 <= i < |c.log| && EntryKeyOf(c.log[i]) == k;
    EntryInRange(t, c, s, key, a, b, i);
  }

  lemma EntriesSorted(recs: seq<LogRec>, s: LogSegment, key: Bytes)
    requires Ascends(BySequence(), recs)
    requires forall i :: 0 <= i < |recs| ==>
               recs[i].segment == s && recs[i].key == key && s.meta.startSeq <= recs[i].sequence
    ensures Sorted(EntryRecords(recs))
  {
    hide EntryBytes, Less;
    forall i, j | 0 <= i < j < |recs|
      ensures Less(EntryKeyOf(recs[i]), EntryKeyOf(recs[j]))
    {
      assert BySequence()(recs[i], recs[j]);
      EntryOrder(s.id, key, recs[i].sequence - s.meta.startSeq, s.id, key, recs[j].sequence - s.meta.startSeq);
    }
  }

  /** A scan of one segment yields exactly the key's records of the segment with a sequence
      in the range, in append order. */
  lemma EntriesExact(t: Table, c: Content, s: LogSegment, key: Bytes, a: u64, b: u64)
    requires Represents(t, c) && ContentOk(c) && HasSegment(c, s)
    ensures Scan(t, EntryScanRange(s, key, a, b)) == EntryRecords(Filter(c.log, OfSegment(s.id, key, a, b)))
  {
    hide Represents, EntryScanRange, EntryKeyOf, Scan, Less;
    var range := EntryScanRange(s, key, a, b);
    var recs := Filter(c.log, OfSegment(s.id, key, a, b));
    FilterMembers(c.log, OfSegment(s.id, key, a, b));
    LogAscends(c);
    FilterAscends(c.log, OfSegment(s.id, key, a, b));
    forall i | 0 <= i < |recs|
      ensures recs[i].segment == s && recs[i].key == key && s.meta.startSeq <= recs[i].sequence
      ensures Holds(t, EntryRecords(recs)[i]) && range.Contains(EntryRecords(recs)[i].key)
    {
      assert recs[i] in recs;
      var n :| 0 <= n < |c.log| && c.log[n] == recs[i];
      assert InSegment(c.segments, c.log[n]);
      EntryInRange(t, c, s, key, a, b, n);
    }
    EntriesSorted(recs, s, key);
    forall k | k in t && range.Contains(k)
      ensures HasKey(EntryRecords(recs), k)
    {
      var n := EntryIsLogged(t, c, s, key, a, b, k);
      assert c.log[n] in recs;
      var i :| 0 <= i < |recs| && recs[i] == c.log[n];
      assert EntryRecords(recs)[i].key == k;
    }
    ScanUnique(EntryRecords(recs), Scan(t, range), t, range);
  }

  // ----- the segment iterator -----

  datatype NextStep = Found(entry: LogEntry, rest: seq<Record>) | Exhausted | Broken(error: Error)

  /** The next entry of an arbitrary scan: entries below the range are skipped, one past it
      ends the iteration, and one that does not decode is an error. */
  function NextEntry(inner: seq<Record>, segmentStart: u64, a: u64, b: u64): NextStep
  {
    if inner == [] then Exhausted
    else
      var k := DeserializeEntryKey(inner[0].key, segmentStart);
      if k.Err? then Broken(k.error)
      else if k.value.sequence < a then NextEntry(inner[1..], segmentStart, a, b)
      else if k.value.sequence >= b then Exhausted
      else Found(LogEntry(k.value.key, k.value.sequence, inner[0].value), inner[1..])
  }

  class SegmentIterator {
    var inner: seq<Record>
    const start: u64
    const end: u64
    const segmentStart: u64

    constructor (items: seq<Record>, a: u64, b: u64, segStart: u64)
      ensures inner == items && start == a && end == b && segmentStart == segStart
    {
      inner, start, end, segmentStart := items, a, b, segStart;
    }

    method Next() returns (r: Result<Option<LogEntry>>)
      modifies this
      ensures var step := NextEntry(old(inner), segmentStart, start, end);
              && (step.Found? ==> r == Ok(Some(step.entry)) && inner == step.rest)
              && (step.Exhausted? ==> r == Ok(None))
              && (step.Broken? ==> r == Err(step.error))
    {
      hide DeserializeEntryKey;
      while inner != []
        invariant NextEntry(inner, segmentStart, start, end) == NextEntry(old(inner), segmentStart, start, end)
        decreases |inner|
      {
        var record := inner[0];
        inner := inner[1..];
        var entryKey := DeserializeEntryKey(record.key, segmentStart);
        if entryKey.Err? {
          return Err(entryKey.error);
        }
        if entryKey.value.sequence < start {
          continue;
        }
        if entryKey.value.sequence >= end {
          return Ok(None);
        }
        return Ok(Some(LogEntry(entryKey.value.key, entryKey.value.sequence, record.value)));
      }
      r := Ok(None);
    }
  }

  /** On the records of one segment the iterator yields them one by one. */
  lemma YieldsInOrder(recs: seq<LogRec>, s: LogSegment, a: u64, b: u64)
    requires forall i :: 0 <= i < |recs| ==>
               recs[i].segment == s && s.meta.startSeq <= recs[i].sequence && a <= recs[i].sequence < b
    ensures NextEntry(EntryRecords(recs), s.meta.startSeq, a, b)
         == if recs == [] then Exhausted else Found(EntryOf(recs[0]), EntryRecords(recs[1..]))
  {
    hide DeserializeEntryKey, EntryBytes;
    if recs != [] {
      var r := recs[0];
      EntryKeyRoundTrip(LogEntryKey(s.id, r.key, r.sequence), s.meta.startSeq);
      assert EntryRecords(recs)[0] == EntryRecord(r);
      assert EntryRecords(recs)[1..] == EntryRecords(recs[1..]);
    }
  }

  // ----- across segments -----

  /** What the segments from index `i` on hold of the key, one after the other. */
  function FromSegment(log: seq<LogRec>, segs: seq<LogSegment>, i: nat, key: Bytes, a: u64, b: u64): seq<LogRec>
    decreases |segs| - i
  {
    if i >= |segs| then []
    else Filter(log, OfSegment(segs[i].id, key, a, b)) + FromSegment(log, segs, i + 1, key, a, b)
  }

  ghost predicate OneHas(segs: seq<LogSegment>, i: nat, id: u32)
  {
    exists j :: i <= j < |segs| && segs[j].id == id
  }

  lemma {:induction false} FromSegmentMembers(
      log: seq<LogRec>, segs: seq<LogSegment>, i: nat, key: Bytes, a: u64, b: u64)
    ensures forall r :: r in FromSegment(log, segs, i, key, a, b) <==>
              r in log && OfKey(key, a, b)(r) && OneHas(segs, i, r.segment.id)
    decreases |segs| - i
  {
    hide Filter, OneHas;
    forall id
      ensures OneHas(segs, i, id) <==> i < |segs| && (segs[i].id == id || OneHas(segs, i + 1, id))
    {
      OneHasStep(segs, i, id);
    }
    if i < |segs| {
      FromSegmentMembers(log, segs, i + 1, key, a, b);
      FilterMembers(log, OfSegment(segs[i].id, key, a, b));
    }
  }

  lemma OneHasStep(segs: seq<LogSegment>, i: nat, id: u32)
    ensures OneHas(segs, i, id) <==> i < |segs| && (segs[i].id == id || OneHas(segs, i + 1, id))
  {
  }

  /** Records of an earlier segment have smaller sequences. */
  lemma EarlierSegment(c: Content, x: LogRec, y: LogRec)
    requires ContentOk(c) && x in c.log && y in c.log && x.segment.id < y.segment.id
    ensures x.sequence < y.sequence
  {
  }

  lemma {:induction false} FromSegmentAscends(c: Content, segs: seq<LogSegment>, i: nat, key: Bytes, a: u64, b: u64)
    requires ContentOk(c) && forall j, k :: 0 <= j < k < |segs| ==> segs[j].id < segs[k].id
    ensures Ascends(BySequence(), FromSegment(c.log, segs, i, key, a, b))
    decreases |segs| - i
  {
    hide Filter, ContentOk;
    if i < |segs| {
      FromSegmentAscends(c, segs, i + 1, key, a, b);
      FromSegmentMembers(c.log, segs, i + 1, key, a, b);
      var p := OfSegment(segs[i].id, key, a, b);
      FilterMembers(c.log, p);
      LogAscends(c);
      FilterAscends(c.log, p);
      var xs, ys := Filter(c.log, p), FromSegment(c.log, segs, i + 1, key, a, b);
      forall m, n | 0 <= m < |xs| && 0 <= n < |ys|
        ensures xs[m].sequence < ys[n].sequence
      {
        assert xs[m] in xs && ys[n] in ys;
        EarlierSegment(c, xs[m], ys[n]);
      }
      Joined(xs, ys);
    }
  }

  lemma Joined(xs: seq<LogRec>, ys: seq<LogRec>)
    requires Ascends(BySequence(), xs) && Ascends(BySequence(), ys)
    requires forall m, n :: 0 <= m < |xs| && 0 <= n < |ys| ==> xs[m].sequence < ys[n].sequence
    ensures Ascends(BySequence(), xs + ys)
  {
  }

  /** A record in the range lies in a segment that the range meets. */
  lemma RecordIsCovered(c: Content, k: nat, r: LogRec, a: u64, b: u64)
    requires ContentOk(c) && k <= |c.segments| && r in c.log && r.segment.id < k && a <= r.sequence < b
    ensures Meets(c.segments[..k], r.segment.id, a, b)
  {
    hide Reserved, ListingOk;
    assert InSegment(c.segments, r);
  }

  /** Reading those of the first `k` segments that the range meets, one after the other, is
      the same as filtering the one list of appended records. */
  lemma CoveringIsFilter(c: Content, k: nat, key: Bytes, a: u64, b: u64, lo: nat, hi: nat)
    requires ContentOk(c) && lo <= hi <= k <= |c.segments|
    requires forall i :: 0 <= i < k && Meets(c.segments[..k], i, a, b) ==> lo <= i < hi
    ensures FromSegment(c.log, c.segments[..k][lo..hi], 0, key, a, b) == Filter(c.log, OfKeyBelow(k, key, a, b))
  {
    hide Filter, FromSegment, Meets, LogOk, Reserved, ListingOk;
    var segs := c.segments[..k][lo..hi];
    var xs, ys := FromSegment(c.log, segs, 0, key, a, b), Filter(c.log, OfKeyBelow(k, key, a, b));
    FromSegmentAscends(c, segs, 0, key, a, b);
    FromSegmentMembers(c.log, segs, 0, key, a, b);
    LogAscends(c);
    FilterAscends(c.log, OfKeyBelow(k, key, a, b));
    FilterMembers(c.log, OfKeyBelow(k, key, a, b));
    forall r | r in c.log && OfKeyBelow(k, key, a, b)(r)
      ensures OneHas(segs, 0, r.segment.id)
    {
      RecordIsCovered(c, k, r, a, b);
      assert segs[r.segment.id - lo].id == r.segment.id;
    }
    forall r: LogRec | OneHas(segs, 0, r.segment.id)
      ensures r.segment.id < k
    {
    }
    assert forall r :: r in xs <==> r in ys;
    AscendingUnique(BySequence(), xs, ys);
  }

  /** What a scan across segments reads from a table, as bytes: the ranges of the segments
      that the query meets, one after the other. */
  ghost function ReadFrom(t: Table, segs: seq<LogSegment>, i: nat, key: Bytes, a: u64, b: u64): seq<Record>
    decreases |segs| - i
  {
    if i >= |segs| then []
    else
      (if Meets(segs, i, a, b) then Scan(t, EntryScanRange(segs[i], key, a, b)) else []) +
      ReadFrom(t, segs, i + 1, key, a, b)
  }

  lemma UncoveredIsEmpty(c: Content, k: nat, i: u32, key: Bytes, a: u64, b: u64)
    requires ContentOk(c) && i < k <= |c.segments| && !Meets(c.segments[..k], i, a, b)
    ensures Filter(c.log, OfSegment(i, key, a, b)) == []
  {
    hide Filter, ContentOk, Meets;
    var xs := Filter(c.log, OfSegment(i, key, a, b));
    FilterMembers(c.log, OfSegment(i, key, a, b));
    if xs != [] {
      assert xs[0] in xs;
      RecordIsCovered(c, k, xs[0], a, b);
    }
  }

  lemma RecordsConcat(xs: seq<LogRec>, ys: seq<LogRec>)
    ensures EntryRecords(xs + ys) == EntryRecords(xs) + EntryRecords(ys)
  {
    hide EntryRecord;
  }

  lemma {:induction false} ReadFromExact(t: Table, c: Content, k: nat, i: nat, key: Bytes, a: u64, b: u64)
    requires Represents(t, c) && ContentOk(c) && k <= |c.segments|
    ensures ReadFrom(t, c.segments[..k], i, key, a, b)
         == EntryRecords(FromSegment(c.log, c.segments[..k], i, key, a, b))
    decreases k - i
  {
    hide Represents, Filter, Scan, Meets, LogOk, Reserved, ListingOk, EntryScanRange;
    if i < k {
      ReadFromExact(t, c, k, i + 1, key, a, b);
      var p := OfSegment(i, key, a, b);
      RecordsConcat(Filter(c.log, p), FromSegment(c.log, c.segments[..k], i + 1, key, a, b));
      if Meets(c.segments[..k], i, a, b) {
        EntriesExact(t, c, c.segments[i], key, a, b);
      } else {
        UncoveredIsEmpty(c, k, i, key, a, b);
      }
    }
  }

  /** Reading through a cache of the first `k` segments yields exactly the records of the key
      in those segments with a sequence in the range, in append order. */
  lemma ReadKnownIsFilter(t: Table, c: Content, k: nat, key: Bytes, a: u64, b: u64)
    requires Represents(t, c) && ContentOk(c) && k <= |c.segments|
    ensures ReadFrom(t, c.segments[..k], 0, key, a, b) == EntryRecords(Filter(c.log, OfKeyBelow(k, key, a, b)))
  {
    hide Represents, Filter, FromSegment, ReadFrom, ContentOk;
    ReadFromExact(t, c, k, 0, key, a, b);
    CoveringIsFilter(c, k, key, a, b, 0, k);
    assert c.segments[..k][0..k] == c.segments[..k];
  }

  lemma {:induction false} FilterSame(log: seq<LogRec>, p: LogRec -> bool, q: LogRec -> bool)
    requires forall i :: 0 <= i < |log| ==> p(log[i]) == q(log[i])
    ensures Filter(log, p) == Filter(log, q)
  {
    if log != [] {
      FilterSame(log[..|log| - 1], p, q);
    }
  }

  lemma AllBelow(c: Content, key: Bytes, a: u64, b: u64)
    requires ContentOk(c)
    ensures Filter(c.log, OfKeyBelow(|c.segments|, key, a, b)) == Filter(c.log, OfKey(key, a, b))
  {
    hide Filter, SegmentsOk, Reserved, ListingOk;
    forall i | 0 <= i < |c.log|
      ensures c.log[i].segment.id < |c.segments|
    {
      assert InSegment(c.segments, c.log[i]);
    }
    FilterSame(c.log, OfKeyBelow(|c.segments|, key, a, b), OfKey(key, a, b));
  }

  /** Reading across any number of segments yields exactly the records of the key with a
      sequence in the range, in append order. */
  lemma ReadIsFilter(t: Table, c: Content, key: Bytes, a: u64, b: u64)
    requires Represents(t, c) && ContentOk(c)
    ensures ReadFrom(t, c.segments, 0, key, a, b) == EntryRecords(Filter(c.log, OfKey(key, a, b)))
  {
    hide Represents, Filter, ReadFrom, ContentOk;
    ReadKnownIsFilter(t, c, |c.segments|, key, a, b);
    AllBelow(c, key, a, b);
    assert c.segments[..|c.segments|] == c.segments;
  }

  // ----- the iterator -----

  /** The iterator stands before the records `recs` of its segment. */
  ghost predicate StandsBefore(it: SegmentIterator, s: LogSegment, a: u64, b: u64, recs: seq<LogRec>)
    reads it
  {
    && it.inner == EntryRecords(recs) && it.start == a && it.end == b && it.segmentStart == s.meta.startSeq
    && forall i :: 0 <= i < |recs| ==>
         recs[i].segment == s && s.meta.startSeq <= recs[i].sequence && a <= recs[i].sequence < b
  }

  method ScanEntries(t: Table, s: LogSegment, key: Bytes, a: u64, b: u64, ghost c: Content)
    returns (it: SegmentIterator)
    requires Represents(t, c) && ContentOk(c) && HasSegment(c, s)
    ensures fresh(it) && StandsBefore(it, s, a, b, Filter(c.log, OfSegment(s.id, key, a, b)))
  {
    hide Represents, Filter, Scan, EntryScanRange, SegmentsOk, Reserved, ListingOk;
    var items := ScanIter(t, EntryScanRange(s, key, a, b));
    EntriesExact(t, c, s, key, a, b);
    ghost var recs := Filter(c.log, OfSegment(s.id, key, a, b));
    FilterMembers(c.log, OfSegment(s.id, key, a, b));
    forall i | 0 <= i < |recs|
      ensures recs[i].segment == s && s.meta.startSeq <= recs[i].sequence && a <= recs[i].sequence < b
    {
      assert recs[i] in recs;
      assert InSegment(c.segments, recs[i]);
    }
    it := new SegmentIterator(items, a, b, s.meta.startSeq);
  }

  class LogIterator {
    const storage: Table
    const segments: seq<LogSegment>
    const key: Bytes
    const start: u64
    const end: u64
    var currentSegmentIdx: nat
    var currentIter: SegmentIterator?
    ghost const content: Content
    ghost var current: seq<LogRec>

    ghost predicate Valid()
      reads this, currentIter
    {
      && Represents(storage, content) && ContentOk(content)
      && (forall i :: 0 <= i < |segments| ==> HasSegment(content, segments[i]))
      && (currentIter == null ==> current == [])
      && (currentIter != null ==>
            && currentSegmentIdx < |segments|
            && StandsBefore(currentIter, segments[currentSegmentIdx], start, end, current))
    }

    /** The records still to come. */
    ghost function Todo(): seq<LogRec>
      reads this
    {
      current + FromSegment(content.log, segments, currentSegmentIdx + (if currentIter == null then 0 else 1),
                            key, start, end)
    }

    /** Opening a scan on a snapshot sets it before exactly the key's records in the range, of
        the segments that the cache knows. */
    constructor Open(t: Table, cache: SegmentCache, k: Bytes, a: u64, b: u64, ghost c: Content)
      requires Represents(t, c) && ContentOk(c) && cache.segments <= c.segments
      ensures Valid() && Todo() == Filter(c.log, OfKeyBelow(|cache.segments|, k, a, b))
      ensures cache.segments == c.segments ==> Todo() == Filter(c.log, OfKey(k, a, b))
    {
      hide Represents, Filter, LogOk, Reserved, ListingOk, FromSegment, Meets, Covering;
      var segs, lo, hi := cache.FindCovering(a, b);
      storage, segments, key, start, end := t, segs, k, a, b;
      currentSegmentIdx, currentIter := 0, null;
      content, current := c, [];
      assert c.segments[..|cache.segments|] == cache.segments;
      CoveringIsFilter(c, |cache.segments|, k, a, b, lo, hi);
      AllBelow(c, k, a, b);
    }

    /** The next record of the current segment; at its end the iterator leaves the segment. */
    method TakeCurrent() returns (entry: Option<LogEntry>)
      requires Valid() && currentIter != null
      modifies this, currentIter
      ensures Valid()
      ensures entry.Some? ==>
                && currentIter == old(currentIter) && currentSegmentIdx == old(currentSegmentIdx)
                && old(Todo()) != [] && entry.value == EntryOf(old(Todo())[0]) && Todo() == old(Todo())[1..]
      ensures entry.None? ==>
                currentIter == null && currentSegmentIdx == old(currentSegmentIdx) + 1 && Todo() == old(Todo())
    {
      hide Represents, ContentOk, Filter, FromSegment, NextEntry, HasSegment;
      ghost var rest := FromSegment(content.log, segments, currentSegmentIdx + 1, key, start, end);
      YieldsInOrder(current, segments[currentSegmentIdx], start, end);
      var r := currentIter.Next();
      entry := r.value;
      if entry.None? {
        currentIter := null;
        currentSegmentIdx := currentSegmentIdx + 1;
        current := [];
      } else {
        assert (current + rest)[1..] == current[1..] + rest;
        current := current[1..];
      }
    }

    method AdvanceSegment() returns (more: bool)
      requires Valid() && currentIter == null
      modifies this
      ensures Valid() && Todo() == old(Todo()) && currentSegmentIdx == old(currentSegmentIdx)
      ensures more <==> currentSegmentIdx < |segments|
      ensures if more then currentIter != null && fresh(currentIter) else currentIter == null && Todo() == []
    {
      hide Represents, ContentOk, Filter;
      if currentSegmentIdx >= |segments| {
        return false;
      }
      var s := segments[currentSegmentIdx];
      var it := ScanEntries(storage, s, key, start, end, content);
      current := Filter(content.log, OfSegment(s.id, key, start, end));
      currentIter := it;
      assert [] + FromSegment(content.log, segments, currentSegmentIdx, key, start, end)
          == current + FromSegment(content.log, segments, currentSegmentIdx + 1, key, start, end);
      more := true;
    }

    /** The next record in append order; no record is skipped, repeated or out of place. */
    method Next() returns (r: Result<Option<LogEntry>>)
      requires Valid()
      modifies this, currentIter
      ensures Valid()
      ensures currentIter != null && currentIter != old(currentIter) ==> fresh(currentIter)
      ensures old(Todo()) == [] ==> r == Ok(None) && Todo() == []
      ensures old(Todo()) != [] ==> r == Ok(Some(EntryOf(old(Todo())[0]))) && Todo() == old(Todo())[1..]
    {
      hide Represents, ContentOk, Filter, FromSegment, NextEntry, HasSegment;
      while true
        invariant Valid() && Todo() == old(Todo())
        invariant currentIter != null && currentIter != old(currentIter) ==> fresh(currentIter)
        decreases |segments| - currentSegmentIdx, if currentIter == null then 1 else 0
      {
        if currentIter != null {
          var entry := TakeCurrent();
          if entry.Some? {
            return Ok(entry);
          }
        }
        var more := AdvanceSegment();
        if !more {
          return Ok(None);
        }
      }
    }
  }
}
