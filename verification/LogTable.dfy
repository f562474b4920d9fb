/** The log's storage as an ordered table of bytes, and what it holds (log/src/serde.rs,
    log/src/storage.rs). */
module LogTables {
  import opened ByteStrings
  import opened ByteRanges
  import opened LogKeys

  datatype Record = Record(key: Bytes, value: Bytes)

  type Table = map<Bytes, Bytes>

  /** One atomic put. */
  function PutAll(t: Table, rs: seq<Record>): Table
  {
    if rs == [] then t
    else PutAll(t, rs[..|rs| - 1])[rs[|rs| - 1].key := rs[|rs| - 1].value]
  }

  lemma PutOne(t: Table, rs: seq<Record>, r: Record)
    ensures PutAll(t, rs + [r]) == PutAll(t, rs)[r.key := r.value]
  {
  }

  // ----- ordered scans -----

  ghost predicate Asymmetric<T(!new)>(lt: (T, T) -> bool)
  {
    forall x, y :: lt(x, y) ==> !lt(y, x)
  }

  ghost predicate Ascends<T>(lt: (T, T) -> bool, xs: seq<T>)
  {
    forall i, j :: 0 <= i < j < |xs| ==> lt(xs[i], xs[j])
  }

  /** An ascending sequence is determined by its elements. */
  lemma {:induction false} AscendingUnique<T(!new)>(lt: (T, T) -> bool, xs: seq<T>, ys: seq<T>)
    requires Asymmetric(lt) && Ascends(lt, xs) && Ascends(lt, ys)
    requires forall x :: x in xs <==> x in ys
    ensures xs == ys
  {
    assert xs != [] ==> xs[0] in ys;
    assert ys != [] ==> ys[0] in xs;
    if xs != [] {
      var n, m := |xs| - 1, |ys| - 1;
      SameLast(lt, xs, ys);
      forall x
        ensures x in xs[..n] <==> x in ys[..m]
      {
        assert x in xs[..n] ==> x in xs && lt(x, xs[n]);
        assert x in ys[..m] ==> x in ys && lt(x, ys[m]);
        assert xs == xs[..n] + [xs[n]] && ys == ys[..m] + [ys[m]];
      }
      AscendingUnique(lt, xs[..n], ys[..m]);
      assert xs == xs[..n] + [xs[n]] && ys == ys[..m] + [ys[m]];
    }
  }

  lemma SameLast<T(!new)>(lt: (T, T) -> bool, xs: seq<T>, ys: seq<T>)
    requires Asymmetric(lt) && Ascends(lt, xs) && Ascends(lt, ys) && xs != [] && ys != []
    requires forall x :: x in xs <==> x in ys
    ensures xs[|xs| - 1] == ys[|ys| - 1]
  {
    var x, y := xs[|xs| - 1], ys[|ys| - 1];
    assert x in ys && y in xs;
    var i :| 0 <= i < |xs| && xs[i] == y;
    var j :| 0 <= j < |ys| && ys[j] == x;
    assert i < |xs| - 1 ==> lt(y, x);
    assert j < |ys| - 1 ==> lt(x, y);
  }

  predicate Holds(t: Table, r: Record)
  {
    r.key in t && t[r.key] == r.value
  }

  predicate HasKey(items: seq<Record>, k: Bytes)
  {
    exists i :: 0 <= i < |items| && items[i].key == k
  }

  predicate Sorted(items: seq<Record>)
  {
    forall i, j :: 0 <= i < j < |items| ==> Less(items[i].key, items[j].key)
  }

  /** The records of the range, each once, in key order. */
  ghost predicate IsScan(items: seq<Record>, t: Table, range: BytesRange)
  {
    && Sorted(items)
    && (forall i :: 0 <= i < |items| ==> Holds(t, items[i]) && range.Contains(items[i].key))
    && forall k :: k in t && range.Contains(k) ==> HasKey(items, k)
  }

  lemma ScanUnique(xs: seq<Record>, ys: seq<Record>, t: Table, range: BytesRange)
    requires IsScan(xs, t, range) && IsScan(ys, t, range)
    ensures xs == ys
  {
    var lt := (x: Record, y: Record) => Less(x.key, y.key);
    forall x: Record, y: Record | lt(x, y)
      ensures !lt(y, x)
    {
      LessAsymmetric(x.key, y.key);
    }
    forall x: Record
      ensures x in xs <==> x in ys
    {
      ScanMembers(xs, t, range, x);
      ScanMembers(ys, t, range, x);
    }
    AscendingUnique(lt, xs, ys);
  }

  lemma ScanMembers(items: seq<Record>, t: Table, range: BytesRange, r: Record)
    requires IsScan(items, t, range)
    ensures r in items <==> Holds(t, r) && range.Contains(r.key)
  {
  }

  /** A record put in its place among sorted ones. */
  function InsertSorted(items: seq<Record>, r: Record): seq<Record>
  {
    if items == [] || !Less(r.key, items[|items| - 1].key) then items + [r]
    else InsertSorted(items[..|items| - 1], r) + [items[|items| - 1]]
  }

  lemma {:induction false} InsertSortedOk(items: seq<Record>, r: Record)
    requires Sorted(items) && !HasKey(items, r.key)
    ensures Sorted(InsertSorted(items, r))
    ensures forall x :: x in InsertSorted(items, r) <==> x in items || x == r
  {
    if items != [] {
      var n := |items| - 1;
      var last := items[n];
      if Less(r.key, last.key) {
        InsertSortedOk(items[..n], r);
        var rest := InsertSorted(items[..n], r);
        assert items == items[..n] + [last];
        forall i | 0 <= i < |rest|
          ensures Less(rest[i].key, last.key)
        {
          assert rest[i] in rest;
        }
      } else {
        LastIsGreatest(items, r);
      }
    }
  }

  lemma LastIsGreatest(items: seq<Record>, r: Record)
    requires Sorted(items) && !HasKey(items, r.key) && items != [] && !Less(r.key, items[|items| - 1].key)
    ensures forall i :: 0 <= i < |items| ==> Less(items[i].key, r.key)
  {
    var last := items[|items| - 1];
    LessTotal(last.key, r.key);
    forall i | 0 <= i < |items| - 1
      ensures Less(items[i].key, r.key)
    {
      LessTransitive(items[i].key, last.key, r.key);
    }
  }

  lemma {:induction false} ScanExists(t: Table, range: BytesRange, keys: set<Bytes>) returns (items: seq<Record>)
    requires keys <= t.Keys
    ensures Sorted(items)
    ensures forall r :: r in items <==> Holds(t, r) && r.key in keys && range.Contains(r.key)
    decreases |keys|
  {
    if keys == {} {
      items := [];
    } else {
      var k :| k in keys;
      items := ScanExists(t, range, keys - {k});
      if range.Contains(k) {
        InsertSortedOk(items, Record(k, t[k]));
        items := InsertSorted(items, Record(k, t[k]));
      }
    }
  }

  lemma ScanComplete(t: Table, range: BytesRange, items: seq<Record>)
    requires Sorted(items) && forall r :: r in items <==> Holds(t, r) && range.Contains(r.key)
    ensures IsScan(items, t, range)
  {
    forall k | k in t && range.Contains(k)
      ensures HasKey(items, k)
    {
      assert Record(k, t[k]) in items;
    }
    forall i | 0 <= i < |items|
      ensures Holds(t, items[i]) && range.Contains(items[i].key)
    {
      assert items[i] in items;
    }
  }

  /** What a scan of the ordered table yields. */
  ghost function Scan(t: Table, range: BytesRange): (items: seq<Record>)
    ensures IsScan(items, t, range)
  {
    assert exists items :: IsScan(items, t, range) by {
      var items := ScanExists(t, range, t.Keys);
      ScanComplete(t, range, items);
    }
    var items :| IsScan(items, t, range);
    items
  }

  method ScanIter(t: Table, range: BytesRange) returns (items: seq<Record>)
    ensures items == Scan(t, range)
  {
    items := [];
    var todo := t.Keys;
    while todo != {}
      invariant todo <= t.Keys
      invariant Sorted(items)
      invariant forall r :: r in items <==> Holds(t, r) && r.key !in todo && range.Contains(r.key)
      decreases |todo|
    {
      var k :| k in todo;
      todo := todo - {k};
      if range.Contains(k) {
        InsertSortedOk(items, Record(k, t[k]));
        items := InsertSorted(items, Record(k, t[k]));
      }
    }
    ScanComplete(t, range, items);
    ScanUnique(items, Scan(t, range), t, range);
  }

  // ----- contents -----

  /** One appended record, in the segment it was written to. */
  datatype LogRec = LogRec(segment: LogSegment, key: Bytes, value: Bytes, sequence: u64)

  datatype Listed = Listed(segmentId: u32, key: Bytes)

  /** What a table of the log stands for: the reserved block, the segments, the key listing
      and the records in append order. */
  datatype Content = Content(
    block: Option<SeqBlock>, segments: seq<LogSegment>, listing: set<Listed>, log: seq<LogRec>)

  const NOTHING: Content := Content(None, [], {}, [])

  function EntryKeyOf(r: LogRec): Bytes
  {
    EntryBytes(r.segment.id, r.key, SaturatingSub(r.sequence, r.segment.meta.startSeq))
  }

  function BlockRecord(b: SeqBlock): Record
  {
    Record(SEQ_BLOCK_KEY, SeqBlockValue(b))
  }

  function SegmentRecord(s: LogSegment): Record
  {
    Record(SegmentMetaKey(s.id), SegmentMetaValue(s.meta))
  }

  /** Listing records carry no value. */
  function ListingRecord(l: Listed): Record
  {
    Record(ListingKey(l.segmentId, l.key), [])
  }

  function EntryRecord(r: LogRec): Record
  {
    Record(EntryKeyOf(r), r.value)
  }

  function EntryRecords(recs: seq<LogRec>): (r: seq<Record>)
    ensures |r| == |recs|
  {
    seq(|recs|, i requires 0 <= i < |recs| => EntryRecord(recs[i]))
  }

  ghost predicate SegmentKeyIn(c: Content, k: Bytes)
  {
    exists i :: 0 <= i < |c.segments| && SegmentMetaKey(c.segments[i].id) == k
  }

  ghost predicate ListingKeyIn(c: Content, k: Bytes)
  {
    exists l :: l in c.listing && ListingKey(l.segmentId, l.key) == k
  }

  ghost predicate EntryKeyIn(c: Content, k: Bytes)
  {
    exists i :: 0 <= i < |c.log| && EntryKeyOf(c.log[i]) == k
  }

  ghost predicate Known(c: Content, k: Bytes)
  {
    (k == SEQ_BLOCK_KEY && c.block.Some?) || SegmentKeyIn(c, k) || ListingKeyIn(c, k) || EntryKeyIn(c, k)
  }

  ghost predicate HoldsAll(t: Table, c: Content)
  {
    && (c.block.Some? ==> Holds(t, BlockRecord(c.block.value)))
    && (forall i :: 0 <= i < |c.segments| ==> Holds(t, SegmentRecord(c.segments[i])))
    && (forall l :: l in c.listing ==> Holds(t, ListingRecord(l)))
    && (forall i :: 0 <= i < |c.log| ==> Holds(t, EntryRecord(c.log[i])))
  }

  /** The table holds the content's records and nothing else. */
  ghost predicate Represents(t: Table, c: Content)
  {
    HoldsAll(t, c) && forall k :: k in t ==> Known(c, k)
  }

  // ----- the partition into segments -----

  /** Ids count up from zero and rise with the first sequence. */
  ghost predicate SegmentsOk(segs: seq<LogSegment>)
  {
    && |segs| <= U32_MAX
    && (forall i :: 0 <= i < |segs| ==> segs[i].id == i)
    && forall i, j :: 0 <= i < j < |segs| ==> segs[i].meta.startSeq < segs[j].meta.startSeq
  }

  /** The record's sequence lies between its segment's first one and the next segment's. */
  ghost predicate InSegment(segs: seq<LogSegment>, r: LogRec)
  {
    && r.segment.id < |segs| && segs[r.segment.id] == r.segment
    && r.segment.meta.startSeq <= r.sequence
    && (r.segment.id + 1 < |segs| ==> r.sequence < segs[r.segment.id + 1].meta.startSeq)
  }

  ghost predicate LogOk(log: seq<LogRec>, segs: seq<LogSegment>)
  {
    && (forall i, j :: 0 <= i < j < |log| ==> log[i].sequence < log[j].sequence)
    && forall i :: 0 <= i < |log| ==> InSegment(segs, log[i])
  }

  /** Every sequence in use lies below the end of the reserved block. */
  ghost predicate Reserved(c: Content)
  {
    && (c.block.None? ==> c.segments == [] && c.log == [])
    && (c.block.Some? ==>
          && c.block.value.NextBase() <= U64_MAX
          && (forall i :: 0 <= i < |c.segments| ==> c.segments[i].meta.startSeq < c.block.value.NextBase())
          && (forall i :: 0 <= i < |c.log| ==> c.log[i].sequence < c.block.value.NextBase()))
  }

  function ListedOf(r: LogRec): Listed
  {
    Listed(r.segment.id, r.key)
  }

  /** The listing names exactly the keys that have a record in the segment. */
  ghost predicate ListingOk(listing: set<Listed>, log: seq<LogRec>)
  {
    && (forall i :: 0 <= i < |log| ==> ListedOf(log[i]) in listing)
    && forall l :: l in listing ==> exists i :: 0 <= i < |log| && ListedOf(log[i]) == l
  }

  ghost predicate ContentOk(c: Content)
  {
    SegmentsOk(c.segments) && LogOk(c.log, c.segments) && Reserved(c) && ListingOk(c.listing, c.log)
  }

  // ----- keys of different records differ -----

  lemma KindOfEntry(r: LogRec)
    ensures LOG_ENTRY <= EntryKeyOf(r)
  {
  }

  /** The kind of a record shows in its key. */
  lemma KindOfKey(c: Content, k: Bytes)
    ensures SegmentKeyIn(c, k) ==> SEGMENT_META <= k
    ensures ListingKeyIn(c, k) ==> LISTING_ENTRY <= k
    ensures EntryKeyIn(c, k) ==> LOG_ENTRY <= k
  {
  }

  lemma EntryKeysDiffer(a: LogRec, b: LogRec)
    requires EntryKeyOf(a) == EntryKeyOf(b)
    requires a.segment.id == b.segment.id ==> a.segment == b.segment
    requires a.segment.meta.startSeq <= a.sequence && b.segment.meta.startSeq <= b.sequence
    ensures a.segment == b.segment && a.key == b.key && a.sequence == b.sequence
  {
    EntryBytesInjective(a.segment.id, a.key, a.sequence - a.segment.meta.startSeq,
                        b.segment.id, b.key, b.sequence - b.segment.meta.startSeq);
  }

  // ----- one record more -----

  /** Writing under a key that no other record uses leaves the others in place. */
  ghost predicate Untouched(c: Content, k: Bytes)
  {
    && (forall i :: 0 <= i < |c.segments| ==> SegmentMetaKey(c.segments[i].id) != k)
    && (forall l :: l in c.listing ==> ListingKey(l.segmentId, l.key) != k)
    && (forall i :: 0 <= i < |c.log| ==> EntryKeyOf(c.log[i]) != k)
  }

  lemma OthersKept(t: Table, c: Content, r: Record)
    requires Represents(t, c) && Untouched(c, r.key) && r.key != SEQ_BLOCK_KEY
    ensures HoldsAll(t[r.key := r.value], c)
  {
  }

  lemma KnownMore(c: Content, c': Content, k: Bytes)
    requires Known(c, k)
    requires c.block.Some? ==> c'.block.Some?
    requires c.segments <= c'.segments && c.listing <= c'.listing && c.log <= c'.log
    ensures Known(c', k)
  {
  }

  lemma PutBlock(t: Table, c: Content, b: SeqBlock)
    requires Represents(t, c)
    ensures Represents(t[SEQ_BLOCK_KEY := SeqBlockValue(b)], c.(block := Some(b)))
  {
    var t', c' := t[SEQ_BLOCK_KEY := SeqBlockValue(b)], c.(block := Some(b));
    BlockUntouched(c);
    forall k | k in t'
      ensures Known(c', k)
    {
      if k != SEQ_BLOCK_KEY {
        KnownMore(c, c', k);
      }
    }
  }

  lemma BlockUntouched(c: Content)
    ensures Untouched(c, SEQ_BLOCK_KEY)
  {
  }

  lemma PutSegment(t: Table, c: Content, s: LogSegment)
    requires Represents(t, c) && forall i :: 0 <= i < |c.segments| ==> c.segments[i].id != s.id
    ensures Represents(t[SegmentMetaKey(s.id) := SegmentMetaValue(s.meta)], c.(segments := c.segments + [s]))
  {
    var k, c' := SegmentMetaKey(s.id), c.(segments := c.segments + [s]);
    SegmentUntouched(c, s.id);
    KindsDisjoint(k);
    OthersKept(t, c, SegmentRecord(s));
    forall x | x in t[k := SegmentMetaValue(s.meta)]
      ensures Known(c', x)
    {
      if x == k {
        assert SegmentMetaKey(c'.segments[|c.segments|].id) == k;
      } else {
        KnownMore(c, c', x);
      }
    }
  }

  lemma SegmentUntouched(c: Content, id: u32)
    requires forall i :: 0 <= i < |c.segments| ==> c.segments[i].id != id
    ensures Untouched(c, SegmentMetaKey(id))
  {
    var k := SegmentMetaKey(id);
    assert SEGMENT_META <= k;
    KindsDisjoint(k);
    forall i | 0 <= i < |c.segments|
      ensures SegmentMetaKey(c.segments[i].id) != k
    {
      SegmentKeyLess(c.segments[i].id, id);
      SegmentKeyLess(id, c.segments[i].id);
      LessIrreflexive(k);
    }
    forall l | l in c.listing
      ensures ListingKey(l.segmentId, l.key) != k
    {
      assert LISTING_ENTRY <= ListingKey(l.segmentId, l.key);
    }
    forall i | 0 <= i < |c.log|
      ensures EntryKeyOf(c.log[i]) != k
    {
      KindOfEntry(c.log[i]);
      KindsDisjoint(EntryKeyOf(c.log[i]));
    }
  }

  lemma PutListing(t: Table, c: Content, l: Listed)
    requires Represents(t, c)
    ensures Represents(t[ListingKey(l.segmentId, l.key) := []], c.(listing := c.listing + {l}))
  {
    var k, c' := ListingKey(l.segmentId, l.key), c.(listing := c.listing + {l});
    ListingKept(t, c, l);
    forall x | x in t[k := []]
      ensures Known(c', x)
    {
      if x == k {
        assert l in c'.listing;
      } else {
        KnownMore(c, c', x);
      }
    }
  }

  lemma ListingKept(t: Table, c: Content, l: Listed)
    requires HoldsAll(t, c)
    ensures HoldsAll(t[ListingKey(l.segmentId, l.key) := []], c)
  {
    ListingUntouched(c, l);
  }

  /** Listing records are all alike, so writing one over another changes nothing. */
  lemma ListingUntouched(c: Content, l: Listed)
    ensures var k := ListingKey(l.segmentId, l.key);
            k != SEQ_BLOCK_KEY && Untouched(c.(listing := {}), k)
  {
    var k := ListingKey(l.segmentId, l.key);
    assert LISTING_ENTRY <= k;
    KindsDisjoint(k);
    forall i | 0 <= i < |c.segments|
      ensures SegmentMetaKey(c.segments[i].id) != k
    {
      assert SEGMENT_META <= SegmentMetaKey(c.segments[i].id);
    }
    forall i | 0 <= i < |c.log|
      ensures EntryKeyOf(c.log[i]) != k
    {
      KindOfEntry(c.log[i]);
      KindsDisjoint(EntryKeyOf(c.log[i]));
    }
  }

  /** No two records have the same key. */
  ghost predicate DistinctKeys(log: seq<LogRec>)
  {
    forall i, j :: 0 <= i < j < |log| ==> EntryKeyOf(log[i]) != EntryKeyOf(log[j])
  }

  /** Sequences that rise, in segments told apart by their ids, make keys that differ. */
  lemma RisingIsDistinct(log: seq<LogRec>)
    requires forall i, j :: 0 <= i < j < |log| ==> log[i].sequence < log[j].sequence
    requires forall i :: 0 <= i < |log| ==> log[i].segment.meta.startSeq <= log[i].sequence
    requires forall i, j :: 0 <= i < |log| && 0 <= j < |log| && log[i].segment.id == log[j].segment.id ==>
               log[i].segment == log[j].segment
    ensures DistinctKeys(log)
  {
    hide EntryKeyOf;
    forall i, j | 0 <= i < j < |log|
      ensures EntryKeyOf(log[i]) != EntryKeyOf(log[j])
    {
      if EntryKeyOf(log[i]) == EntryKeyOf(log[j]) {
        EntryKeysDiffer(log[i], log[j]);
      }
    }
  }

  lemma DistinctFront(log: seq<LogRec>, r: LogRec)
    requires DistinctKeys(log + [r])
    ensures DistinctKeys(log) && forall i :: 0 <= i < |log| ==> EntryKeyOf(log[i]) != EntryKeyOf(r)
  {
    hide EntryKeyOf;
    var all := log + [r];
    forall i, j | 0 <= i < j < |log|
      ensures EntryKeyOf(log[i]) != EntryKeyOf(log[j])
    {
      assert EntryKeyOf(all[i]) != EntryKeyOf(all[j]);
    }
    forall i | 0 <= i < |log|
      ensures EntryKeyOf(log[i]) != EntryKeyOf(r)
    {
      assert EntryKeyOf(all[i]) != EntryKeyOf(all[|log|]);
    }
  }

  lemma LogOkIsDistinct(log: seq<LogRec>, segs: seq<LogSegment>)
    requires LogOk(log, segs)
    ensures DistinctKeys(log)
  {
    forall i | 0 <= i < |log|
      ensures log[i].segment.meta.startSeq <= log[i].sequence
      ensures log[i].segment.id < |segs| && segs[log[i].segment.id] == log[i].segment
    {
      assert InSegment(segs, log[i]);
    }
    RisingIsDistinct(log);
  }

  lemma PutEntry(t: Table, c: Content, r: LogRec)
    requires Represents(t, c) && forall i :: 0 <= i < |c.log| ==> EntryKeyOf(c.log[i]) != EntryKeyOf(r)
    ensures Represents(t[EntryKeyOf(r) := r.value], c.(log := c.log + [r]))
  {
    var k, c' := EntryKeyOf(r), c.(log := c.log + [r]);
    EntryUntouched(c, r);
    OthersKept(t, c, EntryRecord(r));
    forall x | x in t[k := r.value]
      ensures Known(c', x)
    {
      if x == k {
        assert c'.log[|c.log|] == r;
      } else {
        KnownMore(c, c', x);
      }
    }
  }

  lemma EntryUntouched(c: Content, r: LogRec)
    requires forall i :: 0 <= i < |c.log| ==> EntryKeyOf(c.log[i]) != EntryKeyOf(r)
    ensures Untouched(c, EntryKeyOf(r)) && EntryKeyOf(r) != SEQ_BLOCK_KEY
  {
    var k := EntryKeyOf(r);
    KindOfEntry(r);
    KindsDisjoint(k);
    forall i | 0 <= i < |c.segments|
      ensures SegmentMetaKey(c.segments[i].id) != k
    {
      assert SEGMENT_META <= SegmentMetaKey(c.segments[i].id);
    }
    forall l | l in c.listing
      ensures ListingKey(l.segmentId, l.key) != k
    {
      assert LISTING_ENTRY <= ListingKey(l.segmentId, l.key);
    }
  }
}
