/** Reads of the log's table (log/src/storage.rs). */
module LogStorage {
  import opened ByteStrings
  import opened LogKeys
  import opened LogTables

  function Clip(n: nat, limit: nat): nat
  {
    if n < limit then n else limit
  }

  // ----- segments -----

  function DecodeSegment(r: Record): Result<LogSegment>
  {
    var id := DeserializeSegmentMetaKey(r.key);
    if id.Err? then Err(id.error)
    else
      var meta := DeserializeSegmentMeta(r.value);
      if meta.Err? then Err(meta.error) else Ok(LogSegment(id.value, meta.value))
  }

  function DecodeSegments(items: seq<Record>): Result<seq<LogSegment>>
  {
    if items == [] then Ok([])
    else
      var front := DecodeSegments(items[..|items| - 1]);
      if front.Err? then front
      else
        var last := DecodeSegment(items[|items| - 1]);
        if last.Err? then Err(last.error) else Ok(front.value + [last.value])
  }

  ghost function SegmentsIn(t: Table, start: u32, end: u32): Result<seq<LogSegment>>
  {
    DecodeSegments(Scan(t, SegmentScanRange(start, end)))
  }

  lemma {:induction false} DecodeFails(items: seq<Record>, n: nat)
    requires n <= |items| && DecodeSegments(items[..n]).Err?
    ensures DecodeSegments(items) == DecodeSegments(items[..n])
  {
    if n < |items| {
      var m := |items| - 1;
      assert items[..m][..n] == items[..n];
      DecodeFails(items[..m], n);
    } else {
      assert items[..n] == items;
    }
  }

  method ScanSegments(t: Table, start: u32, end: u32) returns (r: Result<seq<LogSegment>>)
    ensures r == SegmentsIn(t, start, end)
  {
    hide Scan, SegmentScanRange, DecodeSegment;
    var items := ScanIter(t, SegmentScanRange(start, end));
    var segments: seq<LogSegment> := [];
    for i := 0 to |items|
      invariant DecodeSegments(items[..i]) == Ok(segments)
    {
      assert items[..i + 1][..i] == items[..i];
      var segment := DecodeSegment(items[i]);
      if segment.Err? {
        DecodeFails(items, i + 1);
        return Err(segment.error);
      }
      segments := segments + [segment.value];
    }
    assert items[..|items|] == items;
    return Ok(segments);
  }

  function SegmentRecords(segs: seq<LogSegment>): seq<Record>
  {
    seq(|segs|, i requires 0 <= i < |segs| => SegmentRecord(segs[i]))
  }

  lemma {:induction false} DecodeRecords(segs: seq<LogSegment>)
    ensures DecodeSegments(SegmentRecords(segs)) == Ok(segs)
  {
    if segs != [] {
      var n := |segs| - 1;
      DecodeRecords(segs[..n]);
      assert SegmentRecords(segs)[..n] == SegmentRecords(segs[..n]);
      SegmentMetaRoundTrip(segs[n].id, segs[n].meta);
      assert segs == segs[..n] + [segs[n]];
    }
  }

  lemma SegmentIsListed(t: Table, c: Content, start: u32, end: u32, k: Bytes) returns (i: nat)
    requires Represents(t, c) && SegmentsOk(c.segments) && k in t && SegmentScanRange(start, end).Contains(k)
    ensures start <= i < end && i < |c.segments| && SegmentRecord(c.segments[i]).key == k
  {
    SegmentRangeInside(start, end, k);
    KindsDisjoint(k);
    assert Known(c, k);
    KindOfKey(c, k);
    i :| 0 <= i < |c.segments| && SegmentMetaKey(c.segments[i].id) == k;
    SegmentScanExact(start, end, c.segments[i].id);
  }

  /** A scan of segment records returns exactly the segments with an id in the range. */
  lemma SegmentsExact(t: Table, c: Content, start: u32, end: u32)
    requires Represents(t, c) && SegmentsOk(c.segments) && start <= end
    ensures var n := |c.segments|;
            SegmentsIn(t, start, end) == Ok(c.segments[Clip(start, n)..Clip(end, n)])
  {
    var lo, hi := Clip(start, |c.segments|), Clip(end, |c.segments|);
    var segs := c.segments[lo..hi];
    SegmentRecordsAreScan(t, c, start, end);
    ScanUnique(SegmentRecords(segs), Scan(t, SegmentScanRange(start, end)), t, SegmentScanRange(start, end));
    DecodeRecords(segs);
  }

  /** A scan of all segment records returns every stored segment below the last id, also when
      ids are missing between them. */
  lemma AllSegmentsExact(t: Table, c: Content)
    requires Represents(t, c)
    requires forall i, j :: 0 <= i < j < |c.segments| ==> c.segments[i].id < c.segments[j].id
    requires forall i :: 0 <= i < |c.segments| ==> c.segments[i].id < U32_MAX
    ensures SegmentsIn(t, 0, U32_MAX) == Ok(c.segments)
  {
    hide Represents, SegmentScanRange, SegmentMetaKey, SegmentRecord, Less, Scan;
    var range := SegmentScanRange(0, U32_MAX);
    var items := SegmentRecords(c.segments);
    forall i | 0 <= i < |items|
      ensures Holds(t, items[i]) && range.Contains(items[i].key)
    {
      StoredSegment(t, c, i);
    }
    SegmentRecordsSorted(c.segments);
    forall k | k in t && range.Contains(k)
      ensures HasKey(items, k)
    {
      var i := SegmentKeyOf(t, c, k);
      assert items[i] == SegmentRecord(c.segments[i]);
    }
    ScanUnique(items, Scan(t, range), t, range);
    DecodeRecords(c.segments);
  }

  lemma StoredSegment(t: Table, c: Content, i: nat)
    requires Represents(t, c) && i < |c.segments| && c.segments[i].id < U32_MAX
    ensures Holds(t, SegmentRecord(c.segments[i]))
    ensures SegmentScanRange(0, U32_MAX).Contains(SegmentRecord(c.segments[i]).key)
  {
    SegmentScanExact(0, U32_MAX, c.segments[i].id);
  }

  lemma SegmentKeyOf(t: Table, c: Content, k: Bytes) returns (i: nat)
    requires Represents(t, c) && k in t && SegmentScanRange(0, U32_MAX).Contains(k)
    ensures i < |c.segments| && SegmentRecord(c.segments[i]).key == k
  {
    SegmentRangeInside(0, U32_MAX, k);
    KindsDisjoint(k);
    assert Known(c, k);
    KindOfKey(c, k);
    i :| 0 <= i < |c.segments| && SegmentMetaKey(c.segments[i].id) == k;
  }

  lemma SegmentRecordsAreScan(t: Table, c: Content, start: u32, end: u32)
    requires Represents(t, c) && SegmentsOk(c.segments) && start <= end
    ensures var n := |c.segments|;
            IsScan(SegmentRecords(c.segments[Clip(start, n)..Clip(end, n)]), t, SegmentScanRange(start, end))
  {
    hide Represents, SegmentScanRange, SegmentMetaKey, SegmentRecord, Less;
    var range := SegmentScanRange(start, end);
    var lo, hi := Clip(start, |c.segments|), Clip(end, |c.segments|);
    var items := SegmentRecords(c.segments[lo..hi]);
    forall i | 0 <= i < |items|
      ensures Holds(t, items[i]) && range.Contains(items[i].key)
    {
      SegmentInRange(t, c, start, end, lo + i);
    }
    SegmentRecordsSorted(c.segments[lo..hi]);
    forall k | k in t && range.Contains(k)
      ensures HasKey(items, k)
    {
      var i := SegmentIsListed(t, c, start, end, k);
      assert items[i - lo] == SegmentRecord(c.segments[i]);
    }
  }

  lemma SegmentInRange(t: Table, c: Content, start: u32, end: u32, i: nat)
    requires Represents(t, c) && SegmentsOk(c.segments) && start <= i < end && i < |c.segments|
    ensures Holds(t, SegmentRecord(c.segments[i]))
    ensures SegmentScanRange(start, end).Contains(SegmentRecord(c.segments[i]).key)
  {
    SegmentScanExact(start, end, c.segments[i].id);
  }

  lemma SegmentRecordsSorted(segs: seq<LogSegment>)
    requires forall i, j :: 0 <= i < j < |segs| ==> segs[i].id < segs[j].id
    ensures Sorted(SegmentRecords(segs))
  {
    forall i, j | 0 <= i < j < |segs|
      ensures Less(SegmentMetaKey(segs[i].id), SegmentMetaKey(segs[j].id))
    {
      SegmentKeyLess(segs[i].id, segs[j].id);
    }
  }

  // ----- the key listing -----

  /** The keys of a scan's listing records, or an error if one does not decode. */
  function DecodeKeys(items: seq<Record>): Result<set<Bytes>>
  {
    if items == [] then Ok({})
    else
      var front := DecodeKeys(items[..|items| - 1]);
      if front.Err? then front
      else
        var last := DeserializeListingKey(items[|items| - 1].key);
        if last.Err? then Err(last.error) else Ok(front.value + {last.value.1})
  }

  lemma {:induction false} DecodeKeysFails(items: seq<Record>, n: nat)
    requires n <= |items| && DecodeKeys(items[..n]).Err?
    ensures DecodeKeys(items) == DecodeKeys(items[..n])
  {
    if n < |items| {
      var m := |items| - 1;
      assert items[..m][..n] == items[..n];
      DecodeKeysFails(items[..m], n);
    } else {
      assert items[..n] == items;
    }
  }

  ghost function KeysIn(t: Table, start: u32, end: u32): Result<set<Bytes>>
  {
    if start >= end then Ok({}) else DecodeKeys(Scan(t, ListingScanRange(start, end)))
  }

  method ListKeys(t: Table, start: u32, end: u32) returns (r: Result<set<Bytes>>)
    ensures r == KeysIn(t, start, end)
  {
    hide Scan, ListingScanRange, DeserializeListingKey;
    if start >= end {
      return Ok({});
    }
    var items := ScanIter(t, ListingScanRange(start, end));
    var keys: set<Bytes> := {};
    for i := 0 to |items|
      invariant DecodeKeys(items[..i]) == Ok(keys)
    {
      assert items[..i + 1][..i] == items[..i];
      var entryKey := DeserializeListingKey(items[i].key);
      if entryKey.Err? {
        DecodeKeysFails(items, i + 1);
        return Err(entryKey.error);
      }
      keys := keys + {entryKey.value.1};
    }
    assert items[..|items|] == items;
    return Ok(keys);
  }

  /** Some record of the key was appended to a segment of the range. */
  ghost predicate HasRecord(c: Content, start: u32, end: u32, key: Bytes)
  {
    exists i :: 0 <= i < |c.log| && c.log[i].key == key && start <= c.log[i].segment.id < end
  }

  ghost predicate ListedKey(items: seq<Record>, key: Bytes)
  {
    exists i :: 0 <= i < |items| && DeserializeListingKey(items[i].key).Ok? &&
                DeserializeListingKey(items[i].key).value.1 == key
  }

  lemma {:induction false} DecodeKeysAre(items: seq<Record>)
    requires forall i :: 0 <= i < |items| ==> DeserializeListingKey(items[i].key).Ok?
    ensures DecodeKeys(items).Ok?
    ensures forall k :: k in DecodeKeys(items).value <==> ListedKey(items, k)
  {
    hide DeserializeListingKey;
    if items != [] {
      var n := |items| - 1;
      DecodeKeysAre(items[..n]);
      var last := DeserializeListingKey(items[n].key).value.1;
      forall k
        ensures ListedKey(items, k) <==> ListedKey(items[..n], k) || k == last
      {
        if ListedKey(items[..n], k) {
          var i :| 0 <= i < n && DeserializeListingKey(items[..n][i].key).value.1 == k;
          assert items[i] == items[..n][i];
        }
        if ListedKey(items, k) && k != last {
          var i :| 0 <= i < |items| && DeserializeListingKey(items[i].key).value.1 == k;
          assert items[..n][i] == items[i];
        }
        assert k == last ==> ListedKey(items, k) by {
          assert items[n].key == items[n].key;
        }
      }
    }
  }

  lemma ListingItem(t: Table, c: Content, start: u32, end: u32, k: Bytes) returns (l: Listed)
    requires Represents(t, c) && k in t && ListingScanRange(start, end).Contains(k)
    ensures l in c.listing && start <= l.segmentId < end && DeserializeListingKey(k) == Ok((l.segmentId, l.key))
  {
    ListingRangeInside(start, end, k);
    assert Known(c, k);
    KindsDisjoint(k);
    KindOfKey(c, k);
    l :| l in c.listing && ListingKey(l.segmentId, l.key) == k;
    ListingScanExact(start, end, l.segmentId, l.key);
    ListingRoundTrip(l.segmentId, l.key);
  }

  /** The listing returns exactly the keys that have a record in the segments of the range. */
  lemma ListKeysExact(t: Table, c: Content, start: u32, end: u32)
    requires Represents(t, c) && ContentOk(c)
    ensures KeysIn(t, start, end).Ok?
    ensures forall key :: key in KeysIn(t, start, end).value <==> HasRecord(c, start, end, key)
  {
    if start < end {
      var items := Scan(t, ListingScanRange(start, end));
      forall i | 0 <= i < |items|
        ensures DeserializeListingKey(items[i].key).Ok?
      {
        var l := ListingItem(t, c, start, end, items[i].key);
      }
      DecodeKeysAre(items);
      forall key
        ensures ListedKey(items, key) <==> HasRecord(c, start, end, key)
      {
        if ListedKey(items, key) {
          ListedHasRecord(t, c, start, end, key);
        }
        if HasRecord(c, start, end, key) {
          RecordIsListed(t, c, start, end, key);
        }
      }
    }
  }

  lemma ListedHasRecord(t: Table, c: Content, start: u32, end: u32, key: Bytes)
    requires Represents(t, c) && ContentOk(c) && ListedKey(Scan(t, ListingScanRange(start, end)), key)
    ensures HasRecord(c, start, end, key)
  {
    hide Represents, ListingScanRange, DeserializeListingKey, LogOk, SegmentsOk, Reserved;
    var items := Scan(t, ListingScanRange(start, end));
    var i :| 0 <= i < |items| && DeserializeListingKey(items[i].key).Ok? &&
             DeserializeListingKey(items[i].key).value.1 == key;
    var l := ListingItem(t, c, start, end, items[i].key);
    var n :| 0 <= n < |c.log| && ListedOf(c.log[n]) == l;
  }

  lemma RecordIsListed(t: Table, c: Content, start: u32, end: u32, key: Bytes)
    requires Represents(t, c) && ContentOk(c) && HasRecord(c, start, end, key)
    ensures ListedKey(Scan(t, ListingScanRange(start, end)), key)
  {
    var range := ListingScanRange(start, end);
    var items := Scan(t, range);
    var n :| 0 <= n < |c.log| && c.log[n].key == key && start <= c.log[n].segment.id < end;
    var l := ListedOf(c.log[n]);
    assert l in c.listing && Holds(t, ListingRecord(l));
    var k := ListingKey(l.segmentId, l.key);
    ListingScanExact(start, end, l.segmentId, l.key);
    ListingRoundTrip(l.segmentId, l.key);
    assert k in t && range.Contains(k) && HasKey(items, k);
  }
}
