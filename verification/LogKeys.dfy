/** Keys and values of the log's storage records (log/src/serde.rs,
    common/src/serde/seq_block.rs). */
module LogKeys {
  import opened ByteStrings
  import opened ByteRanges
  import TerminatedBytes
  import VarInt

  const SEQ_BLOCK_KEY: Bytes := [0x03, 0x01, 0x20]
  const LOG_ENTRY: Bytes := [0x03, 0x01, 0x10]
  const SEGMENT_META: Bytes := [0x03, 0x01, 0x30]
  const LISTING_ENTRY: Bytes := [0x03, 0x01, 0x40]

  datatype SegmentMeta = SegmentMeta(startSeq: u64, startTimeMs: i64)

  datatype LogSegment = LogSegment(id: u32, meta: SegmentMeta)

  datatype LogEntryKey = LogEntryKey(segmentId: u32, key: Bytes, sequence: u64)

  datatype SeqBlock = SeqBlock(baseSequence: u64, blockSize: u64) {
    function NextBase(): nat
    {
      baseSequence + blockSize
    }
  }

  /** The record type in the high four bits of the tag byte; the low four are ignored. */
  function RecordType(data: Bytes): Result<nat>
  {
    if |data| < 3 then Err(Encoding)
    else if data[0] != 0x03 || data[1] != 0x01 || data[2] == 0 then Err(Encoding)
    else if 1 <= data[2] / 16 <= 4 then Ok(data[2] / 16)
    else Err(Encoding)
  }

  // ----- log entries -----

  function EntryBytes(segmentId: u32, key: Bytes, relativeSeq: u64): Bytes
  {
    LOG_ENTRY + BE(4, segmentId) + TerminatedBytes.Terminated(key) + VarInt.Encode(relativeSeq)
  }

  function SerializeEntryKey(k: LogEntryKey, segmentStart: u64): Bytes
    requires segmentStart <= k.sequence
  {
    EntryBytes(k.segmentId, k.key, k.sequence - segmentStart)
  }

  function DeserializeEntryKey(data: Bytes, segmentStart: u64): Result<LogEntryKey>
  {
    if RecordType(data) != Ok(1) then Err(Encoding)
    else if |data| < 7 then Err(Encoding)
    else
      var key := TerminatedBytes.Parse(data[7..]);
      if key.Err? then Err(Encoding)
      else
        var rel := VarInt.Parse(key.value.1);
        if rel.Err? then Err(Encoding)
        else if segmentStart + rel.value.0 > U64_MAX then Err(Overflow)
        else Ok(LogEntryKey(FromU32BE(data[3..7]), key.value.0, segmentStart + rel.value.0))
  }

  function FromU32BE(s: Bytes): (r: u32)
    requires |s| == 4
  {
    FromBEBound(s);
    Pow256Values();
    FromBE(s)
  }

  function FromU64BE(s: Bytes): (r: u64)
    requires |s| == 8
  {
    FromBEBound(s);
    Pow256Values();
    FromBE(s)
  }

  function SaturatingSub(a: u64, b: u64): u64
  {
    if a < b then 0 else a - b
  }

  function ScanKey(segment: LogSegment, key: Bytes, sequence: u64): Bytes
  {
    EntryBytes(segment.id, key, SaturatingSub(sequence, segment.meta.startSeq))
  }

  function EntryScanRange(segment: LogSegment, key: Bytes, start: u64, end: u64): BytesRange
  {
    BytesRange(Included(ScanKey(segment, key, start)), Excluded(ScanKey(segment, key, end)))
  }

  /** The fields of an entry key, in place. */
  lemma EntryFields(id: u32, key: Bytes, rel: u64)
    ensures var data := EntryBytes(id, key, rel);
            && RecordType(data) == Ok(1) && |data| >= 7
            && data[3..7] == BE(4, id)
            && data[7..] == TerminatedBytes.Terminated(key) + VarInt.Encode(rel)
            && data == LOG_ENTRY + (BE(4, id) + (TerminatedBytes.Terminated(key) + VarInt.Encode(rel)))
  {
    var tail := TerminatedBytes.Terminated(key) + VarInt.Encode(rel);
    assert EntryBytes(id, key, rel) == LOG_ENTRY + BE(4, id) + tail;
  }

  lemma EntryTail(key: Bytes, rel: u64)
    ensures TerminatedBytes.Parse(TerminatedBytes.Terminated(key) + VarInt.Encode(rel)) == Ok((key, VarInt.Encode(rel)))
    ensures VarInt.Parse(VarInt.Encode(rel)) == Ok((rel, []))
  {
    TerminatedBytes.ParseTerminated(key, VarInt.Encode(rel));
    VarInt.ParseEncode(rel, []);
    assert VarInt.Encode(rel) + [] == VarInt.Encode(rel);
  }

  lemma U32RoundTrip(id: u32)
    ensures FromU32BE(BE(4, id)) == id
  {
    Pow256Values();
    BERoundTrip(4, id);
  }

  lemma EntryKeyRoundTrip(k: LogEntryKey, segmentStart: u64)
    requires segmentStart <= k.sequence
    ensures DeserializeEntryKey(SerializeEntryKey(k, segmentStart), segmentStart) == Ok(k)
  {
    hide TerminatedBytes.Parse, TerminatedBytes.Terminated, VarInt.Parse, VarInt.Encode, EntryBytes, FromU32BE;
    EntryFields(k.segmentId, k.key, k.sequence - segmentStart);
    EntryTail(k.key, k.sequence - segmentStart);
    U32RoundTrip(k.segmentId);
  }

  /** How two entry keys compare: by segment, then by user key, then by sequence. */
  predicate EntryBefore(s1: nat, k1: Bytes, r1: nat, s2: nat, k2: Bytes, r2: nat)
  {
    s1 < s2 || (s1 == s2 && (Less(k1, k2) || (k1 == k2 && r1 < r2)))
  }

  lemma EntryOrder(s1: u32, k1: Bytes, r1: u64, s2: u32, k2: Bytes, r2: u64)
    ensures Less(EntryBytes(s1, k1, r1), EntryBytes(s2, k2, r2)) <==> EntryBefore(s1, k1, r1, s2, k2, r2)
  {
    if EntryBefore(s1, k1, r1, s2, k2, r2) {
      EntryOrderForward(s1, k1, r1, s2, k2, r2);
    } else if EntryBefore(s2, k2, r2, s1, k1, r1) {
      EntryOrderForward(s2, k2, r2, s1, k1, r1);
      LessTotal(EntryBytes(s1, k1, r1), EntryBytes(s2, k2, r2));
    } else {
      LessTotal(k1, k2);
      LessIrreflexive(EntryBytes(s1, k1, r1));
    }
  }

  lemma EntryOrderForward(s1: u32, k1: Bytes, r1: u64, s2: u32, k2: Bytes, r2: u64)
    requires EntryBefore(s1, k1, r1, s2, k2, r2)
    ensures Less(EntryBytes(s1, k1, r1), EntryBytes(s2, k2, r2))
  {
    var x := TerminatedBytes.Terminated(k1) + VarInt.Encode(r1);
    var y := TerminatedBytes.Terminated(k2) + VarInt.Encode(r2);
    EntryFields(s1, k1, r1);
    EntryFields(s2, k2, r2);
    LessCommonPrefix(LOG_ENTRY, BE(4, s1) + x, BE(4, s2) + y);
    if s1 < s2 {
      Pow256Values();
      BEOrder(4, s1, s2, x, y);
    } else {
      LessCommonPrefix(BE(4, s1), x, y);
      TailOrder(k1, r1, k2, r2);
    }
  }

  lemma TailOrder(k1: Bytes, r1: u64, k2: Bytes, r2: u64)
    requires Less(k1, k2) || (k1 == k2 && r1 < r2)
    ensures Less(TerminatedBytes.Terminated(k1) + VarInt.Encode(r1), TerminatedBytes.Terminated(k2) + VarInt.Encode(r2))
  {
    if k1 != k2 {
      TerminatedBytes.TerminatedOrder(k1, k2, VarInt.Encode(r1), VarInt.Encode(r2));
    } else {
      LessIrreflexive(k1);
      LessCommonPrefix(TerminatedBytes.Terminated(k1), VarInt.Encode(r1), VarInt.Encode(r2));
      VarInt.EncodeOrder(r1, r2, [], []);
      assert VarInt.Encode(r1) + [] == VarInt.Encode(r1) && VarInt.Encode(r2) + [] == VarInt.Encode(r2);
    }
  }

  lemma EntryBytesInjective(s1: u32, k1: Bytes, r1: u64, s2: u32, k2: Bytes, r2: u64)
    requires EntryBytes(s1, k1, r1) == EntryBytes(s2, k2, r2)
    ensures s1 == s2 && k1 == k2 && r1 == r2
  {
    LessIrreflexive(EntryBytes(s1, k1, r1));
    EntryOrder(s1, k1, r1, s2, k2, r2);
    EntryOrder(s2, k2, r2, s1, k1, r1);
    LessTotal(k1, k2);
  }

  /** A stored entry is inside the scan range of (segment, key, [start, end)) exactly
      when its segment and key match and its sequence is in [start, end). */
  lemma EntryScanExact(segment: LogSegment, key: Bytes, start: u64, end: u64, e: LogEntryKey, entryStart: u64)
    requires entryStart <= e.sequence
    requires e.segmentId == segment.id ==> entryStart == segment.meta.startSeq
    ensures EntryScanRange(segment, key, start, end).Contains(SerializeEntryKey(e, entryStart)) <==>
            e.segmentId == segment.id && e.key == key && start <= e.sequence < end
  {
    var rel := e.sequence - entryStart;
    var lo, hi := SaturatingSub(start, segment.meta.startSeq), SaturatingSub(end, segment.meta.startSeq);
    EntryOrder(e.segmentId, e.key, rel, segment.id, key, lo);
    EntryOrder(e.segmentId, e.key, rel, segment.id, key, hi);
    LessTotal(e.key, key);
  }

  lemma EntryRangeInside(segment: LogSegment, key: Bytes, start: u64, end: u64, b: Bytes)
    requires EntryScanRange(segment, key, start, end).Contains(b)
    ensures LOG_ENTRY <= b
  {
    var lo, hi := ScanKey(segment, key, start), ScanKey(segment, key, end);
    assert lo == LOG_ENTRY + lo[3..] && hi == LOG_ENTRY + hi[3..];
    LessTotal(b, hi);
    BetweenSharesPrefix(LOG_ENTRY, lo[3..], hi[3..], b);
  }

  // ----- segment metadata -----

  function SegmentMetaKey(id: u32): Bytes
  {
    SEGMENT_META + BE(4, id)
  }

  function DeserializeSegmentMetaKey(data: Bytes): Result<u32>
  {
    if RecordType(data) != Ok(3) then Err(Encoding)
    else if |data| < 7 then Err(Encoding)
    else Ok(FromU32BE(data[3..7]))
  }

  function SegmentMetaValue(m: SegmentMeta): Bytes
  {
    BE(8, m.startSeq) + BE(8, Unsigned(m.startTimeMs))
  }

  function DeserializeSegmentMeta(data: Bytes): Result<SegmentMeta>
  {
    if |data| < 16 then Err(Encoding)
    else Ok(SegmentMeta(FromU64BE(data[0..8]), Signed(FromU64BE(data[8..16]))))
  }

  function SegmentScanRange(start: u32, end: u32): BytesRange
  {
    BytesRange(Included(SegmentMetaKey(start)), Excluded(SegmentMetaKey(end)))
  }

  lemma SegmentMetaRoundTrip(id: u32, m: SegmentMeta)
    ensures DeserializeSegmentMetaKey(SegmentMetaKey(id)) == Ok(id)
    ensures DeserializeSegmentMeta(SegmentMetaValue(m)) == Ok(m)
  {
    Pow256Values();
    assert SegmentMetaKey(id)[3..7] == BE(4, id);
    BERoundTrip(4, id);
    var v := SegmentMetaValue(m);
    assert v[0..8] == BE(8, m.startSeq) && v[8..16] == BE(8, Unsigned(m.startTimeMs));
    BERoundTrip(8, m.startSeq);
    BERoundTrip(8, Unsigned(m.startTimeMs));
  }

  lemma SegmentKeyOrder(a: u32, b: u32, x: Bytes, y: Bytes)
    requires a < b
    ensures Less(SegmentMetaKey(a) + x, SegmentMetaKey(b) + y)
  {
    Pow256Values();
    BEOrder(4, a, b, x, y);
    LessCommonPrefix(SEGMENT_META, BE(4, a) + x, BE(4, b) + y);
    assert SegmentMetaKey(a) + x == SEGMENT_META + (BE(4, a) + x);
    assert SegmentMetaKey(b) + y == SEGMENT_META + (BE(4, b) + y);
  }

  lemma SegmentKeyLess(a: u32, b: u32)
    ensures Less(SegmentMetaKey(a), SegmentMetaKey(b)) <==> a < b
  {
    assert SegmentMetaKey(a) + [] == SegmentMetaKey(a) && SegmentMetaKey(b) + [] == SegmentMetaKey(b);
    LessTotal(SegmentMetaKey(a), SegmentMetaKey(b));
    LessIrreflexive(SegmentMetaKey(a));
    if a < b {
      SegmentKeyOrder(a, b, [], []);
    } else if b < a {
      SegmentKeyOrder(b, a, [], []);
    }
  }

  lemma SegmentScanExact(start: u32, end: u32, id: u32)
    ensures SegmentScanRange(start, end).Contains(SegmentMetaKey(id)) <==> start <= id < end
  {
    SegmentKeyLess(id, start);
    SegmentKeyLess(id, end);
  }

  lemma SegmentRangeInside(start: u32, end: u32, b: Bytes)
    requires SegmentScanRange(start, end).Contains(b)
    ensures SEGMENT_META <= b
  {
    LessTotal(b, SegmentMetaKey(end));
    BetweenSharesPrefix(SEGMENT_META, BE(4, start), BE(4, end), b);
  }

  // ----- key listing -----

  function ListingKey(segmentId: u32, key: Bytes): Bytes
  {
    LISTING_ENTRY + BE(4, segmentId) + key
  }

  function DeserializeListingKey(data: Bytes): Result<(u32, Bytes)>
  {
    if RecordType(data) != Ok(4) then Err(Encoding)
    else if |data| < 7 then Err(Encoding)
    else Ok((FromU32BE(data[3..7]), data[7..]))
  }

  function ListingScanRange(start: u32, end: u32): BytesRange
  {
    BytesRange(Included(LISTING_ENTRY + BE(4, start)), Excluded(LISTING_ENTRY + BE(4, end)))
  }

  lemma ListingRoundTrip(segmentId: u32, key: Bytes)
    ensures DeserializeListingKey(ListingKey(segmentId, key)) == Ok((segmentId, key))
  {
    Pow256Values();
    var data := ListingKey(segmentId, key);
    assert data[3..7] == BE(4, segmentId) && data[7..] == key;
    BERoundTrip(4, segmentId);
  }

  /** A listing record is inside the range of [start, end) exactly when its segment is. */
  lemma ListingScanExact(start: u32, end: u32, segmentId: u32, key: Bytes)
    ensures ListingScanRange(start, end).Contains(ListingKey(segmentId, key)) <==> start <= segmentId < end
  {
    ListingAgainst(segmentId, key, start);
    ListingAgainst(segmentId, key, end);
  }

  lemma ListingAgainst(segmentId: u32, key: Bytes, bound: u32)
    ensures Less(ListingKey(segmentId, key), LISTING_ENTRY + BE(4, bound)) <==> segmentId < bound
  {
    Pow256Values();
    var b := LISTING_ENTRY + BE(4, bound);
    assert ListingKey(segmentId, key) == LISTING_ENTRY + (BE(4, segmentId) + key);
    assert BE(4, bound) + [] == BE(4, bound);
    LessCommonPrefix(LISTING_ENTRY, BE(4, segmentId) + key, BE(4, bound) + []);
    LessTotal(BE(4, segmentId) + key, BE(4, bound) + []);
    if segmentId < bound {
      BEOrder(4, segmentId, bound, key, []);
    } else if bound < segmentId {
      BEOrder(4, bound, segmentId, [], key);
    } else {
      PrefixAtMost(BE(4, bound), key);
    }
  }

  lemma ListingRangeInside(start: u32, end: u32, b: Bytes)
    requires ListingScanRange(start, end).Contains(b)
    ensures LISTING_ENTRY <= b
  {
    LessTotal(b, LISTING_ENTRY + BE(4, end));
    BetweenSharesPrefix(LISTING_ENTRY, BE(4, start), BE(4, end), b);
  }

  // ----- sequence blocks -----

  function SeqBlockValue(b: SeqBlock): Bytes
  {
    BE(8, b.baseSequence) + BE(8, b.blockSize)
  }

  function DeserializeSeqBlock(data: Bytes): Result<SeqBlock>
  {
    if |data| < 16 then Err(Encoding)
    else Ok(SeqBlock(FromU64BE(data[0..8]), FromU64BE(data[8..16])))
  }

  lemma SeqBlockRoundTrip(b: SeqBlock)
    ensures DeserializeSeqBlock(SeqBlockValue(b)) == Ok(b)
  {
    Pow256Values();
    var v := SeqBlockValue(b);
    assert v[0..8] == BE(8, b.baseSequence) && v[8..16] == BE(8, b.blockSize);
    BERoundTrip(8, b.baseSequence);
    BERoundTrip(8, b.blockSize);
  }

  /** The type that is read back from a key is that of its kind. */
  lemma TypesOfKinds(b: Bytes)
    ensures LOG_ENTRY <= b ==> RecordType(b) == Ok(1)
    ensures SEQ_BLOCK_KEY <= b ==> RecordType(b) == Ok(2)
    ensures SEGMENT_META <= b ==> RecordType(b) == Ok(3)
    ensures LISTING_ENTRY <= b ==> RecordType(b) == Ok(4)
  {
    if |b| >= 3 {
      assert LOG_ENTRY <= b ==> b[0] == 0x03 && b[1] == 0x01 && b[2] == 0x10;
      assert SEQ_BLOCK_KEY <= b ==> b[0] == 0x03 && b[1] == 0x01 && b[2] == 0x20;
      assert SEGMENT_META <= b ==> b[0] == 0x03 && b[1] == 0x01 && b[2] == 0x30;
      assert LISTING_ENTRY <= b ==> b[0] == 0x03 && b[1] == 0x01 && b[2] == 0x40;
    }
  }

  /** Records of different kinds never share a storage key. */
  lemma KindsDisjoint(b: Bytes)
    ensures LOG_ENTRY <= b ==> !(SEGMENT_META <= b) && !(LISTING_ENTRY <= b) && b != SEQ_BLOCK_KEY
    ensures SEGMENT_META <= b ==> !(LISTING_ENTRY <= b) && b != SEQ_BLOCK_KEY
    ensures LISTING_ENTRY <= b ==> b != SEQ_BLOCK_KEY
  {
    if |b| >= 3 {
      assert LOG_ENTRY <= b ==> b[2] == 0x10;
      assert SEGMENT_META <= b ==> b[2] == 0x30;
      assert LISTING_ENTRY <= b ==> b[2] == 0x40;
    }
  }
}
