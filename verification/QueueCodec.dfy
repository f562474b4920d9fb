/** The binary form of queue entries (buffer/src/queue.rs). */
module QueueCodec {
  import opened ByteStrings
  import opened Utf8

  const FOOTER_SIZE: nat := 22
  const MIN_ENTRY_SIZE: nat := 18

  datatype Metadata = Metadata(startIndex: u32, ingestionTimeMs: i64, payload: Bytes)

  /** A location is the UTF-8 text of an object path. */
  datatype QueueEntry = QueueEntry(sequence: u64, location: Bytes, metadata: seq<Metadata>)

  // ----- what the encoder writes -----

  function MetadataBytes(m: Metadata): (r: Bytes)
    ensures |r| == 16 + |m.payload|
  {
    LE(4, m.startIndex) + LE(8, Unsigned(m.ingestionTimeMs)) + LE(4, |m.payload|) + m.payload
  }

  function MetadataListBytes(ms: seq<Metadata>): (r: Bytes)
    ensures |r| == MetadataSize(ms)
  {
    if ms == [] then [] else MetadataBytes(ms[0]) + MetadataListBytes(ms[1..])
  }

  function MetadataSize(ms: seq<Metadata>): nat
  {
    if ms == [] then 0 else 16 + |ms[0].payload| + MetadataSize(ms[1..])
  }

  function BodyLength(e: QueueEntry): nat
  {
    8 + 2 + |e.location| + 4 + MetadataSize(e.metadata)
  }

  /** Lengths wider than their field are truncated, as the casts truncate them. */
  function EntryBytes(e: QueueEntry): (r: Bytes)
    ensures |r| == 4 + BodyLength(e)
  {
    EntryHeader(e) + MetadataListBytes(e.metadata)
  }

  function EntryHeader(e: QueueEntry): (r: Bytes)
    ensures |r| == 18 + |e.location|
  {
    LE(4, BodyLength(e)) + LE(8, e.sequence) + LE(2, |e.location|) + e.location + LE(4, |e.metadata|)
  }

  function EntriesBytes(es: seq<QueueEntry>): Bytes
  {
    if es == [] then [] else EntryBytes(es[0]) + EntriesBytes(es[1..])
  }

  /** The field limits within which an entry survives encoding. */
  predicate Fits(e: QueueEntry)
  {
    && |e.location| <= U16_MAX
    && ValidUtf8(e.location)
    && |e.metadata| <= U32_MAX
    && BodyLength(e) <= U32_MAX
  }

  predicate AllFit(es: seq<QueueEntry>)
  {
    forall i :: 0 <= i < |es| ==> Fits(es[i])
  }

  predicate PayloadsFit(ms: seq<Metadata>)
  {
    forall i :: 0 <= i < |ms| ==> |ms[i].payload| <= U32_MAX
  }

  // ----- the names of batch files -----

  const SLASH: byte := 0x2F

  /** ".batch" */
  const BATCH_SUFFIX: Bytes := [0x2E, 0x62, 0x61, 0x74, 0x63, 0x68]

  /** The location of a batch file below a prefix. */
  function BatchPath(prefix: Bytes, id: Bytes): Bytes
  {
    prefix + [SLASH] + id + BATCH_SUFFIX
  }

  /** Identifiers are ASCII and the prefix is some text, so an entry that names a batch file
      fits whenever its lengths do. */
  lemma BatchPathFits(prefix: Bytes, id: Bytes, q: u64, ms: seq<Metadata>)
    requires ValidUtf8(prefix) && IsAscii(id)
    ensures var e := QueueEntry(q, BatchPath(prefix, id), ms);
            Fits(e) <==> |e.location| <= U16_MAX && |ms| <= U32_MAX && BodyLength(e) <= U32_MAX
  {
    hide ValidUtf8;
    var name := [SLASH] + id + BATCH_SUFFIX;
    AsciiValid(name);
    ValidConcat(prefix, name);
    assert prefix + name == BatchPath(prefix, id);
  }

  method EncodeEntry(buf: Bytes, e: QueueEntry) returns (r: Result<()>, out: Bytes)
    ensures r.Ok? <==> PayloadsFit(e.metadata)
    ensures r.Ok? ==> out == buf + EntryBytes(e)
    ensures r.Err? ==> r.error == InvalidInput
  {
    var header := LE(4, BodyLength(e));
    header := header + LE(8, e.sequence);
    header := header + LE(2, |e.location|);
    header := header + e.location;
    header := header + LE(4, |e.metadata|);
    r, out := EncodeMetadata(buf + header, e.metadata);
    if r.Ok? {
      assert buf + EntryBytes(e) == (buf + header) + MetadataListBytes(e.metadata);
    }
  }

  /** The encoder's loop over the metadata; an oversized payload stops it midway. */
  method EncodeMetadata(buf: Bytes, ms: seq<Metadata>) returns (r: Result<()>, out: Bytes)
    ensures r.Ok? <==> PayloadsFit(ms)
    ensures r.Ok? ==> out == buf + MetadataListBytes(ms)
    ensures r.Err? ==> r.error == InvalidInput
  {
    out := buf;
    assert ms[0..] == ms;
    for i := 0 to |ms|
      invariant forall j :: 0 <= j < i ==> |ms[j].payload| <= U32_MAX
      invariant out + MetadataListBytes(ms[i..]) == buf + MetadataListBytes(ms)
    {
      var m := ms[i];
      if |m.payload| > U32_MAX {
        return Err(InvalidInput), out;
      }
      assert ms[i..][0] == m && ms[i..][1..] == ms[i + 1..];
      var field := LE(4, m.startIndex) + LE(8, Unsigned(m.ingestionTimeMs)) + LE(4, |m.payload|) + m.payload;
      assert (out + field) + MetadataListBytes(ms[i + 1..]) == out + (field + MetadataListBytes(ms[i + 1..]));
      out := out + field;
    }
    assert ms[|ms|..] == [];
    r := Ok(());
  }

  // ----- what the decoder reads -----

  /** The outcome of a decode and where it left the offset, also after an error. */
  datatype Decoded<+T> = Decoded(result: Result<T>, offset: nat)

  function Field(data: Bytes, offset: nat, size: nat): nat
    requires offset + size <= |data|
  {
    FromLE(data[offset..offset + size])
  }

  function FieldU32(data: Bytes, offset: nat): (r: u32)
    requires offset + 4 <= |data|
  {
    FromLEBound(data[offset..offset + 4]);
    Pow256Values();
    Field(data, offset, 4)
  }

  function FieldU64(data: Bytes, offset: nat): (r: u64)
    requires offset + 8 <= |data|
  {
    FromLEBound(data[offset..offset + 8]);
    Pow256Values();
    Field(data, offset, 8)
  }

  function DecodeMetadata(data: Bytes, offset: nat, end: nat): (r: Decoded<Metadata>)
    requires end <= |data|
    ensures r.offset >= offset
    ensures offset <= end ==> r.offset <= end
  {
    if offset + 4 > end then Decoded(Err(Serialization), offset)
    else if offset + 12 > end then Decoded(Err(Serialization), offset + 4)
    else if offset + 16 > end then Decoded(Err(Serialization), offset + 12)
    else
      var len := FieldU32(data, offset + 12);
      if offset + 16 + len > end then Decoded(Err(Serialization), offset + 16)
      else Decoded(Ok(Metadata(FieldU32(data, offset), Signed(FieldU64(data, offset + 4)),
                               data[offset + 16..offset + 16 + len])), offset + 16 + len)
  }

  function DecodeMetadataList(data: Bytes, offset: nat, end: nat, count: nat): (r: Decoded<seq<Metadata>>)
    requires end <= |data|
    ensures r.offset >= offset
    ensures offset <= end ==> r.offset <= end
    ensures r.result.Ok? ==> |r.result.value| == count
    decreases count
  {
    if count == 0 then Decoded(Ok([]), offset)
    else
      var m := DecodeMetadata(data, offset, end);
      if m.result.Err? then Decoded(Err(m.result.error), m.offset)
      else
        var rest := DecodeMetadataList(data, m.offset, end, count - 1);
        if rest.result.Err? then rest
        else Decoded(Ok([m.result.value] + rest.result.value), rest.offset)
  }

  /** The sequence and location length are read before the entry length is checked
      against them, so the buffer must reach that far whenever the length fits. */
  predicate ReadsInside(data: Bytes, offset: nat, end: nat)
  {
    && end <= |data|
    && (offset + 4 <= end && offset + 4 + Field(data, offset, 4) <= end ==> offset + 14 <= |data|)
  }

  function DecodeEntry(data: Bytes, offset: nat, end: nat): (r: Decoded<QueueEntry>)
    requires ReadsInside(data, offset, end)
  {
    if offset + 4 > end then Decoded(Err(Serialization), offset)
    else
      var len := Field(data, offset, 4);
      if offset + 4 + len > end then Decoded(Err(Serialization), offset + 4)
      else
        var entryEnd := offset + 4 + len;
        var locationLen := Field(data, offset + 12, 2);
        if len < 14 + locationLen then Decoded(Err(Serialization), offset + 14)
        else
          var location := data[offset + 14..offset + 14 + locationLen];
          if !ValidUtf8(location) then Decoded(Err(Serialization), offset + 14)
          else
            var count := Field(data, offset + 14 + locationLen, 4);
            var ms := DecodeMetadataList(data, offset + 18 + locationLen, end, count);
            if ms.result.Err? then Decoded(Err(ms.result.error), ms.offset)
            else Decoded(Ok(QueueEntry(FieldU64(data, offset + 4), location, ms.result.value)), entryEnd)
  }

  method DecodeEntryAt(data: Bytes, start: nat, end: nat) returns (r: Result<QueueEntry>, offset: nat)
    requires ReadsInside(data, start, end)
    ensures Decoded(r, offset) == DecodeEntry(data, start, end)
  {
    offset := start;
    if offset + 4 > end {
      return Err(Serialization), offset;
    }
    var len := Field(data, offset, 4);
    offset := offset + 4;
    if offset + len > end {
      return Err(Serialization), offset;
    }
    var entryEnd := offset + len;
    var sequence := FieldU64(data, offset);
    offset := offset + 8;
    var locationLen := Field(data, offset, 2);
    offset := offset + 2;
    if len < 8 + 2 + locationLen + 4 {
      return Err(Serialization), offset;
    }
    var location := data[offset..offset + locationLen];
    if !ValidUtf8(location) {
      return Err(Serialization), offset;
    }
    offset := offset + locationLen;
    var count := Field(data, offset, 4);
    offset := offset + 4;
    var ms: Result<seq<Metadata>>;
    ms, offset := DecodeMetadataListAt(data, offset, end, count);
    if ms.Err? {
      return Err(ms.error), offset;
    }
    offset := entryEnd;
    r := Ok(QueueEntry(sequence, location, ms.value));
  }

  method DecodeMetadataAt(data: Bytes, start: nat, end: nat) returns (r: Result<Metadata>, offset: nat)
    requires end <= |data|
    ensures Decoded(r, offset) == DecodeMetadata(data, start, end)
  {
    offset := start;
    if offset + 4 > end {
      return Err(Serialization), offset;
    }
    var startIndex := FieldU32(data, offset);
    offset := offset + 4;
    if offset + 8 > end {
      return Err(Serialization), offset;
    }
    var time := Signed(FieldU64(data, offset));
    offset := offset + 8;
    if offset + 4 > end {
      return Err(Serialization), offset;
    }
    var payloadLen := FieldU32(data, offset);
    offset := offset + 4;
    if offset + payloadLen > end {
      return Err(Serialization), offset;
    }
    r := Ok(Metadata(startIndex, time, data[offset..offset + payloadLen]));
    offset := offset + payloadLen;
  }

  /** The decoder's loop over the metadata. */
  method DecodeMetadataListAt(data: Bytes, start: nat, end: nat, count: nat)
    returns (r: Result<seq<Metadata>>, offset: nat)
    requires end <= |data|
    ensures Decoded(r, offset) == DecodeMetadataList(data, start, end, count)
  {
    offset := start;
    ghost var whole := DecodeMetadataList(data, offset, end, count);
    var metadata: seq<Metadata> := [];
    assert whole.result.Ok? ==> metadata + whole.result.value == whole.result.value;
    for i := 0 to count
      invariant whole == Continue(metadata, DecodeMetadataList(data, offset, end, count - i))
    {
      ghost var before := offset;
      var m: Result<Metadata>;
      m, offset := DecodeMetadataAt(data, offset, end);
      if m.Err? {
        return Err(m.error), offset;
      }
      ghost var rest := DecodeMetadataList(data, offset, end, count - i - 1);
      assert DecodeMetadataList(data, before, end, count - i) == Continue([m.value], rest);
      ContinueStep(metadata, m.value, rest);
      metadata := metadata + [m.value];
    }
    assert metadata + [] == metadata;
    r := Ok(metadata);
  }

  ghost function Continue(done: seq<Metadata>, rest: Decoded<seq<Metadata>>): Decoded<seq<Metadata>>
  {
    if rest.result.Err? then rest else Decoded(Ok(done + rest.result.value), rest.offset)
  }

  lemma ContinueStep(done: seq<Metadata>, m: Metadata, rest: Decoded<seq<Metadata>>)
    ensures Continue(done, Continue([m], rest)) == Continue(done + [m], rest)
  {
    if rest.result.Ok? {
      assert done + ([m] + rest.result.value) == done + [m] + rest.result.value;
    }
  }

  // ----- totality -----

  /** With a footer behind the entries no read leaves the buffer, whatever the bytes are;
      a successful decode moves on by at least the smallest entry and stays inside. */
  lemma DecodeStaysInside(data: Bytes, offset: nat, end: nat)
    requires end + FOOTER_SIZE <= |data|
    ensures ReadsInside(data, offset, end)
    ensures var d := DecodeEntry(data, offset, end);
            && offset <= d.offset
            && (d.result.Ok? ==> offset + MIN_ENTRY_SIZE <= d.offset <= end)
            && (d.result.Err? && offset <= end ==> d.offset <= end + 10)
  {
  }

  // ----- round trip -----

  /** `x` is what the buffer holds at `offset`. */
  predicate At(data: Bytes, offset: nat, x: Bytes)
  {
    offset + |x| <= |data| && data[offset..offset + |x|] == x
  }

  lemma AtSplit(data: Bytes, offset: nat, x: Bytes, y: Bytes)
    requires At(data, offset, x + y)
    ensures At(data, offset, x) && At(data, offset + |x|, y)
  {
    var s := data[offset..offset + |x + y|];
    assert s[..|x|] == x && s[|x|..] == y;
    assert data[offset..offset + |x|] == s[..|x|];
    assert data[offset + |x|..offset + |x| + |y|] == s[|x|..];
  }

  lemma FieldAt(data: Bytes, offset: nat, size: nat, v: nat)
    requires At(data, offset, LE(size, v)) && v < Pow256(size)
    ensures Field(data, offset, size) == v
  {
    LERoundTrip(size, v);
  }

  lemma MetadataRoundTrip(data: Bytes, offset: nat, end: nat, m: Metadata)
    requires At(data, offset, MetadataBytes(m)) && |m.payload| <= U32_MAX
    requires offset + |MetadataBytes(m)| <= end <= |data|
    ensures DecodeMetadata(data, offset, end) == Decoded(Ok(m), offset + |MetadataBytes(m)|)
  {
    var a, b, c := LE(4, m.startIndex), LE(8, Unsigned(m.ingestionTimeMs)), LE(4, |m.payload|);
    assert MetadataBytes(m) == a + (b + (c + m.payload));
    AtSplit(data, offset, a, b + (c + m.payload));
    AtSplit(data, offset + 4, b, c + m.payload);
    AtSplit(data, offset + 12, c, m.payload);
    Pow256Values();
    FieldAt(data, offset, 4, m.startIndex);
    FieldAt(data, offset + 4, 8, Unsigned(m.ingestionTimeMs));
    FieldAt(data, offset + 12, 4, |m.payload|);
  }

  lemma {:induction false} MetadataListRoundTrip(data: Bytes, offset: nat, end: nat, ms: seq<Metadata>)
    requires At(data, offset, MetadataListBytes(ms)) && PayloadsFit(ms)
    requires offset + MetadataSize(ms) <= end <= |data|
    ensures DecodeMetadataList(data, offset, end, |ms|) == Decoded(Ok(ms), offset + MetadataSize(ms))
    decreases |ms|
  {
    hide MetadataBytes, DecodeMetadata, At;
    if ms != [] {
      var m, rest := ms[0], ms[1..];
      var next := offset + 16 + |m.payload|;
      AtSplit(data, offset, MetadataBytes(m), MetadataListBytes(rest));
      assert DecodeMetadata(data, offset, end) == Decoded(Ok(m), next) by {
        MetadataRoundTrip(data, offset, end, m);
      }
      MetadataListRoundTrip(data, next, end, rest);
      assert ms == [m] + rest;
    }
  }

  lemma {:induction false} PayloadsWithinBody(ms: seq<Metadata>)
    ensures forall i :: 0 <= i < |ms| ==> |ms[i].payload| <= MetadataSize(ms)
  {
    if ms != [] {
      PayloadsWithinBody(ms[1..]);
      assert forall i :: 1 <= i < |ms| ==> ms[i] == ms[1..][i - 1];
    }
  }

  lemma EntryFields(data: Bytes, offset: nat, e: QueueEntry)
    requires Fits(e) && At(data, offset, EntryHeader(e))
    ensures Field(data, offset, 4) == BodyLength(e)
    ensures FieldU64(data, offset + 4) == e.sequence
    ensures Field(data, offset + 12, 2) == |e.location|
    ensures data[offset + 14..offset + 14 + |e.location|] == e.location
    ensures Field(data, offset + 14 + |e.location|, 4) == |e.metadata|
  {
    var h1 := LE(4, BodyLength(e));
    var h2 := h1 + LE(8, e.sequence);
    var h3 := h2 + LE(2, |e.location|);
    var h4 := h3 + e.location;
    AtSplit(data, offset, h4, LE(4, |e.metadata|));
    AtSplit(data, offset, h3, e.location);
    AtSplit(data, offset, h2, LE(2, |e.location|));
    AtSplit(data, offset, h1, LE(8, e.sequence));
    Pow256Values();
    FieldAt(data, offset, 4, BodyLength(e));
    FieldAt(data, offset + 4, 8, e.sequence);
    FieldAt(data, offset + 12, 2, |e.location|);
    FieldAt(data, offset + 14 + |e.location|, 4, |e.metadata|);
  }

  /** An encoded entry, wherever it lies, decodes to itself and to its own length. */
  lemma EntryRoundTrip(data: Bytes, offset: nat, end: nat, e: QueueEntry)
    requires Fits(e) && At(data, offset, EntryBytes(e))
    requires offset + |EntryBytes(e)| <= end <= |data|
    ensures ReadsInside(data, offset, end)
    ensures DecodeEntry(data, offset, end) == Decoded(Ok(e), offset + |EntryBytes(e)|)
  {
    AtSplit(data, offset, EntryHeader(e), MetadataListBytes(e.metadata));
    EntryFields(data, offset, e);
    EntryMetadata(data, offset, end, e);
    DecodeFromFields(data, offset, end, e);
  }

  lemma EntryMetadata(data: Bytes, offset: nat, end: nat, e: QueueEntry)
    requires BodyLength(e) <= U32_MAX
    requires At(data, offset + 18 + |e.location|, MetadataListBytes(e.metadata))
    requires offset + 4 + BodyLength(e) <= end <= |data|
    ensures DecodeMetadataList(data, offset + 18 + |e.location|, end, |e.metadata|).result == Ok(e.metadata)
  {
    PayloadsWithinBody(e.metadata);
    MetadataListRoundTrip(data, offset + 18 + |e.location|, end, e.metadata);
  }

  lemma DecodeFromFields(data: Bytes, offset: nat, end: nat, e: QueueEntry)
    requires offset + 4 + BodyLength(e) <= end <= |data|
    requires Field(data, offset, 4) == BodyLength(e)
    requires FieldU64(data, offset + 4) == e.sequence
    requires Field(data, offset + 12, 2) == |e.location|
    requires data[offset + 14..offset + 14 + |e.location|] == e.location
    requires ValidUtf8(e.location)
    requires Field(data, offset + 14 + |e.location|, 4) == |e.metadata|
    requires DecodeMetadataList(data, offset + 18 + |e.location|, end, |e.metadata|).result == Ok(e.metadata)
    ensures ReadsInside(data, offset, end)
    ensures DecodeEntry(data, offset, end) == Decoded(Ok(e), offset + 4 + BodyLength(e))
  {
  }
}
