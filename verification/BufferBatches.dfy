/** Batch files (buffer/src/model.rs). */
module BatchFiles {
  import opened ByteStrings
  import opened QueueCodec

  const FORMAT_VERSION: nat := 1
  const BATCH_FOOTER: nat := 7

  datatype Compression = Uncompressed | Zstd

  /** The compressor, whose code is not part of this model. */
  datatype Compressor = Compressor(compress: Bytes -> Bytes, decompress: Bytes -> Option<Bytes>)

  ghost predicate Inverts(z: Compressor)
  {
    forall b: Bytes :: z.decompress(z.compress(b)) == Some(b)
  }

  function RecordBytes(entry: Bytes): Bytes
  {
    LE(4, |entry|) + entry
  }

  function Records(entries: seq<Bytes>): Bytes
  {
    if entries == [] then [] else RecordBytes(entries[0]) + Records(entries[1..])
  }

  function Pack(z: Compressor, how: Compression, block: Bytes): Bytes
  {
    if how.Zstd? then z.compress(block) else block
  }

  function BatchImage(z: Compressor, how: Compression, entries: seq<Bytes>): Bytes
  {
    Pack(z, how, Records(entries)) + BatchFooter(how, |entries|)
  }

  function BatchFooter(how: Compression, count: nat): (r: Bytes)
    ensures |r| == BATCH_FOOTER
  {
    [if how.Zstd? then 1 else 0] + LE(4, count) + LE(2, FORMAT_VERSION)
  }

  /** The limits within which a batch survives encoding. */
  predicate BatchFits(entries: seq<Bytes>)
  {
    |entries| <= U32_MAX && forall i :: 0 <= i < |entries| ==> |entries[i]| <= U32_MAX
  }

  method EncodeBatch(z: Compressor, how: Compression, entries: seq<Bytes>) returns (r: Bytes)
    ensures r == BatchImage(z, how, entries)
  {
    var block: Bytes := [];
    assert entries[0..] == entries;
    for i := 0 to |entries|
      invariant block + Records(entries[i..]) == Records(entries)
    {
      assert entries[i..][0] == entries[i] && entries[i..][1..] == entries[i + 1..];
      var field := LE(4, |entries[i]|) + entries[i];
      assert (block + field) + Records(entries[i + 1..]) == block + (field + Records(entries[i + 1..]));
      block := block + field;
    }
    assert entries[|entries|..] == [] && block + [] == block;
    var compressed := if how.Zstd? then z.compress(block) else block;
    r := compressed + ([if how.Zstd? then 1 else 0] + LE(4, |entries|) + LE(2, FORMAT_VERSION));
  }

  /** The first `count` records of a block. */
  function ReadRecords(block: Bytes, count: nat): Result<seq<Bytes>>
    decreases count
  {
    if count == 0 then Ok([])
    else if |block| < 4 then Err(Serialization)
    else
      var len := FieldU32(block, 0);
      if |block| < 4 + len then Err(Serialization)
      else
        var rest := ReadRecords(block[4 + len..], count - 1);
        if rest.Err? then rest else Ok([block[4..4 + len]] + rest.value)
  }

  function ReadBatch(z: Compressor, data: Bytes): Result<seq<Bytes>>
  {
    if |data| < BATCH_FOOTER then Err(Serialization)
    else
      var start := |data| - BATCH_FOOTER;
      if data[start] > 1 then Err(Serialization)
      else if Field(data, start + 5, 2) != FORMAT_VERSION then Err(Serialization)
      else
        var block := if data[start] == 0 then Some(data[..start]) else z.decompress(data[..start]);
        if block.None? then Err(Serialization) else ReadRecords(block.value, Field(data, start + 1, 4))
  }

  method DecodeBatch(z: Compressor, bytes: Bytes) returns (r: Result<seq<Bytes>>)
    ensures r == ReadBatch(z, bytes)
  {
    if |bytes| < BATCH_FOOTER {
      return Err(Serialization);
    }
    var start := |bytes| - BATCH_FOOTER;
    if bytes[start] > 1 {
      return Err(Serialization);
    }
    var count := Field(bytes, start + 1, 4);
    if Field(bytes, start + 5, 2) != FORMAT_VERSION {
      return Err(Serialization);
    }
    var unpacked := if bytes[start] == 0 then Some(bytes[..start]) else z.decompress(bytes[..start]);
    if unpacked.None? {
      return Err(Serialization);
    }
    r := DecodeRecords(unpacked.value, count);
  }

  method DecodeRecords(data: Bytes, count: nat) returns (r: Result<seq<Bytes>>)
    ensures r == ReadRecords(data, count)
  {
    var block := data;
    var entries: seq<Bytes> := [];
    ghost var all := ReadRecords(data, count);
    assert all.Ok? ==> [] + all.value == all.value;
    for i := 0 to count
      invariant all == Onto(entries, ReadRecords(block, count - i))
    {
      if |block| < 4 {
        return Err(Serialization);
      }
      var len := FieldU32(block, 0);
      if |block| - 4 < len {
        return Err(Serialization);
      }
      OntoStep(entries, block[4..4 + len], ReadRecords(block[4 + len..], count - i - 1));
      entries := entries + [block[4..4 + len]];
      block := block[4 + len..];
    }
    assert entries + [] == entries;
    return Ok(entries);
  }

  lemma {:induction false} RecordsRoundTrip(entries: seq<Bytes>)
    requires forall i :: 0 <= i < |entries| ==> |entries[i]| <= U32_MAX
    ensures ReadRecords(Records(entries), |entries|) == Ok(entries)
  {
    if entries != [] {
      var e, rest := entries[0], entries[1..];
      var block := Records(entries);
      assert block == LE(4, |e|) + (e + Records(rest));
      assert At(block, 0, LE(4, |e|));
      Pow256Values();
      FieldAt(block, 0, 4, |e|);
      assert block[4..4 + |e|] == e && block[4 + |e|..] == Records(rest);
      RecordsRoundTrip(rest);
      assert entries == [e] + rest;
    }
  }

  /** Decoding an encoded batch gives back its entries, compressed or not. */
  lemma BatchRoundTrip(z: Compressor, how: Compression, entries: seq<Bytes>)
    requires BatchFits(entries) && Inverts(z)
    ensures ReadBatch(z, BatchImage(z, how, entries)) == Ok(entries)
  {
    var packed, footer := Pack(z, how, Records(entries)), BatchFooter(how, |entries|);
    var data := BatchImage(z, how, entries);
    var start := |packed|;
    assert data[..start] == packed && data[start..] == footer && data[start] == footer[0];
    FooterOfBatch(data, start, how, |entries|);
    RecordsRoundTrip(entries);
    assert how.Zstd? ==> z.decompress(z.compress(Records(entries))) == Some(Records(entries));
  }

  lemma FooterOfBatch(data: Bytes, start: nat, how: Compression, count: nat)
    requires start + BATCH_FOOTER == |data| && data[start..] == BatchFooter(how, count) && count <= U32_MAX
    ensures Field(data, start + 1, 4) == count && Field(data, start + 5, 2) == FORMAT_VERSION
  {
    var tag: Bytes := [if how.Zstd? then 1 else 0];
    assert At(data, start, (tag + LE(4, count)) + LE(2, FORMAT_VERSION));
    AtSplit(data, start, tag + LE(4, count), LE(2, FORMAT_VERSION));
    AtSplit(data, start, tag, LE(4, count));
    Pow256Values();
    FieldAt(data, start + 1, 4, count);
    FieldAt(data, start + 5, 2, FORMAT_VERSION);
  }
}

/** How a producer groups calls into batches (buffer/src/producer.rs). */
module ProducerBatches {
  import opened ByteStrings
  import opened QueueCodec
  import opened BatchFiles
  import opened BufferActors

  /** One accepted `produce` call. */
  datatype Call = Call(entries: seq<Bytes>, payload: Bytes, timeMs: i64, notifier: nat)

  /** What `produce` and the first check of `add` demand. */
  predicate CallOk(call: Call)
  {
    call.entries != [] && forall i :: 0 <= i < |call.entries| ==> |call.entries[i]| <= U32_MAX
  }

  function AllEntries(calls: seq<Call>): seq<Bytes>
  {
    if calls == [] then [] else AllEntries(calls[..|calls| - 1]) + calls[|calls| - 1].entries
  }

  /** Each call's metadata, at the index of its first entry in the batch. */
  function Ranges(calls: seq<Call>): (r: seq<Metadata>)
    requires |AllEntries(calls)| <= U32_MAX
    ensures |r| == |calls|
  {
    if calls == [] then []
    else
      var n := |calls| - 1;
      Ranges(calls[..n]) + [Metadata(|AllEntries(calls[..n])|, calls[n].timeMs, calls[n].payload)]
  }

  function SizeOf(entries: seq<Bytes>): nat
  {
    if entries == [] then 0 else SizeOf(entries[..|entries| - 1]) + |entries[|entries| - 1]|
  }

  function SizeBytes(calls: seq<Call>): nat
  {
    if calls == [] then 0
    else SizeBytes(calls[..|calls| - 1]) + SizeOf(calls[|calls| - 1].entries) + |calls[|calls| - 1].payload|
  }

  function Notifiers(calls: seq<Call>): seq<nat>
  {
    if calls == [] then [] else Notifiers(calls[..|calls| - 1]) + [calls[|calls| - 1].notifier]
  }

  /** The slice of a batch that one metadata item covers: up to the next item's start. */
  function Slice(entries: seq<Bytes>, ms: seq<Metadata>, i: nat): seq<Bytes>
    requires i < |ms| && ms[i].startIndex <= (if i + 1 < |ms| then ms[i + 1].startIndex else |entries|) <= |entries|
  {
    entries[ms[i].startIndex..if i + 1 < |ms| then ms[i + 1].startIndex else |entries|]
  }

  lemma {:induction false} EntriesPrefix(calls: seq<Call>, i: nat)
    requires i <= |calls|
    ensures AllEntries(calls[..i]) <= AllEntries(calls)
  {
    var n := |calls| - 1;
    if i == |calls| {
      assert calls[..i] == calls;
    } else {
      assert calls[..n][..i] == calls[..i];
      EntriesPrefix(calls[..n], i);
    }
  }

  lemma EntriesStep(calls: seq<Call>, i: nat)
    requires i < |calls|
    ensures AllEntries(calls[..i + 1]) == AllEntries(calls[..i]) + calls[i].entries
  {
    assert calls[..i + 1][..i] == calls[..i];
  }

  lemma {:induction false} RangeAt(calls: seq<Call>, i: nat)
    requires |AllEntries(calls)| <= U32_MAX && i < |calls|
    ensures |AllEntries(calls[..i])| <= U32_MAX
    ensures Ranges(calls)[i] == Metadata(|AllEntries(calls[..i])|, calls[i].timeMs, calls[i].payload)
  {
    var n := |calls| - 1;
    if i < n {
      RangeAt(calls[..n], i);
      assert calls[..n][..i] == calls[..i] && calls[..n][i] == calls[i];
    }
  }

  /** Start indices rise strictly from zero, and the slices they cut are the calls' own
      entries, in order, without remainder. */
  lemma SlicesAreCalls(calls: seq<Call>, i: nat)
    requires |AllEntries(calls)| <= U32_MAX && i < |calls|
    requires forall j :: 0 <= j < |calls| ==> CallOk(calls[j])
    ensures var es, ms := AllEntries(calls), Ranges(calls);
            && (i == 0 ==> ms[i].startIndex == 0)
            && (i + 1 < |ms| ==> ms[i].startIndex < ms[i + 1].startIndex)
            && ms[i].startIndex <= (if i + 1 < |ms| then ms[i + 1].startIndex else |es|) <= |es|
            && Slice(es, ms, i) == calls[i].entries
            && ms[i].ingestionTimeMs == calls[i].timeMs && ms[i].payload == calls[i].payload
  {
    RangeAt(calls, i);
    SliceStart(calls, i);
    if i + 1 < |calls| {
      RangeAt(calls, i + 1);
    } else {
      assert calls[..i + 1] == calls;
    }
    assert CallOk(calls[i]);
    if i == 0 {
      assert calls[..0] == [];
    }
  }

  lemma SliceStart(calls: seq<Call>, i: nat)
    requires i < |calls|
    ensures var p, q := |AllEntries(calls[..i])|, |AllEntries(calls[..i + 1])|;
            && q == p + |calls[i].entries| <= |AllEntries(calls)|
            && AllEntries(calls)[p..q] == calls[i].entries
  {
    EntriesStep(calls, i);
    EntriesPrefix(calls, i + 1);
    var p, q := AllEntries(calls[..i]), AllEntries(calls[..i + 1]);
    assert AllEntries(calls)[|p|..|q|] == q[|p|..];
  }

  /** The four accumulated fields are what the calls, in order, add up to. */
  ghost predicate Accumulates(calls: seq<Call>, es: seq<Bytes>, ms: seq<Metadata>, ns: seq<nat>, size: nat)
  {
    && es == AllEntries(calls)
    && |es| <= U32_MAX
    && ms == Ranges(calls)
    && ns == Notifiers(calls)
    && size == SizeBytes(calls)
    && forall j :: 0 <= j < |calls| ==> CallOk(calls[j])
  }

  lemma OneMoreCall(calls: seq<Call>, es: seq<Bytes>, ms: seq<Metadata>, ns: seq<nat>, size: nat,
                    call: Call, m: Metadata, newSize: nat)
    requires Accumulates(calls, es, ms, ns, size) && CallOk(call) && |es| + |call.entries| <= U32_MAX
    requires m == Metadata(|es|, call.timeMs, call.payload)
    requires newSize == size + SizeOf(call.entries) + |call.payload|
    ensures Accumulates(calls + [call], es + call.entries, ms + [m], ns + [call.notifier], newSize)
  {
  }

  /** The total size of a call's entries, unless one is too long. */
  method SizeCheck(entries: seq<Bytes>) returns (r: Option<nat>)
    ensures r.Some? <==> forall i :: 0 <= i < |entries| ==> |entries[i]| <= U32_MAX
    ensures r.Some? ==> r.value == SizeOf(entries)
  {
    var sum := 0;
    for i := 0 to |entries|
      invariant sum == SizeOf(entries[..i])
      invariant forall j :: 0 <= j < i ==> |entries[j]| <= U32_MAX
    {
      if |entries[i]| > U32_MAX {
        return None;
      }
      assert entries[..i + 1][..i] == entries[..i];
      sum := sum + |entries[i]|;
    }
    assert entries[..|entries|] == entries;
    return Some(sum);
  }

  /** Entries accumulated since the last flush, one metadata item and notifier per call. */
  class Batch {
    var entries: seq<Bytes>
    var metadata: seq<Metadata>
    var notifiers: seq<nat>
    var sizeBytes: nat
    var startedAt: Option<nat>
    ghost var calls: seq<Call>

    ghost predicate Valid()
      reads this
    {
      && Accumulates(calls, entries, metadata, notifiers, sizeBytes)
      && (startedAt.None? <==> calls == [])
    }

    constructor ()
      ensures Valid() && calls == []
    {
      entries, metadata, notifiers := [], [], [];
      sizeBytes, startedAt, calls := 0, None, [];
    }

    /** A call with an oversized entry changes nothing; one that would take the batch past
        the 32-bit index is refused after its entries were added. */
    method Add(call: Call, now: nat) returns (r: Result<()>)
      requires Valid() && call.entries != []
      modifies this
      ensures r.Ok? <==> CallOk(call) && old(|entries|) + |call.entries| <= U32_MAX
      ensures r.Ok? ==> Valid() && calls == old(calls) + [call]
      ensures r.Ok? ==> startedAt == if old(startedAt).None? then Some(now) else old(startedAt)
      ensures !CallOk(call) ==> unchanged(this)
      ensures r.Err? ==> r.error == InvalidInput && unchanged(`metadata, `notifiers, `startedAt, `calls)
      ensures r.Err? && CallOk(call) ==>
                && entries == old(entries) + call.entries
                && sizeBytes == old(sizeBytes) + SizeOf(call.entries) + |call.payload|
    {
      var size := SizeCheck(call.entries);
      if size.None? {
        return Err(InvalidInput);
      }
      sizeBytes := sizeBytes + size.value + |call.payload|;
      var startIndex := |entries|;
      entries := entries + call.entries;
      if |entries| > U32_MAX {
        return Err(InvalidInput);
      }
      var m := Metadata(startIndex, call.timeMs, call.payload);
      metadata := metadata + [m];
      notifiers := notifiers + [call.notifier];
      if startedAt.None? {
        startedAt := Some(now);
      }
      OneMoreCall(calls, old(entries), old(metadata), old(notifiers), old(sizeBytes), call, m, sizeBytes);
      calls := calls + [call];
      r := Ok(());
    }

    method Take() returns (es: seq<Bytes>, ms: seq<Metadata>, ns: seq<nat>)
      requires Valid()
      modifies this
      ensures Valid() && calls == []
      ensures es == AllEntries(old(calls)) && |es| <= U32_MAX && ms == Ranges(old(calls)) && ns == Notifiers(old(calls))
    {
      es, ms, ns := entries, metadata, notifiers;
      sizeBytes, startedAt := 0, None;
      entries, metadata, notifiers, calls := [], [], [], [];
    }
  }

  // ----- the writer task -----

  datatype Event = AddCall(call: Call) | FlushNow | TimerFired

  /** A batch that was written: what went out, the calls it came from, the outcome they were
      told and the protocol call that made the write. */
  datatype Written = Written(
    entries: seq<Bytes>, metadata: seq<Metadata>, calls: seq<Call>, outcome: Result<()>, producer: nat)

  /** What went to the store is exactly the calls' entries, with each call's range. */
  ghost predicate Faithful(w: Written)
  {
    && |AllEntries(w.calls)| <= U32_MAX && w.entries == AllEntries(w.calls) && w.metadata == Ranges(w.calls)
    && forall i :: 0 <= i < |w.calls| ==> CallOk(w.calls[i])
  }

  /** The call an event adds to the buffer. */
  function NewCalls(event: Event): seq<Call>
  {
    if event.AddCall? && CallOk(event.call) then [event.call] else []
  }

  function Flat(ws: seq<Written>): seq<Call>
  {
    if ws == [] then [] else Flat(ws[..|ws| - 1]) + ws[|ws| - 1].calls
  }

  /** Some written batch that ended with Ok holds the notifier's call. */
  ghost predicate Told(ws: seq<Written>, n: nat)
  {
    exists j, i :: 0 <= j < |ws| && 0 <= i < |ws[j].calls| && ws[j].outcome.Ok? && ws[j].calls[i].notifier == n
  }

  /** Every caller of a written batch was sent that batch's outcome. */
  ghost predicate AllTold(ws: seq<Written>, sent: map<nat, Result<()>>)
  {
    forall j, i :: 0 <= j < |ws| && 0 <= i < |ws[j].calls| ==>
      ws[j].calls[i].notifier in sent && sent[ws[j].calls[i].notifier] == ws[j].outcome
  }

  /** What was sent is what the written batches ended with, and each was its own write. */
  ghost predicate HonestLog(ws: seq<Written>, sent: map<nat, Result<()>>)
  {
    && (forall j :: 0 <= j < |ws| ==> Faithful(ws[j]))
    && (forall i, j :: 0 <= i < j < |ws| ==> ws[i].producer != ws[j].producer)
    && AllTold(ws, sent)
    && forall n :: n in sent && sent[n].Ok? ==> Told(ws, n)
  }

  /** The calls `due`, if any, went out as one batch that ended with `r`; each of them was told
      `r`, and nobody else was told anything. */
  ghost predicate WroteAll(ws: seq<Written>, sent: map<nat, Result<()>>, due: seq<Call>,
                           ws': seq<Written>, sent': map<nat, Result<()>>, r: Result<()>)
  {
    && (due == [] ==> ws' == ws && sent' == sent && r == Ok(()))
    && (due != [] ==>
          && |ws'| == |ws| + 1 && ws'[..|ws|] == ws && ws'[|ws|].calls == due && ws'[|ws|].outcome == r
          && (forall i :: 0 <= i < |due| ==> due[i].notifier in sent' && sent'[due[i].notifier] == r)
          && (forall n :: n in sent && n !in Notifiers(due) ==> n in sent' && sent'[n] == sent[n])
          && forall n :: n in sent' ==> n in sent || n in Notifiers(due))
  }

  /** What a produce call does: one that cannot be encoded is refused at once; any other joins
      the buffered ones, and all are written when they reach the flush size. */
  ghost predicate Added(flushSize: nat, ws: seq<Written>, sent: map<nat, Result<()>>, calls: seq<Call>, call: Call,
                        ws': seq<Written>, sent': map<nat, Result<()>>, calls': seq<Call>, r: Result<()>)
  {
    if !CallOk(call) then
      ws' == ws && calls' == calls && sent' == sent[call.notifier := Err(InvalidInput)]
    else if SizeBytes(calls + [call]) < flushSize then
      ws' == ws && calls' == calls + [call] && sent' == sent
    else
      calls' == [] && WroteAll(ws, sent, calls + [call], ws', sent', r)
  }

  // ----- the writes as calls of the protocol -----

  /** Protocol call `p` is the write of these calls' batch and has met `io`. */
  ghost predicate Made(s: Protocol.State, p: nat, z: Compressor, how: Compression, calls: seq<Call>, io: WriteIo)
  {
    && |AllEntries(calls)| <= U32_MAX
    && p in s.producers
    && var ms := Ranges(calls);
    && s.producers[p] == Protocol.Producer(io.location, ms, BatchImage(z, how, AllEntries(calls)), EndPhase(io, ms))
  }

  /** Protocol call `p` wrote these calls' batch and ended as the callers were told. */
  ghost predicate Returned(s: Protocol.State, p: nat, z: Compressor, how: Compression, w: Written)
  {
    && p in s.producers
    && s.producers[p].metadata == w.metadata && s.producers[p].content == BatchImage(z, how, w.entries)
    && (if w.outcome.Ok? then s.producers[p].phase.Succeeded? else s.producers[p].phase.Failed?)
  }

  /** Every written batch is such a call. */
  ghost predicate Backed(ws: seq<Written>, s: Protocol.State, z: Compressor, how: Compression)
  {
    forall j :: 0 <= j < |ws| ==> Returned(s, ws[j].producer, z, how, ws[j])
  }

  lemma {:induction false} NotifiersOf(calls: seq<Call>)
    ensures |Notifiers(calls)| == |calls|
    ensures forall i :: 0 <= i < |calls| ==> Notifiers(calls)[i] == calls[i].notifier
  {
    if calls != [] {
      NotifiersOf(calls[..|calls| - 1]);
    }
  }

  /** One more batch was written and its callers, none told before, were told its outcome. */
  lemma OneMoreWritten(ws: seq<Written>, sent: map<nat, Result<()>>, w: Written, sent': map<nat, Result<()>>)
    requires HonestLog(ws, sent) && Faithful(w)
    requires forall j :: 0 <= j < |ws| ==> ws[j].producer != w.producer
    requires forall i :: 0 <= i < |w.calls| ==> w.calls[i].notifier !in sent
    requires forall n :: n in sent' <==> n in sent || n in Notifiers(w.calls)
    requires forall n :: n in sent' ==> sent'[n] == if n in Notifiers(w.calls) then w.outcome else sent[n]
    ensures HonestLog(ws + [w], sent')
  {
    NotifiersOf(w.calls);
    hide Faithful, Notifiers;
    ToldAfter(ws, w, sent, sent');
    forall n | n in sent' && sent'[n].Ok?
      ensures Told(ws + [w], n)
    {
      if n in Notifiers(w.calls) {
        var i :| 0 <= i < |w.calls| && w.calls[i].notifier == n;
        ToldLast(ws, w, i);
      } else {
        ToldMore(ws, w, n);
      }
    }
  }

  lemma OneMoreBacked(ws: seq<Written>, s: Protocol.State, z: Compressor, how: Compression, w: Written, io: WriteIo)
    requires Backed(ws, s, z, how) && Made(s, w.producer, z, how, w.calls, io)
    requires w.entries == AllEntries(w.calls) && |w.entries| <= U32_MAX && w.metadata == Ranges(w.calls)
    requires w.outcome.Ok? <==> EndPhase(io, w.metadata).Succeeded?
    requires w.outcome.Err? <==> EndPhase(io, w.metadata).Failed?
    ensures Backed(ws + [w], s, z, how)
  {
    hide EndPhase, BatchImage;
  }

  lemma ToldAfter(ws: seq<Written>, w: Written, sent: map<nat, Result<()>>, sent': map<nat, Result<()>>)
    requires AllTold(ws, sent)
    requires forall i :: 0 <= i < |w.calls| ==> w.calls[i].notifier !in sent
    requires |Notifiers(w.calls)| == |w.calls|
    requires forall i :: 0 <= i < |w.calls| ==> Notifiers(w.calls)[i] == w.calls[i].notifier
    requires forall n :: n in sent' <==> n in sent || n in Notifiers(w.calls)
    requires forall n :: n in sent' ==> sent'[n] == if n in Notifiers(w.calls) then w.outcome else sent[n]
    ensures AllTold(ws + [w], sent')
  {
    hide Notifiers;
    var more := ws + [w];
    forall j, i | 0 <= j < |more| && 0 <= i < |more[j].calls|
      ensures more[j].calls[i].notifier in sent' && sent'[more[j].calls[i].notifier] == more[j].outcome
    {
      if j < |ws| {
        assert ws[j].calls[i].notifier in sent;
      } else {
        assert Notifiers(w.calls)[i] in Notifiers(w.calls);
      }
    }
  }

  lemma ToldMore(ws: seq<Written>, w: Written, n: nat)
    requires Told(ws, n)
    ensures Told(ws + [w], n)
  {
    var j, i :| 0 <= j < |ws| && 0 <= i < |ws[j].calls| && ws[j].outcome.Ok? && ws[j].calls[i].notifier == n;
    assert (ws + [w])[j] == ws[j];
  }

  lemma ToldLast(ws: seq<Written>, w: Written, i: nat)
    requires i < |w.calls| && w.outcome.Ok?
    ensures Told(ws + [w], w.calls[i].notifier)
  {
    assert (ws + [w])[|ws|] == w;
  }

  class BatchWriterTask {
    const batch: Batch
    const flushSizeBytes: nat
    const z: Compressor
    const how: Compression
    var sent: map<nat, Result<()>>
    ghost var written: seq<Written>

    /** The log of writes is honest and backed by calls of the protocol in state `s`, and
        nobody who still waits in the buffer has been told anything. */
    ghost predicate Honest(s: Protocol.State)
      reads this, batch
    {
      && batch.Valid()
      && HonestLog(written, sent)
      && Backed(written, s, z, how)
      && forall i :: 0 <= i < |batch.calls| ==> batch.calls[i].notifier !in sent
    }

    /** The write that is about to happen, if any, is a new call of the protocol. */
    ghost predicate Ready(s: Protocol.State, p: nat, calls: seq<Call>, io: WriteIo)
      reads this
    {
      calls != [] ==> Made(s, p, z, how, calls, io) && forall j :: 0 <= j < |written| ==> written[j].producer != p
    }

    /** What an event makes the task write. */
    ghost function ToWrite(event: Event): seq<Call>
      reads this, batch
    {
      if !event.AddCall? then batch.calls
      else if !CallOk(event.call) then []
      else if SizeBytes(batch.calls + [event.call]) >= flushSizeBytes then batch.calls + [event.call]
      else []
    }

    constructor (flushSize: nat, compressor: Compressor, compression: Compression)
      ensures fresh(batch) && batch.calls == [] && sent == map[] && written == []
      ensures flushSizeBytes == flushSize && z == compressor && how == compression
      ensures forall s :: Honest(s)
    {
      batch := new Batch();
      flushSizeBytes, z, how := flushSize, compressor, compression;
      sent := map[];
      written := [];
    }

    /** Sends every caller of a batch the outcome of its write. */
    method Notify(ns: seq<nat>, outcome: Result<()>)
      modifies `sent
      ensures forall n :: n in sent <==> n in old(sent) || n in ns
      ensures forall n :: n in sent ==> sent[n] == if n in ns then outcome else old(sent)[n]
    {
      for i := 0 to |ns|
        invariant forall n :: n in sent <==> n in old(sent) || n in ns[..i]
        invariant forall n :: n in sent ==> sent[n] == if n in ns[..i] then outcome else old(sent)[n]
      {
        assert ns[..i + 1] == ns[..i] + [ns[i]];
        sent := sent[ns[i] := outcome];
      }
      assert ns[..|ns|] == ns;
    }

    /** Writes what is buffered, if anything, and tells every caller what the write returned. */
    method WriteBatch(io: WriteIo, ghost s: Protocol.State, ghost p: nat) returns (r: Result<()>)
      requires Honest(s) && Ready(s, p, batch.calls, io)
      modifies this, batch
      ensures Honest(s) && batch.calls == []
      ensures WroteAll(old(written), old(sent), old(batch.calls), written, sent, r)
      ensures old(batch.calls) != [] ==>
                && |AllEntries(old(batch.calls))| <= U32_MAX
                && (r.Ok? <==> EndPhase(io, Ranges(old(batch.calls))).Succeeded?)
    {
      hide Accumulates, Faithful, AllTold, Told, Backed, Made, EndPhase;
      ghost var calls, before, sentBefore := batch.calls, written, sent;
      NothingBuffered(batch.calls, batch.entries, batch.metadata, batch.notifiers, batch.sizeBytes);
      if batch.notifiers == [] && batch.entries == [] && batch.metadata == [] {
        return Ok(());
      }
      AllCallsOk(batch.calls, batch.entries, batch.metadata, batch.notifiers, batch.sizeBytes);
      var es, ms, ns := batch.Take();
      var content;
      r, content := WriteAndEnqueue(z, how, es, ms, io);
      ghost var w := Written(es, ms, calls, r, p);
      FaithfulFrom(w);
      written := written + [w];
      Notify(ns, r);
      NotifiersOf(calls);
      AllAnswered(calls, ns, sent, r);
      OneMoreWritten(before, sentBefore, w, sent);
      OneMoreBacked(before, s, z, how, w, io);
    }

    /** Buffers a call, or tells it why not, and flushes once the size threshold is reached. */
    method AddToBatch(call: Call, io: WriteIo, ghost s: Protocol.State, ghost p: nat) returns (r: Result<()>)
      requires Honest(s) && Ready(s, p, ToWrite(AddCall(call)), io)
      requires call.entries != [] && |batch.entries| + |call.entries| <= U32_MAX
      requires call.notifier !in sent && call.notifier !in batch.notifiers
      modifies this, batch
      ensures Honest(s)
      ensures Added(flushSizeBytes, old(written), old(sent), old(batch.calls), call, written, sent, batch.calls, r)
    {
      hide Accumulates, HonestLog, Backed, Made;
      AllCallsOk(batch.calls, batch.entries, batch.metadata, batch.notifiers, batch.sizeBytes);
      var added := batch.Add(call, 0);
      r := Ok(());
      if added.Err? {
        RefusalTold(written, sent, call.notifier, Err(added.error));
        sent := sent[call.notifier := Err(added.error)];
      } else {
        SizeIs(batch.calls, batch.entries, batch.metadata, batch.notifiers, batch.sizeBytes);
        if batch.sizeBytes >= flushSizeBytes {
          r := WriteBatch(io, s, p);
        }
      }
    }

    /** One event of the loop; `io` is what the write meets, if there is one. The result goes to
        the caller of a flush; after a produce call nobody looks at it. */
    method Handle(event: Event, io: WriteIo, ghost s: Protocol.State, ghost p: nat) returns (r: Result<()>)
      requires Honest(s) && Ready(s, p, ToWrite(event), io)
      requires event.AddCall? ==>
                 && event.call.entries != [] && |batch.entries| + |event.call.entries| <= U32_MAX
                 && event.call.notifier !in sent && event.call.notifier !in batch.notifiers
      modifies this, batch
      ensures Honest(s)
      ensures !event.AddCall? ==>
                && batch.calls == []
                && WroteAll(old(written), old(sent), old(batch.calls), written, sent, r)
                && (old(batch.calls) != [] ==>
                      && |AllEntries(old(batch.calls))| <= U32_MAX
                      && (r.Ok? <==> EndPhase(io, Ranges(old(batch.calls))).Succeeded?))
      ensures event.AddCall? ==>
                Added(flushSizeBytes, old(written), old(sent), old(batch.calls), event.call,
                      written, sent, batch.calls, r)
      ensures Flat(written) + batch.calls == Flat(old(written)) + old(batch.calls) + NewCalls(event)
    {
      hide Accumulates, HonestLog, Backed, Made, EndPhase;
      match event
      case AddCall(call) =>
        r := AddToBatch(call, io, s, p);
        AddedFlat(flushSizeBytes, old(written), old(sent), old(batch.calls), call, written, sent, batch.calls, r);
      case FlushNow =>
        r := WriteBatch(io, s, p);
        WroteFlat(old(written), old(sent), old(batch.calls), written, sent, r);
      case TimerFired =>
        r := WriteBatch(io, s, p);
        WroteFlat(old(written), old(sent), old(batch.calls), written, sent, r);
    }
  }

  lemma AddedFlat(flushSize: nat, ws: seq<Written>, sent: map<nat, Result<()>>, calls: seq<Call>, call: Call,
                  ws': seq<Written>, sent': map<nat, Result<()>>, calls': seq<Call>, r: Result<()>)
    requires Added(flushSize, ws, sent, calls, call, ws', sent', calls', r)
    ensures Flat(ws') + calls' == Flat(ws) + calls + NewCalls(AddCall(call))
  {
    hide WroteAll, SizeBytes;
    assert Flat(ws) + (calls + [call]) == Flat(ws) + calls + [call];
    if CallOk(call) && SizeBytes(calls + [call]) >= flushSize {
      WroteFlat(ws, sent, calls + [call], ws', sent', r);
    }
  }

  /** Every caller of the batch has its answer. */
  lemma AllAnswered(calls: seq<Call>, ns: seq<nat>, sent: map<nat, Result<()>>, r: Result<()>)
    requires |ns| == |calls| && forall i :: 0 <= i < |calls| ==> ns[i] == calls[i].notifier
    requires forall n :: n in ns ==> n in sent && sent[n] == r
    ensures forall i :: 0 <= i < |calls| ==> calls[i].notifier in sent && sent[calls[i].notifier] == r
  {
  }

  /** Writing moves calls from the buffer to the log of writes, in order. */
  lemma WroteFlat(ws: seq<Written>, sent: map<nat, Result<()>>, due: seq<Call>,
                  ws': seq<Written>, sent': map<nat, Result<()>>, r: Result<()>)
    requires WroteAll(ws, sent, due, ws', sent', r)
    ensures Flat(ws') == Flat(ws) + due
  {
    if due != [] {
      assert ws' == ws + [ws'[|ws|]];
      FlatStep(ws, ws'[|ws|]);
    }
  }

  /** A caller that was refused is told so, which no written batch says otherwise. */
  lemma RefusalTold(ws: seq<Written>, sent: map<nat, Result<()>>, n: nat, refusal: Result<()>)
    requires HonestLog(ws, sent) && n !in sent && refusal.Err?
    ensures HonestLog(ws, sent[n := refusal])
  {
    hide Faithful, Told;
  }

  lemma NothingBuffered(calls: seq<Call>, es: seq<Bytes>, ms: seq<Metadata>, ns: seq<nat>, size: nat)
    requires Accumulates(calls, es, ms, ns, size)
    ensures ns == [] <==> calls == []
    ensures calls == [] ==> es == [] && ms == []
  {
    NotifiersOf(calls);
  }

  lemma AllCallsOk(calls: seq<Call>, es: seq<Bytes>, ms: seq<Metadata>, ns: seq<nat>, size: nat)
    requires Accumulates(calls, es, ms, ns, size)
    ensures forall i :: 0 <= i < |calls| ==> CallOk(calls[i])
    ensures |ns| == |calls| && forall i :: 0 <= i < |calls| ==> ns[i] == calls[i].notifier
  {
    NotifiersOf(calls);
  }

  lemma FaithfulFrom(w: Written)
    requires |AllEntries(w.calls)| <= U32_MAX && w.entries == AllEntries(w.calls) && w.metadata == Ranges(w.calls)
    requires forall i :: 0 <= i < |w.calls| ==> CallOk(w.calls[i])
    ensures Faithful(w)
  {
  }

  lemma SizeIs(calls: seq<Call>, es: seq<Bytes>, ms: seq<Metadata>, ns: seq<nat>, size: nat)
    requires Accumulates(calls, es, ms, ns, size)
    ensures size == SizeBytes(calls)
  {
  }

  lemma FlatStep(ws: seq<Written>, w: Written)
    ensures Flat(ws + [w]) == Flat(ws) + w.calls
  {
    assert (ws + [w])[..|ws|] == ws;
  }
}
