/** The queue manifest: a plain record, its binary image, and the buffers that
    the implementation edits in place of the record (buffer/src/queue.rs). */
module Manifests {
  import opened ByteStrings
  import opened QueueCodec

  const MANIFEST_VERSION: nat := 1

  /** What a manifest means. */
  datatype ManifestRec = ManifestRec(entries: seq<QueueEntry>, nextSequence: u64, epoch: u64)

  const EMPTY: ManifestRec := ManifestRec([], 0, 0)

  /** The next sequence wraps around at 64 bits. */
  function AppendRec(m: ManifestRec, location: Bytes, metadata: seq<Metadata>): ManifestRec
  {
    m.(entries := m.entries + [QueueEntry(m.nextSequence, location, metadata)],
       nextSequence := (m.nextSequence + 1) % TWO_64)
  }

  /** The entries with a sequence above `through`. */
  function Keep(es: seq<QueueEntry>, through: u64): seq<QueueEntry>
  {
    if es == [] then []
    else (if es[0].sequence <= through then [] else [es[0]]) + Keep(es[1..], through)
  }

  function DequeueRec(m: ManifestRec, through: u64): ManifestRec
  {
    m.(entries := Keep(m.entries, through))
  }

  function Find(es: seq<QueueEntry>, sequence: u64): Option<QueueEntry>
  {
    if es == [] then None
    else if es[0].sequence == sequence then Some(es[0])
    else Find(es[1..], sequence)
  }

  /** `i` is the first entry with the sequence. */
  predicate FirstWith(es: seq<QueueEntry>, sequence: u64, i: nat)
  {
    && i < |es| && es[i].sequence == sequence
    && forall j :: 0 <= j < i ==> es[j].sequence != sequence
  }

  /** The search finds the first entry with the sequence, and nothing only if there is none. */
  lemma {:induction false} FindIs(es: seq<QueueEntry>, sequence: u64)
    ensures Find(es, sequence).None? <==> forall i :: 0 <= i < |es| ==> es[i].sequence != sequence
    ensures Find(es, sequence).Some? ==>
              exists i: nat :: FirstWith(es, sequence, i) && es[i] == Find(es, sequence).value
  {
    if es != [] {
      FindIs(es[1..], sequence);
      assert forall i :: 1 <= i < |es| ==> es[i] == es[1..][i - 1];
      if es[0].sequence == sequence {
        assert FirstWith(es, sequence, 0);
      } else if Find(es, sequence).Some? {
        var i: nat :| FirstWith(es[1..], sequence, i) && es[1..][i] == Find(es, sequence).value;
        assert es[i + 1] == es[1..][i];
        assert FirstWith(es, sequence, i + 1);
      }
    }
  }

  predicate Ascending(es: seq<QueueEntry>)
  {
    forall i, j :: 0 <= i < j < |es| ==> es[i].sequence <= es[j].sequence
  }

  predicate WellFormed(m: ManifestRec)
  {
    AllFit(m.entries) && |m.entries| <= U32_MAX
  }

  // ----- binary image -----

  function Footer(count: nat, nextSequence: u64, epoch: u64): (r: Bytes)
    ensures |r| == FOOTER_SIZE
  {
    LE(4, count) + LE(8, nextSequence) + LE(8, epoch) + LE(2, MANIFEST_VERSION)
  }

  function Image(m: ManifestRec): (r: Bytes)
    ensures |r| == |EntriesBytes(m.entries)| + FOOTER_SIZE
  {
    EntriesBytes(m.entries) + Footer(|m.entries|, m.nextSequence, m.epoch)
  }

  lemma {:induction false} EntriesConcat(a: seq<QueueEntry>, b: seq<QueueEntry>)
    ensures EntriesBytes(a + b) == EntriesBytes(a) + EntriesBytes(b)
  {
    if a == [] {
      assert a + b == b;
    } else {
      assert (a + b)[1..] == a[1..] + b;
      EntriesConcat(a[1..], b);
      assert EntryBytes(a[0]) + (EntriesBytes(a[1..]) + EntriesBytes(b)) == EntriesBytes(a) + EntriesBytes(b);
    }
  }

  lemma FooterFields(data: Bytes, offset: nat, count: nat, nextSequence: u64, epoch: u64)
    requires At(data, offset, Footer(count, nextSequence, epoch)) && count <= U32_MAX
    ensures Field(data, offset, 4) == count
    ensures FieldU64(data, offset + 4) == nextSequence
    ensures FieldU64(data, offset + 12) == epoch
    ensures Field(data, offset + 20, 2) == MANIFEST_VERSION
  {
    var f1 := LE(4, count);
    var f2 := f1 + LE(8, nextSequence);
    var f3 := f2 + LE(8, epoch);
    AtSplit(data, offset, f3, LE(2, MANIFEST_VERSION));
    AtSplit(data, offset, f2, LE(8, epoch));
    AtSplit(data, offset, f1, LE(8, nextSequence));
    Pow256Values();
    FieldAt(data, offset, 4, count);
    FieldAt(data, offset + 4, 8, nextSequence);
    FieldAt(data, offset + 12, 8, epoch);
    FieldAt(data, offset + 20, 2, MANIFEST_VERSION);
  }

  lemma ImageFields(m: ManifestRec)
    requires |m.entries| <= U32_MAX
    ensures var data := Image(m); var end := |data| - FOOTER_SIZE;
            && Accepted(data)
            && ExistingCount(data) == |m.entries|
            && FieldU64(data, end + 4) == m.nextSequence
            && FieldU64(data, end + 12) == m.epoch
            && data[..end] == EntriesBytes(m.entries)
  {
    var data := Image(m);
    var end := |data| - FOOTER_SIZE;
    assert data[end..] == Footer(|m.entries|, m.nextSequence, m.epoch);
    assert At(data, end, data[end..]);
    FooterFields(data, end, |m.entries|, m.nextSequence, m.epoch);
  }

  /** What `from_bytes` checks. */
  predicate Accepted(data: Bytes)
  {
    |data| >= FOOTER_SIZE && Field(data, |data| - 2, 2) == MANIFEST_VERSION
  }

  function ExistingCount(data: Bytes): nat
    requires data == [] || |data| >= FOOTER_SIZE
  {
    if data == [] then 0 else Field(data, |data| - FOOTER_SIZE, 4)
  }

  function EntriesEnd(data: Bytes): nat
    requires data == [] || |data| >= FOOTER_SIZE
  {
    if data == [] then 0 else |data| - FOOTER_SIZE
  }

  // ----- splitting at a sequence -----

  /** How many leading entries have a sequence at or below `through`. */
  function CountThrough(es: seq<QueueEntry>, through: u64): (r: nat)
    ensures r <= |es|
  {
    if es == [] || es[0].sequence > through then 0 else 1 + CountThrough(es[1..], through)
  }

  /** The first `end` bytes are the encodings of `es`. */
  predicate Holds(data: Bytes, count: nat, end: nat, es: seq<QueueEntry>)
  {
    && AllFit(es) && |es| == count
    && end == |EntriesBytes(es)| <= |data|
    && data[..end] == EntriesBytes(es)
  }

  lemma HoldsAt(data: Bytes, count: nat, end: nat, es: seq<QueueEntry>, i: nat)
    requires Holds(data, count, end, es) && i < |es|
    ensures var offset := |EntriesBytes(es[..i])|;
            && At(data, offset, EntryBytes(es[i]))
            && offset + |EntryBytes(es[i])| == |EntriesBytes(es[..i + 1])| <= end
            && data[offset..end] == EntriesBytes(es[i..])
  {
    var offset := |EntriesBytes(es[..i])|;
    assert es == es[..i] + es[i..];
    EntriesConcat(es[..i], es[i..]);
    assert es[..i + 1] == es[..i] + [es[i]];
    EntriesConcat(es[..i], [es[i]]);
    assert EntriesBytes([es[i]]) == EntryBytes(es[i]) + EntriesBytes([]);
    assert data[offset..end] == data[..end][offset..] == EntriesBytes(es[i..]);
    var x, y := EntryBytes(es[i]), EntriesBytes(es[i + 1..]);
    assert es[i..][1..] == es[i + 1..];
    assert At(data, offset, x + y);
    AtSplit(data, offset, x, y);
  }

  /** The removed entries, where the remaining bytes start and how many entries they hold. */
  datatype Split = Split(removed: seq<QueueEntry>, start: nat, left: nat)

  /** Entries are removed up to the first one above `through`; the rest is not decoded. */
  method SplitEntries(data: Bytes, count: nat, end: nat, through: u64, ghost es: seq<QueueEntry>)
    returns (r: Result<Split>)
    requires Holds(data, count, end, es) || end + FOOTER_SIZE <= |data|
    ensures r.Ok? ==> r.value.start <= end && r.value.left <= count
    ensures Holds(data, count, end, es) ==>
              && r.Ok?
              && var n := CountThrough(es, through);
              && r.value.removed == es[..n]
              && r.value.start == |EntriesBytes(es[..n])|
              && r.value.left == |es| - n
  {
    var removed: seq<QueueEntry> := [];
    var offset: nat := 0;
    ghost var ok := Holds(data, count, end, es);
    assert ok ==> es[0..] == es && |es| == count && |EntriesBytes(es)| == end <= |data|;
    assert |EntriesBytes([])| == CountThrough([], through) == 0;
    hide Holds, DecodeEntry, EntriesBytes, CountThrough;
    for i := 0 to count
      invariant offset <= end
      invariant ok ==> removed == es[..i] && offset == |EntriesBytes(es[..i])|
      invariant ok ==> CountThrough(es, through) == i + CountThrough(es[i..], through)
    {
      var entryStart := offset;
      if ok {
        DecodeHeld(data, end, es, i);
        CountAt(es, i, through);
      } else {
        DecodeStaysInside(data, offset, end);
      }
      var entry: Result<QueueEntry>;
      entry, offset := DecodeEntryAt(data, offset, end);
      if entry.Err? {
        return Err(entry.error);
      }
      if entry.value.sequence <= through {
        assert ok ==> es[..i] + [es[i]] == es[..i + 1];
        removed := removed + [entry.value];
      } else {
        return Ok(Split(removed, entryStart, count - i));
      }
    }
    assert ok ==> es[..count] == es && es[count..] == [];
    return Ok(Split(removed, end, 0));
  }

  lemma DecodeHeld(data: Bytes, end: nat, es: seq<QueueEntry>, i: nat)
    requires Holds(data, |es|, end, es) && i < |es|
    ensures var offset := |EntriesBytes(es[..i])|;
            && ReadsInside(data, offset, end)
            && DecodeEntry(data, offset, end) == Decoded(Ok(es[i]), |EntriesBytes(es[..i + 1])|)
            && |EntriesBytes(es[..i + 1])| <= end
  {
    HoldsAt(data, |es|, end, es, i);
    EntryRoundTrip(data, |EntriesBytes(es[..i])|, end, es[i]);
  }

  lemma CountAt(es: seq<QueueEntry>, i: nat, t: u64)
    requires i < |es|
    ensures CountThrough(es[i..], t) == if es[i].sequence <= t then 1 + CountThrough(es[i + 1..], t) else 0
  {
  }

  /** Dropping a leading run is filtering for every bound exactly on ascending entries. */
  lemma DropIsFilterIffAscending(es: seq<QueueEntry>)
    ensures Ascending(es) <==> forall t: u64 :: es[CountThrough(es, t)..] == Keep(es, t)
  {
    if Ascending(es) {
      forall t: u64
        ensures es[CountThrough(es, t)..] == Keep(es, t)
      {
        DropIsFilter(es, t);
      }
    } else {
      var i, j :| 0 <= i < j < |es| && es[i].sequence > es[j].sequence;
      var t := es[j].sequence;
      CountStops(es, t, i);
      KeepAbove(es, t);
      var c := CountThrough(es, t);
      assert es[c..][j - c] == es[j];
    }
  }

  lemma {:induction false} DropIsFilter(es: seq<QueueEntry>, t: u64)
    requires Ascending(es)
    ensures es[CountThrough(es, t)..] == Keep(es, t)
  {
    if es != [] {
      assert Ascending(es[1..]) by {
        assert forall i :: 0 <= i < |es| - 1 ==> es[1..][i] == es[i + 1];
      }
      DropIsFilter(es[1..], t);
      if es[0].sequence > t {
        KeepAll(es, t);
      }
    }
  }

  lemma {:induction false} KeepAll(es: seq<QueueEntry>, t: u64)
    requires forall i :: 0 <= i < |es| ==> es[i].sequence > t
    ensures Keep(es, t) == es
  {
    if es != [] {
      assert forall i :: 0 <= i < |es| - 1 ==> es[1..][i] == es[i + 1];
      KeepAll(es[1..], t);
    }
  }

  lemma {:induction false} CountStops(es: seq<QueueEntry>, t: u64, i: nat)
    requires i < |es| && es[i].sequence > t
    ensures CountThrough(es, t) <= i
  {
    if i > 0 {
      CountStops(es[1..], t, i - 1);
    }
  }

  lemma {:induction false} KeepAbove(es: seq<QueueEntry>, t: u64)
    ensures forall k :: 0 <= k < |Keep(es, t)| ==> Keep(es, t)[k].sequence > t
  {
    if es != [] {
      KeepAbove(es[1..], t);
    }
  }

  lemma {:induction false} KeepConcat(a: seq<QueueEntry>, b: seq<QueueEntry>, t: u64)
    ensures Keep(a + b, t) == Keep(a, t) + Keep(b, t)
  {
    if a == [] {
      assert a + b == b;
    } else {
      assert (a + b)[1..] == a[1..] + b;
      KeepConcat(a[1..], b, t);
    }
  }

  // ----- the buffers -----

  /** The next sequence in the base footer, written before `appended` entries were added. */
  function BaseNext(next: u64, appended: nat): u64
  {
    (next - appended) % TWO_64
  }

  lemma BaseNextStep(next: u64, appended: nat)
    ensures BaseNext((next + 1) % TWO_64, appended + 1) == BaseNext(next, appended)
  {
    if next == U64_MAX {
      assert next - appended == (0 - (appended + 1)) + TWO_64;
    }
  }

  lemma BaseNextZero(next: u64)
    ensures BaseNext(next, 0) == next
  {
  }

  /** A base buffer with a footer and an append buffer hold the encodings of `base` and `tail`. */
  ghost predicate Represents(data: Bytes, appended: Bytes, count: nat, next: u64, epoch: u64,
                             base: seq<QueueEntry>, tail: seq<QueueEntry>)
  {
    && AllFit(base) && |base| <= U32_MAX
    && data == Image(ManifestRec(base, BaseNext(next, |tail|), epoch))
    && AllFit(tail)
    && appended == EntriesBytes(tail)
    && count == |tail|
  }

  lemma AppendRepresents(data: Bytes, appended: Bytes, count: nat, next: u64, epoch: u64,
                         base: seq<QueueEntry>, tail: seq<QueueEntry>, e: QueueEntry)
    requires Represents(data, appended, count, next, epoch, base, tail)
    requires Fits(e)
    ensures Represents(data, appended + EntryBytes(e), count + 1, (next + 1) % TWO_64, epoch, base, tail + [e])
    ensures base + (tail + [e]) == (base + tail) + [e]
  {
    BaseNextStep(next, |tail|);
    EntriesConcat(tail, [e]);
    assert EntriesBytes([e]) == EntryBytes(e) + EntriesBytes([]);
    assert EntryBytes(e) + [] == EntryBytes(e);
  }

  lemma BuffersHold(data: Bytes, appended: Bytes, count: nat, next: u64, epoch: u64,
                    base: seq<QueueEntry>, tail: seq<QueueEntry>)
    requires Represents(data, appended, count, next, epoch, base, tail)
    ensures |data| >= FOOTER_SIZE
    ensures Holds(data, ExistingCount(data), EntriesEnd(data), base)
    ensures Holds(appended, count, |appended|, tail)
    ensures appended == [] <==> tail == []
  {
    ImageFields(ManifestRec(base, BaseNext(next, |tail|), epoch));
    assert appended[..|appended|] == appended;
    if tail != [] {
      assert |appended| == |EntryBytes(tail[0])| + |EntriesBytes(tail[1..])|;
    }
  }

  datatype SplitBytes = SplitBytes(removed: seq<QueueEntry>, bytes: Bytes, left: nat)

  /** What stays of both buffers. */
  ghost function Remaining(base: seq<QueueEntry>, tail: seq<QueueEntry>, through: u64): seq<QueueEntry>
  {
    base[CountThrough(base, through)..] + tail[CountThrough(tail, through)..]
  }

  /** Splitting both buffers when they hold `base` and `tail`. */
  ghost function SplitOf(base: seq<QueueEntry>, tail: seq<QueueEntry>, through: u64): SplitBytes
  {
    var b, t := RegionOf(base, through), RegionOf(tail, through);
    SplitBytes(b.removed + t.removed, b.bytes + t.bytes, b.left + t.left)
  }

  ghost function RegionOf(es: seq<QueueEntry>, through: u64): SplitBytes
  {
    var n := CountThrough(es, through);
    SplitBytes(es[..n], EntriesBytes(es[n..]), |es| - n)
  }

  /** The removed entries of both buffers, the bytes that remain and their number of entries. */
  method SplitBuffers(data: Bytes, appended: Bytes, count: nat, through: u64,
                      ghost held: bool, ghost base: seq<QueueEntry>, ghost tail: seq<QueueEntry>)
    returns (r: Result<SplitBytes>)
    requires |data| >= FOOTER_SIZE
    requires held ==> Holds(data, ExistingCount(data), EntriesEnd(data), base)
    requires Holds(appended, count, |appended|, tail)
    ensures held ==> r == Ok(SplitOf(base, tail, through))
  {
    var b := SplitRegion(data, ExistingCount(data), EntriesEnd(data), through, base);
    if b.Err? {
      return b;
    }
    var a := SplitRegion(appended, count, |appended|, through, tail);
    r := Ok(SplitBytes(b.value.removed + a.value.removed, b.value.bytes + a.value.bytes, b.value.left + a.value.left));
  }

  /** One buffer split, with the bytes that remain of it. */
  method SplitRegion(data: Bytes, count: nat, end: nat, through: u64, ghost es: seq<QueueEntry>)
    returns (r: Result<SplitBytes>)
    requires Holds(data, count, end, es) || end + FOOTER_SIZE <= |data|
    ensures Holds(data, count, end, es) ==> r == Ok(RegionOf(es, through))
  {
    var split := SplitEntries(data, count, end, through, es);
    if split.Err? {
      return Err(split.error);
    }
    if Holds(data, count, end, es) {
      RemainingBytes(data, end, es, CountThrough(es, through));
    }
    r := Ok(SplitBytes(split.value.removed, data[split.value.start..end], split.value.left));
  }

  /** One buffer with a footer represents the entries encoded in it. */
  lemma JoinedRepresents(next: u64, epoch: u64, b: seq<QueueEntry>, t: seq<QueueEntry>)
    requires AllFit(b) && AllFit(t) && |b| + |t| <= U32_MAX
    ensures Represents(EntriesBytes(b) + EntriesBytes(t) + Footer(|b| + |t|, next, epoch), [], 0,
                       next, epoch, b + t, [])
  {
    hide EntriesBytes, Footer, Fits, BaseNext;
    NoEntries();
    BaseNextZero(next);
    EntriesConcat(b, t);
  }

  lemma NoEntries()
    ensures EntriesBytes([]) == []
  {
  }

  lemma DequeueRepresents(next: u64, epoch: u64, base: seq<QueueEntry>, tail: seq<QueueEntry>, through: u64)
    requires AllFit(base) && AllFit(tail) && |base| + |tail| <= U32_MAX
    ensures var s := SplitOf(base, tail, through);
            Represents(s.bytes + Footer(s.left, next, epoch), [], 0, next, epoch, Remaining(base, tail, through), [])
  {
    hide Represents, EntriesBytes, Footer, AllFit, CountThrough;
    var n, m := CountThrough(base, through), CountThrough(tail, through);
    SliceFits(base, n);
    SliceFits(tail, m);
    JoinedRepresents(next, epoch, base[n..], tail[m..]);
  }

  lemma SliceFits(es: seq<QueueEntry>, n: nat)
    requires AllFit(es) && n <= |es|
    ensures AllFit(es[n..])
  {
  }

  lemma DequeueOutcome(data: Bytes, appended: Bytes, count: nat, next: u64, epoch: u64,
                       base: seq<QueueEntry>, tail: seq<QueueEntry>, through: u64, out: SplitBytes)
    requires Represents(data, appended, count, next, epoch, base, tail)
    requires |base| + |tail| <= U32_MAX
    requires var s := SplitOf(base, tail, through);
             out.removed == s.removed && out.bytes == s.bytes + Footer(s.left, next, epoch)
    ensures Represents(out.bytes, [], 0, next, epoch, Remaining(base, tail, through), [])
    ensures Ascending(base + tail) ==>
              && Remaining(base, tail, through) == Keep(base + tail, through)
              && out.removed + Remaining(base, tail, through) == base + tail
  {
    BuffersHold(data, appended, count, next, epoch, base, tail);
    DequeueRepresents(next, epoch, base, tail, through);
    if Ascending(base + tail) {
      DequeueParts(base, tail, through);
    }
  }

  /** The base buffer after a dequeue, and what was removed. */
  method DequeueBytes(data: Bytes, appended: Bytes, count: nat, next: u64, epoch: u64, through: u64,
                      ghost base: seq<QueueEntry>, ghost tail: seq<QueueEntry>)
    returns (r: Result<SplitBytes>)
    requires |data| >= FOOTER_SIZE
    requires Represents(data, appended, count, next, epoch, base, tail) || (appended == [] && count == 0)
    ensures r.Ok? ==> |r.value.bytes| >= FOOTER_SIZE
    ensures Represents(data, appended, count, next, epoch, base, tail) ==>
              && r.Ok?
              && var s := SplitOf(base, tail, through);
              && r.value.removed == s.removed
              && r.value.bytes == s.bytes + Footer(s.left, next, epoch)
  {
    ghost var held := Represents(data, appended, count, next, epoch, base, tail);
    ghost var kept := if held then tail else [];
    if held {
      BuffersHold(data, appended, count, next, epoch, base, tail);
    }
    assert Holds(appended, count, |appended|, kept);
    var split := SplitBuffers(data, appended, count, through, held, base, kept);
    if split.Err? {
      return Err(split.error);
    }
    r := Ok(split.value.(bytes := split.value.bytes + Footer(split.value.left, next, epoch)));
  }

  lemma ToBytesRepresents(data: Bytes, appended: Bytes, count: nat, next: u64, epoch: u64,
                          base: seq<QueueEntry>, tail: seq<QueueEntry>)
    requires Represents(data, appended, count, next, epoch, base, tail)
    ensures |data| >= FOOTER_SIZE && ExistingCount(data) == |base|
    ensures appended == [] <==> tail == []
    ensures tail == [] ==> data == Image(ManifestRec(base + tail, next, epoch))
    ensures data[..EntriesEnd(data)] + appended + Footer(|base| + |tail|, next, epoch)
         == Image(ManifestRec(base + tail, next, epoch))
  {
    hide EntriesBytes, Footer, BaseNext, Fits, Holds;
    BuffersHold(data, appended, count, next, epoch, base, tail);
    ImageFields(ManifestRec(base, BaseNext(next, |tail|), epoch));
    EntriesConcat(base, tail);
    if tail == [] {
      BaseNextZero(next);
      assert base + tail == base;
    }
  }

  lemma BufferCounts(data: Bytes, appended: Bytes, count: nat, next: u64, epoch: u64,
                     base: seq<QueueEntry>, tail: seq<QueueEntry>)
    requires Represents(data, appended, count, next, epoch, base, tail)
    ensures ExistingCount(data) == |base| <= U32_MAX && count == |tail| && (appended == [] <==> tail == [])
  {
    hide Image, EntriesBytes, AllFit, ExistingCount, EntriesEnd;
    BuffersHold(data, appended, count, next, epoch, base, tail);
  }

  method MergedBytes(data: Bytes, appended: Bytes, count: nat, next: u64, epoch: u64,
                     ghost base: seq<QueueEntry>, ghost tail: seq<QueueEntry>)
    returns (r: Result<Bytes>)
    requires data == [] || |data| >= FOOTER_SIZE
    ensures r.Err? <==> appended != [] && ExistingCount(data) + count % TWO_32 > U32_MAX
    ensures Represents(data, appended, count, next, epoch, base, tail) && |base| + |tail| <= U32_MAX ==>
              r == Ok(Image(ManifestRec(base + tail, next, epoch)))
  {
    hide EntriesBytes, Footer, Image, AllFit;
    if Represents(data, appended, count, next, epoch, base, tail) {
      ToBytesRepresents(data, appended, count, next, epoch, base, tail);
    }
    if appended == [] {
      return Ok(data);
    }
    var prefix, baseCount := data[..EntriesEnd(data)], ExistingCount(data);
    var total := baseCount + count % TWO_32;
    if total > U32_MAX {
      return Err(Serialization);
    }
    return Ok(prefix + appended + Footer(total, next, epoch));
  }

  class Manifest {
    var data: Bytes
    var appended: Bytes
    var appendedCount: nat
    var nextSequence: u64
    var epoch: u64
    ghost var base: seq<QueueEntry>
    ghost var tail: seq<QueueEntry>

    /** Enough structure for the operations not to read outside the buffers. */
    ghost predicate Framed()
      reads this
    {
      |data| >= FOOTER_SIZE && appended == [] && appendedCount == 0
    }

    /** The buffers hold the encodings of `base` and `tail`. */
    ghost predicate Valid()
      reads this
    {
      Represents(data, appended, appendedCount, nextSequence, epoch, base, tail)
    }

    ghost function Record(): ManifestRec
      reads this
    {
      ManifestRec(base + tail, nextSequence, epoch)
    }

    constructor Empty()
      ensures Valid() && Framed() && Record() == EMPTY
    {
      var buf := LE(4, 0);
      buf := buf + LE(8, 0);
      buf := buf + LE(8, 0);
      buf := buf + LE(2, MANIFEST_VERSION);
      data := buf;
      appended := [];
      appendedCount := 0;
      nextSequence := 0;
      epoch := 0;
      base := [];
      tail := [];
      new;
      assert Image(EMPTY) == Footer(0, 0, 0);
    }

    constructor Wrap(bytes: Bytes, next: u64, e: u64, ghost rec: ManifestRec)
      ensures data == bytes && appended == [] && appendedCount == 0
      ensures nextSequence == next && epoch == e && base == rec.entries && tail == []
    {
      data := bytes;
      appended := [];
      appendedCount := 0;
      nextSequence := next;
      epoch := e;
      base := rec.entries;
      tail := [];
    }

    /** Accepts any bytes with a footer of this version; an image opens as its record. */
    static method FromBytes(bytes: Bytes, ghost rec: ManifestRec) returns (r: Result<Manifest>)
      ensures r.Ok? <==> Accepted(bytes)
      ensures r.Ok? ==> fresh(r.value) && r.value.Framed() && r.value.data == bytes
      ensures WellFormed(rec) && bytes == Image(rec) ==>
                r.Ok? && r.value.Valid() && r.value.Record() == rec
    {
      hide Represents, Image, AllFit;
      if bytes == Image(rec) && WellFormed(rec) {
        ImageFields(rec);
        ImageRepresents(rec);
      }
      if bytes == [] {
        return Err(Serialization);
      }
      if |bytes| < FOOTER_SIZE {
        return Err(Serialization);
      }
      if Field(bytes, |bytes| - 2, 2) != MANIFEST_VERSION {
        return Err(Serialization);
      }
      var e := FieldU64(bytes, |bytes| - 10);
      var next := FieldU64(bytes, |bytes| - 18);
      var m := new Manifest.Wrap(bytes, next, e, rec);
      assert rec.entries + [] == rec.entries;
      return Ok(m);
    }

    method Append(entry: QueueEntry) returns (r: Result<()>)
      modifies this
      ensures r.Ok? <==> PayloadsFit(entry.metadata)
      ensures data == old(data) && epoch == old(epoch)
      ensures r.Err? ==> nextSequence == old(nextSequence) && appendedCount == old(appendedCount)
      ensures r.Ok? ==> appendedCount == old(appendedCount) + 1
      ensures old(Valid()) && Fits(entry) ==>
                && r.Ok? && Valid()
                && Record() == AppendRec(old(Record()), entry.location, entry.metadata)
    {
      var sequenced := entry.(sequence := nextSequence);
      if Fits(entry) {
        PayloadsWithinBody(entry.metadata);
        if Valid() {
          AppendRepresents(data, appended, appendedCount, nextSequence, epoch, base, tail, sequenced);
        }
      }
      r, appended := EncodeEntry(appended, sequenced);
      if r.Err? {
        return;
      }
      tail := tail + [sequenced];
      nextSequence := (nextSequence + 1) % TWO_64;
      appendedCount := appendedCount + 1;
    }

    /** Iterates base and appended entries: all of the record, in order. */
    method Iter() returns (it: ManifestIter)
      requires |data| >= FOOTER_SIZE && (Framed() || Valid())
      ensures fresh(it) && it.Valid() && it.data == data
      ensures Valid() ==> it.Pending() == Oks(Record().entries)
      ensures appended == [] ==> it.Pending() == Items(data, 0, EntriesEnd(data), ExistingCount(data), [])
    {
      ghost var rest := if Valid() then tail else [];
      if Valid() {
        BuffersHold(data, appended, appendedCount, nextSequence, epoch, base, tail);
        ItemsOfBuffers(data, appended, appendedCount, nextSequence, epoch, base, tail);
      }
      NoEntries();
      it := new ManifestIter(data, appended, appendedCount, rest);
    }

    /** Copies the bytes that stay; nothing that stays is decoded or encoded again. */
    method Dequeue(through: u64) returns (r: Result<seq<QueueEntry>>)
      requires |data| >= FOOTER_SIZE && (Framed() || Valid())
      modifies this
      ensures r.Err? ==> unchanged(this)
      ensures r.Ok? ==> Framed() && nextSequence == old(nextSequence) && epoch == old(epoch)
      ensures old(Valid()) ==> r.Ok?
      ensures old(Valid()) && |old(Record()).entries| <= U32_MAX ==> Valid()
      ensures old(Valid()) && |old(Record()).entries| <= U32_MAX && Ascending(old(Record()).entries) ==>
                && Record() == DequeueRec(old(Record()), through)
                && r.value + Record().entries == old(Record()).entries
    {
      hide Represents, ExistingCount, Remaining, Keep;
      var d := DequeueBytes(data, appended, appendedCount, nextSequence, epoch, through, base, tail);
      if d.Err? {
        return Err(d.error);
      }
      ghost var left := Remaining(base, tail, through);
      if Valid() && |base| + |tail| <= U32_MAX {
        DequeueOutcome(data, appended, appendedCount, nextSequence, epoch, base, tail, through, d.value);
      }
      data := d.value.bytes;
      appended := [];
      appendedCount := 0;
      base := left;
      tail := [];
      assert left + [] == left;
      return Ok(d.value.removed);
    }

    method SetEpoch(e: u64)
      requires |data| >= 10
      modifies `epoch, `data
      ensures epoch == e && |data| == |old(data)|
      ensures old(Valid()) ==> Valid() && Record() == old(Record()).(epoch := e)
    {
      var start := |data| - 10;
      if Valid() {
        EpochPatch(ManifestRec(base, BaseNext(nextSequence, |tail|), epoch), e);
      }
      epoch := e;
      data := data[..start] + LE(8, e) + data[start + 8..];
    }

    /** Merges the appended bytes behind the base and writes one footer. */
    method ToBytes() returns (r: Result<Bytes>)
      requires data == [] || |data| >= FOOTER_SIZE
      ensures r.Err? <==> appended != [] && ExistingCount(data) + appendedCount % TWO_32 > U32_MAX
      ensures Valid() && |Record().entries| <= U32_MAX ==> r == Ok(Image(Record()))
      ensures Valid() && appendedCount <= U32_MAX ==> (r.Err? <==> |Record().entries| > U32_MAX)
    {
      hide Represents, Image, ExistingCount;
      if Valid() {
        BufferCounts(data, appended, appendedCount, nextSequence, epoch, base, tail);
      }
      r := MergedBytes(data, appended, appendedCount, nextSequence, epoch, base, tail);
    }
  }

  lemma RemainingBytes(data: Bytes, end: nat, es: seq<QueueEntry>, n: nat)
    requires Holds(data, |es|, end, es) && n <= |es|
    ensures |EntriesBytes(es[..n])| <= end
    ensures data[|EntriesBytes(es[..n])|..end] == EntriesBytes(es[n..])
  {
    if n < |es| {
      HoldsAt(data, |es|, end, es, n);
    } else {
      assert es[..n] == es && es[n..] == [];
    }
  }

  lemma DequeueParts(base: seq<QueueEntry>, tail: seq<QueueEntry>, through: u64)
    requires Ascending(base + tail)
    ensures var nb, nt := CountThrough(base, through), CountThrough(tail, through);
            && base[nb..] + tail[nt..] == Keep(base + tail, through)
            && (base[..nb] + tail[..nt]) + (base[nb..] + tail[nt..]) == base + tail
  {
    var nb, nt := CountThrough(base, through), CountThrough(tail, through);
    AscendingParts(base, tail);
    DropIsFilter(base, through);
    DropIsFilter(tail, through);
    KeepConcat(base, tail, through);
    CountBelow(tail, through);
    CountNext(base, through);
    Regroup(base, tail, nb, nt);
  }

  lemma Regroup(a: seq<QueueEntry>, b: seq<QueueEntry>, n: nat, k: nat)
    requires n <= |a| && k <= |b| && (n == |a| || k == 0)
    ensures (a[..n] + b[..k]) + (a[n..] + b[k..]) == a + b
  {
  }

  lemma AscendingParts(base: seq<QueueEntry>, tail: seq<QueueEntry>)
    requires Ascending(base + tail)
    ensures Ascending(base) && Ascending(tail)
    ensures forall i :: 0 <= i < |base| && tail != [] ==> base[i].sequence <= tail[0].sequence
  {
    var all := base + tail;
    assert forall i :: 0 <= i < |base| ==> base[i] == all[i];
    assert forall i :: 0 <= i < |tail| ==> tail[i] == all[|base| + i];
  }

  lemma CountBelow(es: seq<QueueEntry>, t: u64)
    ensures CountThrough(es, t) > 0 ==> es[0].sequence <= t
  {
  }

  lemma {:induction false} CountNext(es: seq<QueueEntry>, t: u64)
    ensures CountThrough(es, t) < |es| ==> es[CountThrough(es, t)].sequence > t
  {
    if es != [] && es[0].sequence <= t {
      CountNext(es[1..], t);
    }
  }

  lemma EpochPatch(m: ManifestRec, e: u64)
    ensures var data := Image(m); var start := |data| - 10;
            data[..start] + LE(8, e) + data[start + 8..] == Image(m.(epoch := e))
  {
  }

  // ----- reading entries back -----

  datatype DecodeRun = DecodeRun(items: seq<Result<QueueEntry>>, offset: nat)

  /** Outcomes of decoding `remaining` entries from `offset`, and the final offset. */
  function BaseRun(data: Bytes, offset: nat, end: nat, remaining: nat): (r: DecodeRun)
    requires end + FOOTER_SIZE <= |data|
    ensures |r.items| == remaining
    decreases remaining
  {
    if remaining == 0 then DecodeRun([], offset)
    else
      DecodeStaysInside(data, offset, end);
      var d := DecodeEntry(data, offset, end);
      var rest := BaseRun(data, d.offset, end, remaining - 1);
      DecodeRun([d.result] + rest.items, rest.offset)
  }

  /** Every item the iterator yields: those of the base buffer, the entries `rest` appended
      since, and an error if the base was not used up. */
  function Items(data: Bytes, offset: nat, end: nat, remaining: nat, rest: seq<QueueEntry>)
    : (r: seq<Result<QueueEntry>>)
    requires end + FOOTER_SIZE <= |data|
    ensures |r| <= remaining + |rest| + 1
  {
    var run := BaseRun(data, offset, end, remaining);
    run.items + Oks(rest) + (if run.offset != end then [Err(Serialization)] else [])
  }

  /** Iterator over the base entries and the appended ones. The append buffer holds the
      encodings of `tail`; the base buffer may be any bytes. */
  class ManifestIter {
    const data: Bytes
    const entriesEnd: nat
    var offset: nat
    var remaining: nat
    const appended: Bytes
    var appendedOffset: nat
    var appendedRemaining: nat
    ghost const tail: seq<QueueEntry>

    ghost predicate Valid()
      reads this
    {
      && entriesEnd + FOOTER_SIZE <= |data|
      && Holds(appended, |tail|, |appended|, tail)
      && appendedRemaining <= |tail|
      && appendedOffset == |EntriesBytes(tail[..|tail| - appendedRemaining])|
    }

    ghost function Pending(): seq<Result<QueueEntry>>
      requires Valid()
      reads this
    {
      Items(data, offset, entriesEnd, remaining, tail[|tail| - appendedRemaining..])
    }

    constructor (bytes: Bytes, more: Bytes, count: nat, ghost t: seq<QueueEntry>)
      requires |bytes| >= FOOTER_SIZE && Holds(more, count, |more|, t)
      ensures Valid() && data == bytes
      ensures Pending() == Items(bytes, 0, EntriesEnd(bytes), ExistingCount(bytes), t)
    {
      data := bytes;
      entriesEnd := EntriesEnd(bytes);
      offset := 0;
      remaining := ExistingCount(bytes);
      appended, appendedOffset, appendedRemaining := more, 0, count;
      tail := t;
      NoEntries();
      assert t[..0] == [] && t[0..] == t;
    }

    method Next() returns (item: Option<Result<QueueEntry>>)
      requires Valid()
      modifies this
      ensures Valid()
      ensures old(Pending()) == [] <==> item.None?
      ensures item.Some? ==> old(Pending()) == [item.value] + Pending()
      ensures item.None? ==> Pending() == []
    {
      hide DecodeEntry, ReadsInside, EntriesBytes, Holds, Items;
      ghost var rest := tail[|tail| - appendedRemaining..];
      if remaining > 0 {
        ItemsBaseStep(data, offset, entriesEnd, remaining, rest);
        var r: Result<QueueEntry>;
        r, offset := DecodeEntryAt(data, offset, entriesEnd);
        remaining := remaining - 1;
        return Some(r);
      } else if appendedRemaining > 0 {
        ghost var i := |tail| - appendedRemaining;
        DecodeHeld(appended, |appended|, tail, i);
        ItemsTailStep(data, offset, entriesEnd, tail, i);
        var r: Result<QueueEntry>;
        r, appendedOffset := DecodeEntryAt(appended, appendedOffset, |appended|);
        appendedRemaining := appendedRemaining - 1;
        return Some(r);
      } else if offset != entriesEnd {
        ItemsEnd(data, offset, entriesEnd);
        ItemsEnd(data, entriesEnd, entriesEnd);
        offset := entriesEnd;
        return Some(Err(Serialization));
      } else {
        ItemsEnd(data, offset, entriesEnd);
        return None;
      }
    }

    /** Runs the iterator to its end or to the first error. */
    method CollectAll() returns (r: Result<seq<QueueEntry>>)
      requires Valid()
      modifies this
      ensures r == Collect(old(Pending()))
    {
      var entries: seq<QueueEntry> := [];
      ghost var all := Pending();
      assert Collect(all).Ok? ==> [] + Collect(all).value == Collect(all).value;
      while true
        invariant Valid() && Collect(all) == Onto(entries, Collect(Pending()))
        decreases |Pending()|
      {
        ghost var before := Pending();
        var item := Next();
        if item.None? {
          break;
        }
        assert before[0] == item.value && before[1..] == Pending();
        if item.value.Err? {
          return Err(item.value.error);
        }
        OntoStep(entries, item.value.value, Collect(Pending()));
        entries := entries + [item.value.value];
      }
      assert entries + [] == entries;
      return Ok(entries);
    }
  }

  function Oks(es: seq<QueueEntry>): (r: seq<Result<QueueEntry>>)
    ensures |r| == |es|
  {
    seq(|es|, i requires 0 <= i < |es| => Ok(es[i]))
  }

  lemma OksStep(es: seq<QueueEntry>, i: nat)
    requires i < |es|
    ensures Oks(es[i..]) == [Ok(es[i])] + Oks(es[i + 1..])
  {
    assert es[i..][1..] == es[i + 1..];
  }

  lemma OksConcat(xs: seq<QueueEntry>, ys: seq<QueueEntry>)
    ensures Oks(xs + ys) == Oks(xs) + Oks(ys)
  {
  }

  lemma ItemsBaseStep(data: Bytes, offset: nat, end: nat, remaining: nat, rest: seq<QueueEntry>)
    requires end + FOOTER_SIZE <= |data| && remaining > 0
    ensures ReadsInside(data, offset, end)
    ensures var d := DecodeEntry(data, offset, end);
            Items(data, offset, end, remaining, rest) == [d.result] + Items(data, d.offset, end, remaining - 1, rest)
  {
    DecodeStaysInside(data, offset, end);
    hide DecodeEntry, ReadsInside, Oks;
  }

  lemma ItemsTailStep(data: Bytes, offset: nat, end: nat, es: seq<QueueEntry>, i: nat)
    requires end + FOOTER_SIZE <= |data| && i < |es|
    ensures Items(data, offset, end, 0, es[i..]) == [Ok(es[i])] + Items(data, offset, end, 0, es[i + 1..])
  {
    OksStep(es, i);
    hide Oks;
  }

  lemma ItemsEnd(data: Bytes, offset: nat, end: nat)
    requires end + FOOTER_SIZE <= |data|
    ensures Items(data, offset, end, 0, []) == if offset != end then [Err(Serialization)] else []
  {
  }

  lemma {:induction false} RunOverEntries(data: Bytes, end: nat, es: seq<QueueEntry>, i: nat)
    requires Holds(data, |es|, end, es) && i <= |es| && end + FOOTER_SIZE <= |data|
    ensures BaseRun(data, |EntriesBytes(es[..i])|, end, |es| - i) == DecodeRun(Oks(es[i..]), end)
    decreases |es| - i
  {
    assert end == |EntriesBytes(es)|;
    hide Holds, DecodeEntry, EntriesBytes;
    if i == |es| {
      assert es[..i] == es;
    } else {
      DecodeHeld(data, end, es, i);
      RunOverEntries(data, end, es, i + 1);
      assert es[i..][0] == es[i] && es[i..][1..] == es[i + 1..];
    }
  }

  /** Buffers that hold `base` and `tail` yield all of them in order, without an error at the end. */
  lemma ItemsOfBuffers(data: Bytes, appended: Bytes, count: nat, next: u64, epoch: u64,
                       base: seq<QueueEntry>, tail: seq<QueueEntry>)
    requires Represents(data, appended, count, next, epoch, base, tail)
    ensures |data| >= FOOTER_SIZE
    ensures Items(data, 0, EntriesEnd(data), ExistingCount(data), tail) == Oks(base + tail)
  {
    BuffersHold(data, appended, count, next, epoch, base, tail);
    hide Represents, Holds, EntriesBytes;
    NoEntries();
    assert base[..0] == [] && base[0..] == base;
    RunOverEntries(data, EntriesEnd(data), base, 0);
    OksConcat(base, tail);
  }

  lemma ImageRepresents(m: ManifestRec)
    requires WellFormed(m)
    ensures Represents(Image(m), [], 0, m.nextSequence, m.epoch, m.entries, [])
  {
    hide EntriesBytes, Footer, BaseNext, Image, Fits;
    NoEntries();
    BaseNextZero(m.nextSequence);
  }

  /** An image yields its entries in order. */
  lemma ItemsOfImage(m: ManifestRec)
    requires WellFormed(m)
    ensures Accepted(Image(m))
    ensures var data := Image(m);
            Items(data, 0, EntriesEnd(data), ExistingCount(data), []) == Oks(m.entries)
  {
    ImageFields(m);
    ImageRepresents(m);
    ItemsOfBuffers(Image(m), [], 0, m.nextSequence, m.epoch, m.entries, []);
    assert m.entries + [] == m.entries;
  }

  /** All entries, or the first error. */
  function Collect(items: seq<Result<QueueEntry>>): Result<seq<QueueEntry>>
  {
    if items == [] then Ok([])
    else if items[0].Err? then Err(items[0].error)
    else
      var rest := Collect(items[1..]);
      if rest.Err? then rest else Ok([items[0].value] + rest.value)
  }

  lemma {:induction false} CollectOks(es: seq<QueueEntry>)
    ensures Collect(Oks(es)) == Ok(es)
  {
    if es != [] {
      CollectOks(es[1..]);
      assert Oks(es)[1..] == Oks(es[1..]);
      assert es == [es[0]] + es[1..];
    }
  }

  /** Parsing any bytes ends after at most one item more than the footer counts, and
      parsing the image of a manifest gives that manifest. */
  method ParseManifest(bytes: Bytes, ghost rec: ManifestRec) returns (r: Result<ManifestRec>)
    ensures !Accepted(bytes) ==> r.Err?
    ensures Accepted(bytes) ==>
              && var entries := Collect(Items(bytes, 0, EntriesEnd(bytes), ExistingCount(bytes), []));
              && (r.Ok? <==> entries.Ok?)
              && (r.Ok? ==>
                    r.value == ManifestRec(entries.value, FieldU64(bytes, |bytes| - 18), FieldU64(bytes, |bytes| - 10)))
    ensures WellFormed(rec) && bytes == Image(rec) ==> r == Ok(rec)
  {
    hide Items, Collect, Image;
    if WellFormed(rec) && bytes == Image(rec) {
      ImageFields(rec);
      ItemsOfImage(rec);
      CollectOks(rec.entries);
    }
    if |bytes| < FOOTER_SIZE || Field(bytes, |bytes| - 2, 2) != MANIFEST_VERSION {
      return Err(Serialization);
    }
    NoEntries();
    var iter := new ManifestIter(bytes, [], 0, []);
    var entries := iter.CollectAll();
    if entries.Err? {
      return Err(entries.error);
    }
    return Ok(ManifestRec(entries.value, FieldU64(bytes, |bytes| - 18), FieldU64(bytes, |bytes| - 10)));
  }
}
