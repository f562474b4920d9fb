/** Opening a log and the subscriber task that moves its read view (log/src/log.rs). */
module LogInstances {
  import opened ByteStrings
  import opened LogTables
  import opened LogStorage
  import opened Sequences
  import opened Segments
  import opened Listings
  import opened LogWriters
  import opened LogViews
  import opened LogRuns

  /** A restart on the storage `t`. */
  method FromStorage(t: Table, interval: Option<int>) returns (r: Result<LogWriter>)
    ensures r.Ok? <==> Reload(t).Some?
    ensures r.Ok? ==> fresh(r.value) && r.value.Value() == Reload(t).value && r.value.storage == t
  {
    hide SegmentsIn, InsertAll;
    var block := Load(t);
    if block.Err? {
      return Err(block.error);
    }
    var loaded := ScanSegments(t, 0, U32_MAX);
    if loaded.Err? {
      return Err(loaded.error);
    }
    var allocator := new SequenceAllocator(block.value);
    var cache := new SegmentCache(loaded.value, interval);
    var listing := new ListingCache();
    var writer := new LogWriter(allocator, cache, listing, t);
    r := Ok(writer);
  }

  /** The subscriber: pending entries, the read view it maintains and its watermarks. */
  class Subscriber {
    const mode: Mode
    const tracker: ViewTracker
    const cache: SegmentCache
    var snapshot: nat
    var known: Option<u32>
    var lastDurable: nat
    var seenWritten: nat
    var seenDurable: nat

    constructor (m: Mode, c: SegmentCache, base: nat, durable: nat)
      ensures mode == m && cache == c && fresh(tracker) && tracker.pending == []
      ensures snapshot == base && known == LatestId(c.segments) && lastDurable == durable
      ensures seenWritten == 0 && seenDurable == 0
    {
      mode, cache := m, c;
      tracker := new ViewTracker();
      snapshot, known, lastDurable := base, LatestId(c.segments), durable;
      seenWritten, seenDurable := 0, 0;
    }

    /** The object's fields are the subscriber's part of `d`. */
    ghost predicate Is(d: Db)
      reads this, tracker, cache
    {
      && tracker.pending == d.pending && View(snapshot, cache.segments) == d.view && known == d.known
      && lastDurable == d.lastDurable && seenWritten == d.seenWritten && seenDurable == d.seenDurable
    }

    /** Moves the view to what the watermark covers, with its epoch, and with its segments if
        they can be read. */
    method TryAdvanceReadView(snaps: seq<Snap>, through: nat, readable: bool, ghost d: Db)
      requires Is(d) && forall i :: 0 <= i < |d.pending| ==> d.pending[i].snapshot < |snaps|
      modifies this, tracker, cache
      ensures Is(TryAdvance(mode, snaps, d, through, readable))
    {
      hide SegmentsIn, InsertAll, Covered;
      var advanced := tracker.Advance(through);
      if advanced.Some? {
        var e := advanced.value;
        snapshot := e.snapshot;
        if e.lastSegment != known {
          var r := cache.Refresh(snaps[e.snapshot].table, readable, known);
          if r.Ok? {
            known := e.lastSegment;
          }
        }
        if mode.Memory? {
          seenWritten := e.epoch;
        } else {
          seenDurable := e.epoch;
        }
      }
    }

    /** A new value of the watch cell. */
    method OnWritten(snaps: seq<Snap>, cell: ViewEntry, readable: bool, ghost d: Db)
      requires Is(d) && d.cell == cell && cell.snapshot < |snaps|
      requires forall i :: 0 <= i < |d.pending| ==> d.pending[i].snapshot < |snaps|
      modifies this, tracker, cache
      ensures Is(Received(mode, snaps, d, readable))
    {
      hide TryAdvance;
      tracker.Push(cell);
      ghost var d' := d.(pending := d.pending + [cell], unseen := false);
      if mode.Memory? {
        TryAdvanceReadView(snaps, cell.seqnum, readable, d');
      } else {
        seenWritten := cell.epoch;
        TryAdvanceReadView(snaps, lastDurable, readable, d'.(seenWritten := cell.epoch));
      }
    }

    /** A new durable watermark. */
    method OnDurable(snaps: seq<Snap>, durable: nat, readable: bool, ghost d: Db)
      requires Is(d) && forall i :: 0 <= i < |d.pending| ==> d.pending[i].snapshot < |snaps|
      modifies this, tracker, cache
      ensures Is(TryAdvance(mode, snaps, d.(lastDurable := durable), durable, readable))
    {
      hide TryAdvance;
      lastDurable := durable;
      TryAdvanceReadView(snaps, durable, readable, d.(lastDurable := durable));
    }
  }
}
