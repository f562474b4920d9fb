/** Read views: how a subscriber turns broadcast writes into what readers see
    (log/src/view_tracker.rs, log/src/log.rs). */
module LogViews {
  import opened ByteStrings
  import opened LogKeys
  import opened LogTables
  import opened LogStorage
  import opened Segments

  /** A write as it was broadcast. A snapshot is named by its place in the list of puts,
      which is also the storage's sequence number of the put. */
  datatype ViewEntry = ViewEntry(seqnum: nat, epoch: nat, snapshot: nat, lastSegment: Option<u32>)

  /** How many pending entries at the front are covered by a watermark. */
  function Covered(pending: seq<ViewEntry>, through: nat): (n: nat)
    ensures n <= |pending|
    ensures forall i :: 0 <= i < n ==> pending[i].seqnum <= through
    ensures n < |pending| ==> pending[n].seqnum > through
    decreases |pending|
  {
    if pending == [] || pending[0].seqnum > through then 0 else 1 + Covered(pending[1..], through)
  }

  class ViewTracker {
    var pending: seq<ViewEntry>

    constructor ()
      ensures pending == []
    {
      pending := [];
    }

    method Push(entry: ViewEntry)
      modifies this
      ensures pending == old(pending) + [entry]
    {
      pending := pending + [entry];
    }

    /** Drains what the watermark covers; the newest of it becomes the view. */
    method Advance(through: nat) returns (last: Option<ViewEntry>)
      modifies this
      ensures var n := Covered(old(pending), through);
              pending == old(pending)[n..] && last == if n == 0 then None else Some(old(pending)[n - 1])
    {
      last := None;
      ghost var n := 0;
      while pending != [] && pending[0].seqnum <= through
        invariant n <= |old(pending)| && pending == old(pending)[n..]
        invariant Covered(old(pending), through) == n + Covered(pending, through)
        invariant last == if n == 0 then None else Some(old(pending)[n - 1])
        decreases |pending|
      {
        last := Some(pending[0]);
        pending := pending[1..];
        n := n + 1;
      }
    }
  }

  /** A reader's view: a snapshot and the segments loaded for it. */
  datatype View = View(snapshot: nat, segments: seq<LogSegment>)

  /** The segments after moving to `t`: reloaded from the first unknown one when the writer
      reports a segment that is not known. */
  ghost function Refreshed(t: Table, segs: seq<LogSegment>, known: Option<u32>, reported: Option<u32>): seq<LogSegment>
  {
    if reported == known then segs
    else
      var loaded := SegmentsIn(t, FirstAfter(known), U32_MAX);
      if loaded.Err? then segs else InsertAll(if known.None? then [] else segs, loaded.value)
  }

  /** A cache that knew a prefix of the stored segments knows them all after the move. */
  lemma RefreshExact(t: Table, c: Content, n: nat)
    requires Represents(t, c) && ContentOk(c) && n <= |c.segments|
    ensures Refreshed(t, c.segments[..n], LatestId(c.segments[..n]), LatestId(c.segments)) == c.segments
  {
    hide Represents, SegmentsIn, InsertAll, LogOk, Reserved, ListingOk;
    var segs := c.segments[..n];
    RefreshCompletes(t, c, n);
    assert c.segments[..0] == [];
    if n > 0 {
      assert segs[n - 1] == c.segments[n - 1];
      assert LatestId(segs) == Some(n - 1);
      if LatestId(c.segments) == LatestId(segs) {
        assert n == |c.segments|;
      }
    }
  }
}
