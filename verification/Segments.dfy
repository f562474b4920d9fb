/** Segments and their cache (log/src/segment.rs). */
module Segments {
  import opened ByteStrings
  import opened LogKeys
  import opened LogTables
  import opened LogStorage

  /** The cache's order: one segment per first sequence. */
  ghost predicate ByStart(segs: seq<LogSegment>)
  {
    forall i, j :: 0 <= i < j < |segs| ==> segs[i].meta.startSeq < segs[j].meta.startSeq
  }

  function Latest(segs: seq<LogSegment>): Option<LogSegment>
  {
    if segs == [] then None else Some(segs[|segs| - 1])
  }

  function LatestId(segs: seq<LogSegment>): Option<u32>
  {
    if segs == [] then None else Some(segs[|segs| - 1].id)
  }

  predicate ShouldRoll(sealInterval: Option<int>, now: int, latest: Option<LogSegment>)
  {
    if latest.None? then true
    else if sealInterval.None? then false
    else now - latest.value.meta.startTimeMs >= sealInterval.value
  }

  /** The interval of segment `i` meets [a, b); the last segment has no end. */
  ghost predicate Meets(segs: seq<LogSegment>, i: nat, a: u64, b: u64)
    requires i < |segs|
  {
    a < b && segs[i].meta.startSeq < b && (i + 1 < |segs| ==> a < segs[i + 1].meta.startSeq)
  }

  /** The segments from index `i` on whose interval meets [a, b), in order. */
  ghost function Covering(segs: seq<LogSegment>, i: nat, a: u64, b: u64): seq<LogSegment>
    decreases |segs| - i
  {
    if i >= |segs| then []
    else (if Meets(segs, i, a, b) then [segs[i]] else []) + Covering(segs, i + 1, a, b)
  }

  lemma {:induction false} CoversNone(segs: seq<LogSegment>, i: nat, a: u64, b: u64)
    requires forall j :: i <= j < |segs| ==> !Meets(segs, j, a, b)
    ensures Covering(segs, i, a, b) == []
    decreases |segs| - i
  {
    hide Meets;
    if i < |segs| {
      CoversNone(segs, i + 1, a, b);
    }
  }

  lemma {:induction false} CoversRun(segs: seq<LogSegment>, i: nat, hi: nat, a: u64, b: u64)
    requires i <= hi <= |segs| && forall j :: i <= j < |segs| ==> (j < hi <==> Meets(segs, j, a, b))
    ensures Covering(segs, i, a, b) == segs[i..hi]
    decreases |segs| - i
  {
    hide Meets;
    if i < hi {
      CoversRun(segs, i + 1, hi, a, b);
    } else {
      CoversNone(segs, i, a, b);
    }
  }

  lemma {:induction false} CoveringIsSlice(segs: seq<LogSegment>, i: nat, lo: nat, hi: nat, a: u64, b: u64)
    requires i <= lo <= hi <= |segs|
    requires forall j :: 0 <= j < |segs| ==> (lo <= j < hi <==> Meets(segs, j, a, b))
    ensures Covering(segs, i, a, b) == segs[lo..hi]
    decreases lo - i
  {
    hide Meets;
    if i < lo {
      CoveringIsSlice(segs, i + 1, lo, hi, a, b);
    } else {
      CoversRun(segs, i, hi, a, b);
    }
  }

  lemma SliceGrows(segs: seq<LogSegment>, lo: nat, k: nat)
    requires lo <= k < |segs|
    ensures segs[lo..k + 1] == segs[lo..k] + [segs[k]]
  {
  }

  lemma SliceOfOne(segs: seq<LogSegment>, i: nat)
    requires i < |segs|
    ensures segs[i..i + 1] == [segs[i]]
  {
  }

  // ----- insertion by first sequence -----

  function Insert(segs: seq<LogSegment>, s: LogSegment): seq<LogSegment>
  {
    if segs == [] then [s]
    else
      var n := |segs| - 1;
      if segs[n].meta.startSeq < s.meta.startSeq then segs + [s]
      else if segs[n].meta.startSeq == s.meta.startSeq then segs[..n] + [s]
      else Insert(segs[..n], s) + [segs[n]]
  }

  /** Insertion keeps the order and replaces only a segment with the same first sequence. */
  lemma {:induction false} InsertMember(segs: seq<LogSegment>, s: LogSegment)
    requires ByStart(segs)
    ensures ByStart(Insert(segs, s))
    ensures forall x :: x in Insert(segs, s) <==> x == s || (x in segs && x.meta.startSeq != s.meta.startSeq)
  {
    if segs != [] {
      var n := |segs| - 1;
      assert segs == segs[..n] + [segs[n]];
      if s.meta.startSeq < segs[n].meta.startSeq {
        InsertMember(segs[..n], s);
        var front := Insert(segs[..n], s);
        forall i | 0 <= i < |front|
          ensures front[i].meta.startSeq < segs[n].meta.startSeq
        {
          assert front[i] in front;
        }
      }
    }
  }

  lemma InsertLast(segs: seq<LogSegment>, s: LogSegment)
    requires forall i :: 0 <= i < |segs| ==> segs[i].meta.startSeq < s.meta.startSeq
    ensures Insert(segs, s) == segs + [s]
  {
  }

  function InsertAll(segs: seq<LogSegment>, loaded: seq<LogSegment>): seq<LogSegment>
  {
    if loaded == [] then segs
    else Insert(InsertAll(segs, loaded[..|loaded| - 1]), loaded[|loaded| - 1])
  }

  /** Loading the segments after those already known completes the list. */
  lemma {:induction false} InsertRest(all: seq<LogSegment>, n: nat, m: nat)
    requires ByStart(all) && n <= m <= |all|
    ensures InsertAll(all[..n], all[n..m]) == all[..m]
    decreases m
  {
    if n < m {
      hide Insert;
      assert all[n..m][..m - n - 1] == all[n..m - 1];
      InsertRest(all, n, m - 1);
      InsertLast(all[..m - 1], all[m - 1]);
      assert all[..m] == all[..m - 1] + [all[m - 1]];
    }
  }

  // ----- assignment -----

  datatype Assignment = Assignment(segment: LogSegment, isNew: bool)

  /** A new segment can still be numbered. */
  predicate CanNumber(segs: seq<LogSegment>)
  {
    segs == [] || segs[|segs| - 1].id < U32_MAX
  }

  function Assign(segs: seq<LogSegment>, sealInterval: Option<int>, now: i64, startSeq: u64): Assignment
    requires CanNumber(segs)
  {
    if ShouldRoll(sealInterval, now, Latest(segs)) then
      Assignment(LogSegment(if segs == [] then 0 else segs[|segs| - 1].id + 1, SegmentMeta(startSeq, now)), true)
    else Assignment(segs[|segs| - 1], false)
  }

  /** A write that starts past every segment goes to the last one, which stays the latest. */
  lemma AssignFits(segs: seq<LogSegment>, interval: Option<int>, now: i64, next: u64)
    requires SegmentsOk(segs) && |segs| < U32_MAX
    requires forall i :: 0 <= i < |segs| ==> segs[i].meta.startSeq < next
    ensures var a := Assign(segs, interval, now, next);
            var after := if a.isNew then Insert(segs, a.segment) else segs;
            && after == (if a.isNew then segs + [a.segment] else segs)
            && SegmentsOk(after) && a.segment.id == |after| - 1 && after[a.segment.id] == a.segment
            && (a.isNew ==> a.segment.meta.startSeq == next) && a.segment.meta.startSeq <= next
  {
    hide Insert;
    var a := Assign(segs, interval, now, next);
    if a.isNew {
      InsertLast(segs, a.segment);
    }
  }

  /** The first id that a refresh loads. */
  function FirstAfter(known: Option<u32>): u32
  {
    if known.None? then 0 else if known.value == U32_MAX then U32_MAX else known.value + 1
  }

  /** The segments that meet a range: the last that starts at or before it, and all that
      start inside it. */
  lemma BetweenMeets(segs: seq<LogSegment>, n: nat, k: nat, lo: nat, a: u64, b: u64)
    requires ByStart(segs) && a < b && n <= k <= |segs| && lo == (if n > 0 then n - 1 else 0)
    requires forall i :: n <= i < |segs| ==> segs[i].meta.startSeq > a
    requires n > 0 ==> segs[n - 1].meta.startSeq <= a
    requires forall i :: n <= i < k ==> segs[i].meta.startSeq < b
    requires k < |segs| ==> segs[k].meta.startSeq >= b
    ensures forall i :: 0 <= i < |segs| ==> (lo <= i < k <==> Meets(segs, i, a, b))
  {
  }

  class SegmentCache {
    var segments: seq<LogSegment>
    const sealInterval: Option<int>

    constructor (loaded: seq<LogSegment>, interval: Option<int>)
      ensures segments == InsertAll([], loaded) && sealInterval == interval
    {
      var cached: seq<LogSegment> := [];
      for i := 0 to |loaded|
        invariant cached == InsertAll([], loaded[..i])
      {
        assert loaded[..i + 1][..i] == loaded[..i];
        cached := Insert(cached, loaded[i]);
      }
      assert loaded[..|loaded|] == loaded;
      segments := cached;
      sealInterval := interval;
    }

    /** The cached segments whose interval meets the range, in order, and no others. */
    method FindCovering(start: u64, end: u64) returns (r: seq<LogSegment>, ghost lo: nat, ghost hi: nat)
      requires ByStart(segments)
      ensures r == Covering(segments, 0, start, end)
      ensures lo <= hi <= |segments| && r == segments[lo..hi]
      ensures forall i :: 0 <= i < |segments| ==> (lo <= i < hi <==> Meets(segments, i, start, end))
    {
      if start >= end {
        CoveringIsSlice(segments, 0, 0, 0, start, end);
        return [], 0, 0;
      }
      hide Covering, Meets;
      r := [];
      var n := |segments|;
      while n > 0 && segments[n - 1].meta.startSeq > start
        invariant 0 <= n <= |segments|
        invariant forall i :: n <= i < |segments| ==> segments[i].meta.startSeq > start
      {
        n := n - 1;
      }
      lo := n;
      if n > 0 {
        r := [segments[n - 1]];
        lo := n - 1;
        SliceOfOne(segments, n - 1);
      }
      var k := n;
      while k < |segments| && segments[k].meta.startSeq < end
        invariant n <= k <= |segments|
        invariant r == segments[lo..k]
        invariant forall i :: 0 <= i < k && n <= i ==> segments[i].meta.startSeq < end
      {
        SliceGrows(segments, lo, k);
        r := r + [segments[k]];
        k := k + 1;
      }
      hi := k;
      BetweenMeets(segments, n, k, lo, start, end);
      CoveringIsSlice(segments, 0, lo, hi, start, end);
    }

    /** Loads the segments after `after`, or all of them; an error, of the storage or in a
        record, changes nothing. */
    method Refresh(t: Table, readable: bool, after: Option<u32>) returns (r: Result<()>)
      modifies this
      ensures var loaded := SegmentsIn(t, FirstAfter(after), U32_MAX);
              && (r.Ok? <==> readable && loaded.Ok?)
              && (r.Err? ==> segments == old(segments))
              && (r.Ok? ==> segments == InsertAll(if after.None? then [] else old(segments), loaded.value))
    {
      hide SegmentsIn;
      if !readable {
        return Err(Error.Storage);
      }
      var loaded := ScanSegments(t, FirstAfter(after), U32_MAX);
      if loaded.Err? {
        return Err(loaded.error);
      }
      if after.None? {
        segments := [];
      }
      ghost var base := segments;
      var items := loaded.value;
      for i := 0 to |items|
        invariant segments == InsertAll(base, items[..i])
      {
        assert items[..i + 1][..i] == items[..i];
        segments := Insert(segments, items[i]);
      }
      assert items[..|items|] == items;
      r := Ok(());
    }

    /** The segment a write goes to, with the record of a new one. */
    method AssignSegment(now: i64, startSeq: u64, records: seq<Record>) returns (a: Assignment, out: seq<Record>)
      requires CanNumber(segments)
      modifies this
      ensures a == Assign(old(segments), sealInterval, now, startSeq)
      ensures a.isNew <==>
                || old(segments) == []
                || (sealInterval.Some? &&
                    now >= old(segments)[|old(segments)| - 1].meta.startTimeMs + sealInterval.value)
      ensures a.isNew ==>
                && a.segment.meta == SegmentMeta(startSeq, now)
                && a.segment.id == (if old(segments) == [] then 0 else old(segments)[|old(segments)| - 1].id + 1)
      ensures !a.isNew ==> a.segment == old(segments)[|old(segments)| - 1]
      ensures segments == if a.isNew then Insert(old(segments), a.segment) else old(segments)
      ensures out == records + if a.isNew then [SegmentRecord(a.segment)] else []
    {
      var latest := Latest(segments);
      if ShouldRoll(sealInterval, now, latest) {
        var id := if latest.Some? then latest.value.id + 1 else 0;
        var segment := LogSegment(id, SegmentMeta(startSeq, now));
        out := records + [SegmentRecord(segment)];
        segments := Insert(segments, segment);
        a := Assignment(segment, true);
      } else {
        a := Assignment(latest.value, false);
        out := records + [];
      }
    }
  }

  /** Refreshing a prefix of the stored segments from the table makes it complete. */
  lemma RefreshCompletes(t: Table, c: Content, n: nat)
    requires Represents(t, c) && ContentOk(c) && n <= |c.segments|
    ensures SegmentsIn(t, n, U32_MAX) == Ok(c.segments[n..])
    ensures InsertAll(c.segments[..n], c.segments[n..]) == c.segments
  {
    hide Represents, SegmentsIn, InsertAll, LogOk, ListingOk, Reserved;
    SegmentsExact(t, c, n, U32_MAX);
    InsertRest(c.segments, n, |c.segments|);
    assert c.segments[n..|c.segments|] == c.segments[n..] && c.segments[..|c.segments|] == c.segments;
  }
}
