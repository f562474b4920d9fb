/** When the log starts a new segment: the seal interval, over every run
    (log/src/segment.rs, log/src/writer.rs). */
module LogSealing {
  import opened ByteStrings
  import opened LogKeys
  import opened LogTables
  import opened Segments
  import opened LogWriters
  import opened LogRuns

  /** A write at `now` finds no segment, or one that has been open for the interval. */
  predicate Due(interval: Option<int>, segs: seq<LogSegment>, now: int)
  {
    || segs == []
    || (interval.Some? && now >= segs[|segs| - 1].meta.startTimeMs + interval.value)
  }

  /** Each segment started at least the interval after the one before; without an interval
      there is one segment at most. */
  ghost predicate Spaced(interval: Option<int>, segs: seq<LogSegment>)
  {
    && (interval.None? ==> |segs| <= 1)
    && (interval.Some? ==>
          forall i :: 0 < i < |segs| ==>
            segs[i].meta.startTimeMs >= segs[i - 1].meta.startTimeMs + interval.value)
  }

  /** The segment of an append, seen from the segments before it and the write's own time. */
  lemma PreparedSeals(interval: Option<int>, w: WriterState, write: Write, c: Content)
    requires Room(w, write) && w.segments == c.segments
    ensures var p := Prepare(interval, w, write);
            var after := After(c, p).segments;
            && (after == c.segments || |after| == |c.segments| + 1)
            && c.segments <= after && after != []
            && (|after| > |c.segments| <==> Due(interval, c.segments, write.timestampMs))
            && (Due(interval, c.segments, write.timestampMs) ==>
                  after[|after| - 1].meta.startTimeMs == write.timestampMs)
            && p.assignment.segment == after[|after| - 1]
            && (Spaced(interval, c.segments) ==> Spaced(interval, after))
  {
    hide Prepare, Insert;
    PreparedParts(interval, w, write);
  }

  ghost predicate AllSpaced(interval: Option<int>, snaps: seq<Snap>)
  {
    forall i :: 0 <= i < |snaps| ==> Spaced(interval, snaps[i].content.segments)
  }

  lemma PutSpaced(c: Config, s: State, write: Write)
    requires s.snaps != [] && s.db.Some? && Room(s.db.value.writer, write)
    requires s.db.value.writer.segments == Last(s.snaps).content.segments && AllSpaced(c.sealInterval, s.snaps)
    ensures AllSpaced(c.sealInterval, s.snaps + [AppendedSnap(c, s, s.db.value.writer, write)])
  {
    hide Spaced, Prepare, PutAll, Room;
    PreparedSeals(c.sealInterval, s.db.value.writer, write, Last(s.snaps).content);
  }

  /** The writer that may append knows the newest segments. */
  lemma WriterKnows(c: Config, s: State, write: Write, ok: bool)
    requires Inv(c, s, ok) && CanAppend(s, write)
    ensures s.db.value.writer.segments == Last(s.snaps).content.segments
  {
    hide SnapsOk, QueueInv, ViewInv, WatermarkInv, Room;
  }

  /** In every run segments start at least the interval apart, and only the first one does
      without an interval. */
  lemma {:induction false} SegmentsSpaced(c: Config, states: seq<State>, steps: seq<Step>, n: nat)
    requires Run(c, states, steps) && n < |states|
    ensures AllSpaced(c.sealInterval, states[n].snaps)
    decreases n
  {
    hide Inv, Opened, Received, TryAdvance, AppendedSnap, Room, Spaced;
    if n == 0 {
      NoneSpaced(c.sealInterval);
    } else {
      SegmentsSpaced(c, states, steps, n - 1);
      InvAlong(c, states, steps, n - 1);
      assert StepAt(c, states, steps, n - 1);
      var s, step := states[n - 1], steps[n - 1];
      if step.Append? || step.AppendFails? {
        WriterKnows(c, s, step.write, AllReadable(steps));
        PutSpaced(c, s, step.write);
      }
    }
  }

  lemma NoneSpaced(interval: Option<int>)
    ensures Spaced(interval, [])
  {
  }

  /** In every run an append starts a new segment exactly when there is none or the newest has
      been open for the interval, and then with the write's own time; its records are in the
      newest segment, which by then has been open for less than the interval. */
  lemma SealedInTime(c: Config, states: seq<State>, steps: seq<Step>, i: nat)
    requires Run(c, states, steps) && i < |steps| && steps[i].Append?
    ensures states[i].snaps != [] && states[i + 1].snaps != []
    ensures var before, after := Last(states[i].snaps).content, Last(states[i + 1].snaps).content;
            var now := steps[i].write.timestampMs;
            && before.segments <= after.segments && after.segments != []
            && (|after.segments| == |before.segments| + 1 <==> Due(c.sealInterval, before.segments, now))
            && (after.segments == before.segments <==> !Due(c.sealInterval, before.segments, now))
            && var newest := after.segments[|after.segments| - 1];
            && (Due(c.sealInterval, before.segments, now) ==> newest.meta.startTimeMs == now)
            && (c.sealInterval.Some? && c.sealInterval.value >= 1 ==>
                  now < newest.meta.startTimeMs + c.sealInterval.value)
            && |before.log| < |after.log|
            && forall k :: |before.log| <= k < |after.log| ==> after.log[k].segment == newest
  {
    hide Represents, ContentOk, Agrees, Prepare, PutAll, Room, Spaced;
    InvAlong(c, states, steps, i);
    assert StepAt(c, states, steps, i);
    var s, write := states[i], steps[i].write;
    WriterKnows(c, s, write, AllReadable(steps));
    PreparedSeals(c.sealInterval, s.db.value.writer, write, Last(s.snaps).content);
    PreparedParts(c.sealInterval, s.db.value.writer, write);
  }
}
