/** The log as a system: one writer, a subscriber behind a watch cell, readers, background
    durability, crashes and restarts (log/src/log.rs, log/src/writer.rs). */
module LogRuns {
  import opened ByteStrings
  import opened LogKeys
  import opened LogTables
  import opened LogStorage
  import opened Sequences
  import opened Segments
  import opened Listings
  import opened LogWriters
  import opened LogViews

  datatype Mode = Memory | Remote

  datatype Config = Config(mode: Mode, sealInterval: Option<int>)

  /** The storage after a put, and what it stands for. */
  datatype Snap = Snap(table: Table, content: Content)

  /** A running instance: the writer with its watermarks, the watch cell, and the subscriber
      with its pending entries, view and watermarks. `base` is the snapshot it opened on. */
  datatype Db = Db(
    writer: WriterState,
    stopped: bool,
    base: nat,
    writtenEpoch: nat,
    durableEpoch: nat,
    cell: ViewEntry,
    unseen: bool,
    pending: seq<ViewEntry>,
    view: View,
    known: Option<u32>,
    lastDurable: nat,
    seenWritten: nat,
    seenDurable: nat)

  /** `snaps` are the surviving puts in order, the last one is current; those up to `durable`
      survive a crash. */
  datatype State = State(snaps: seq<Snap>, durable: nat, db: Option<Db>, opens: nat)

  const EMPTY_SNAP: Snap := Snap(map[], NOTHING)

  const START: State := State([EMPTY_SNAP], 0, None, 0)

  function Last(snaps: seq<Snap>): Snap
    requires snaps != []
  {
    snaps[|snaps| - 1]
  }

  // ----- restart -----

  /** The writer state that a restart loads. */
  ghost function Reload(t: Table): Option<WriterState>
  {
    var a := Load(t);
    var segs := SegmentsIn(t, 0, U32_MAX);
    if a.Err? || segs.Err? then None
    else
      var cached := InsertAll([], segs.value);
      Some(WriterState(a.value, cached, ListingState(None, {}), 0, LatestId(cached)))
  }

  /** A restart finds the caches in agreement with what survived. */
  lemma ReloadAgrees(t: Table, c: Content)
    requires Represents(t, c) && ContentOk(c)
    ensures Reload(t).Some?
    ensures var w := Reload(t).value;
            Agrees(w, c) && w.epoch == 0 && w.segments == c.segments && w.lastSegment == LatestId(c.segments)
  {
    hide Represents, SegmentsIn, InsertAll, Load, LogOk, SegmentsOk, Reserved, ListingOk;
    LoadReserves(t, c);
    RefreshCompletes(t, c, 0);
    assert c.segments[..0] == [] && c.segments[0..] == c.segments;
  }

  // ----- steps -----

  ghost function Opened(s: State): Option<Db>
    requires s.snaps != []
  {
    var w := Reload(Last(s.snaps).table);
    if w.None? then None
    else
      var base := |s.snaps| - 1;
      Some(Db(w.value, false, base, 0, 0, ViewEntry(0, 0, base, w.value.lastSegment), false, [],
              View(base, w.value.segments), w.value.lastSegment, s.durable, 0, 0))
  }

  function AppendedSnap(c: Config, s: State, w: WriterState, write: Write): Snap
    requires s.snaps != [] && Room(w, write)
  {
    var p := Prepare(c.sealInterval, w, write);
    Snap(PutAll(Last(s.snaps).table, p.records), After(Last(s.snaps).content, p))
  }

  /** A put that goes through: the next epoch is broadcast, over whatever the cell held. */
  function Appended(c: Config, s: State, d: Db, write: Write): Db
    requires Room(d.writer, write)
  {
    var w := Broadcast(Prepare(c.sealInterval, d.writer, write));
    d.(writer := w, writtenEpoch := w.epoch, unseen := true,
       cell := ViewEntry(|s.snaps|, w.epoch, |s.snaps|, w.lastSegment))
  }

  /** The subscriber moves its view to the newest pending entry the watermark covers. When
      the segments cannot be read the view keeps the ones it has, and will ask again. */
  ghost function TryAdvance(mode: Mode, snaps: seq<Snap>, d: Db, through: nat, readable: bool): Db
  {
    var n := Covered(d.pending, through);
    if n == 0 || d.pending[n - 1].snapshot >= |snaps| then d
    else
      var e := d.pending[n - 1];
      var t := snaps[e.snapshot].table;
      var current := e.lastSegment == d.known || (readable && SegmentsIn(t, FirstAfter(d.known), U32_MAX).Ok?);
      var segs := if current then Refreshed(t, d.view.segments, d.known, e.lastSegment) else d.view.segments;
      var d' := d.(pending := d.pending[n..], view := View(e.snapshot, segs),
                   known := if current then e.lastSegment else d.known);
      if mode.Memory? then d'.(seenWritten := e.epoch) else d'.(seenDurable := e.epoch)
  }

  ghost function Received(mode: Mode, snaps: seq<Snap>, d: Db, readable: bool): Db
  {
    var d' := d.(pending := d.pending + [d.cell], unseen := false);
    if mode.Memory? then TryAdvance(mode, snaps, d', d.cell.seqnum, readable)
    else TryAdvance(mode, snaps, d'.(seenWritten := d.cell.epoch), d.lastDurable, readable)
  }

  datatype Step =
    | Open
    | Append(write: Write)
    | AppendFails(write: Write, applied: bool)
    | Flush
    | BecomeDurable(to: nat)
    | Receive(readable: bool)
    | SeeDurable(readable: bool)
    | Crash(keep: nat)

  /** The instance may append: it has not stopped, and there is room. */
  predicate CanAppend(s: State, write: Write)
  {
    s.db.Some? && !s.db.value.stopped && write.records != [] && Room(s.db.value.writer, write)
  }

  /** The outcome of a step that can be taken. After a failed put the writer stops. */
  ghost function Do(c: Config, s: State, step: Step): Option<State>
    requires s.snaps != []
  {
    match step
    case Open =>
      if s.db.None? && Opened(s).Some? then Some(s.(db := Opened(s), opens := s.opens + 1)) else None
    case Append(write) =>
      if CanAppend(s, write)
      then Some(s.(db := Some(Appended(c, s, s.db.value, write)),
                   snaps := s.snaps + [AppendedSnap(c, s, s.db.value.writer, write)]))
      else None
    case AppendFails(write, applied) =>
      if CanAppend(s, write)
      then Some(s.(db := Some(s.db.value.(stopped := true)),
                   snaps := if applied then s.snaps + [AppendedSnap(c, s, s.db.value.writer, write)] else s.snaps))
      else None
    case Flush =>
      if s.db.Some? && !s.db.value.stopped
      then Some(s.(durable := |s.snaps| - 1, db := Some(s.db.value.(durableEpoch := s.db.value.writer.epoch))))
      else None
    case BecomeDurable(to) =>
      if s.durable <= to < |s.snaps| then Some(s.(durable := to)) else None
    case Receive(readable) =>
      if s.db.Some? && s.db.value.unseen
      then Some(s.(db := Some(Received(c.mode, s.snaps, s.db.value, readable)))) else None
    case SeeDurable(readable) =>
      if s.db.Some? && c.mode.Remote?
      then Some(s.(db := Some(TryAdvance(c.mode, s.snaps, s.db.value.(lastDurable := s.durable), s.durable, readable))))
      else None
    case Crash(keep) =>
      if s.durable <= keep < |s.snaps|
      then Some(s.(snaps := s.snaps[..keep + 1], durable := keep, db := None)) else None
  }

  ghost predicate Next(c: Config, s: State, step: Step, s': State)
  {
    s.snaps != [] && Do(c, s, step) == Some(s')
  }

  ghost predicate Run(c: Config, states: seq<State>, steps: seq<Step>)
  {
    && |states| == |steps| + 1
    && states[0] == START
    && forall i {:trigger StepAt(c, states, steps, i)} :: 0 <= i < |steps| ==> StepAt(c, states, steps, i)
  }

  ghost predicate StepAt(c: Config, states: seq<State>, steps: seq<Step>, i: nat)
    requires i < |steps| && |states| == |steps| + 1
  {
    Next(c, states[i], steps[i], states[i + 1])
  }

  // ----- the snapshots -----

  ghost predicate SnapOk(p: Snap)
  {
    Represents(p.table, p.content) && ContentOk(p.content)
  }

  ghost predicate Grew(c: Content, c': Content)
  {
    c.log <= c'.log && c.segments <= c'.segments
  }

  /** Every surviving put is consistent, and each extends the ones before it. */
  ghost predicate SnapsOk(snaps: seq<Snap>)
  {
    && snaps != []
    && (forall i :: 0 <= i < |snaps| ==> SnapOk(snaps[i]))
    && forall i, j :: 0 <= i <= j < |snaps| ==> Grew(snaps[i].content, snaps[j].content)
  }

  lemma OneMoreSnap(c: Config, s: State, w: WriterState, write: Write)
    requires SnapsOk(s.snaps) && Room(w, write) && write.records != [] && Agrees(w, Last(s.snaps).content)
    ensures SnapsOk(s.snaps + [AppendedSnap(c, s, w, write)])
    ensures var p := Prepare(c.sealInterval, w, write);
            Agrees(p.writer, AppendedSnap(c, s, w, write).content)
  {
    hide Represents, ContentOk, Agrees, Prepare, Room;
    var last := Last(s.snaps);
    AppendKeeps(c.sealInterval, w, write, last.table, last.content);
    var snap := AppendedSnap(c, s, w, write);
    assert Grew(last.content, snap.content);
    forall i | 0 <= i < |s.snaps|
      ensures Grew(s.snaps[i].content, snap.content)
    {
      assert Grew(s.snaps[i].content, last.content);
    }
  }

  // ----- the running instance -----

  /** An entry names the snapshot that its epoch wrote, and that snapshot's newest segment. */
  ghost predicate EntryOk(snaps: seq<Snap>, base: nat, e: ViewEntry)
  {
    && e.seqnum == e.snapshot == base + e.epoch && e.snapshot < |snaps|
    && e.lastSegment == LatestId(snaps[e.snapshot].content.segments)
  }

  /** The writer that has not stopped has written every snapshot since it opened. */
  ghost predicate WriterInv(snaps: seq<Snap>, d: Db)
    requires snaps != []
  {
    && d.base < |snaps| && d.writtenEpoch == d.writer.epoch && d.durableEpoch <= d.writer.epoch
    && d.base + d.writer.epoch < |snaps|
    && (!d.stopped ==>
          && d.base + d.writer.epoch == |snaps| - 1
          && Agrees(d.writer, Last(snaps).content)
          && d.writer.lastSegment == LatestId(Last(snaps).content.segments))
  }

  /** Entries wait in the order of their writes, all newer than the view. */
  ghost predicate QueueInv(snaps: seq<Snap>, d: Db)
  {
    && (forall i :: 0 <= i < |d.pending| ==>
          EntryOk(snaps, d.base, d.pending[i]) && d.view.snapshot < d.pending[i].snapshot)
    && (forall i, j :: 0 <= i < j < |d.pending| ==> d.pending[i].snapshot < d.pending[j].snapshot)
    && (forall i :: 0 <= i < |d.pending| ==> d.pending[i].epoch <= d.writer.epoch)
    && (d.unseen ==>
          && EntryOk(snaps, d.base, d.cell) && d.view.snapshot < d.cell.snapshot && d.cell.epoch <= d.writer.epoch
          && forall i :: 0 <= i < |d.pending| ==> d.pending[i].snapshot < d.cell.snapshot)
  }

  /** The view knows the first segments of its snapshot; all of them, if they could always be
      read (`ok`). */
  ghost predicate ViewInv(snaps: seq<Snap>, d: Db, ok: bool)
  {
    && d.base <= d.view.snapshot < |snaps| && d.view.snapshot <= d.base + d.writer.epoch
    && d.view.segments <= snaps[d.view.snapshot].content.segments
    && (ok ==> d.view.segments == snaps[d.view.snapshot].content.segments)
    && d.known == LatestId(d.view.segments)
  }

  /** The watermark that readers wait for is the view's epoch; in remote mode the view is
      durable. */
  ghost predicate WatermarkInv(mode: Mode, durable: nat, d: Db)
  {
    && d.lastDurable <= durable
    && d.view.snapshot == d.base + (if mode.Memory? then d.seenWritten else d.seenDurable)
    && (mode.Remote? ==> d.view.snapshot <= durable)
  }

  ghost predicate DbInv(mode: Mode, snaps: seq<Snap>, durable: nat, d: Db, ok: bool)
    requires snaps != []
  {
    WriterInv(snaps, d) && QueueInv(snaps, d) && ViewInv(snaps, d, ok) && WatermarkInv(mode, durable, d)
  }

  ghost predicate Inv(c: Config, s: State, ok: bool)
  {
    && SnapsOk(s.snaps) && s.durable < |s.snaps|
    && (s.db.None? ==> s.durable == |s.snaps| - 1)
    && (s.db.Some? ==> DbInv(c.mode, s.snaps, s.durable, s.db.value, ok))
  }

  // ----- every step keeps the invariant -----

  lemma OpenKeeps(c: Config, s: State, s': State, ok: bool)
    requires Inv(c, s, ok) && Next(c, s, Open, s')
    ensures Inv(c, s', ok)
  {
    hide Represents, ContentOk, Agrees, Reload;
    var last := Last(s.snaps);
    assert SnapOk(last);
    ReloadAgrees(last.table, last.content);
  }

  /** More puts leave the instance's view and queue as they are. */
  lemma LongerSnaps(snaps: seq<Snap>, more: Snap, d: Db, ok: bool)
    requires QueueInv(snaps, d) && ViewInv(snaps, d, ok)
    ensures QueueInv(snaps + [more], d) && ViewInv(snaps + [more], d, ok)
  {
  }

  lemma AppendStep(c: Config, s: State, write: Write, s': State, ok: bool)
    requires Inv(c, s, ok) && Next(c, s, Append(write), s')
    ensures Inv(c, s', ok)
  {
    hide Represents, ContentOk, Agrees, Prepare, Room, SnapOk, Grew, AppendedSnap;
    var d := s.db.value;
    OneMoreSnap(c, s, d.writer, write);
    BroadcastStep(c, s, write, ok);
    var snap := AppendedSnap(c, s, d.writer, write);
    LongerSnaps(s.snaps, snap, d, ok);
  }

  lemma BroadcastStep(c: Config, s: State, write: Write, ok: bool)
    requires Inv(c, s, ok) && CanAppend(s, write)
    ensures var p := Prepare(c.sealInterval, s.db.value.writer, write);
            var snap := AppendedSnap(c, s, s.db.value.writer, write);
            && Broadcast(p).lastSegment == LatestId(snap.content.segments)
            && Broadcast(p).epoch == s.db.value.writer.epoch + 1
            && (Agrees(p.writer, snap.content) ==> Agrees(Broadcast(p), snap.content))
  {
    hide Represents, QueueInv, ViewInv, WatermarkInv, ContentOk, Agrees, Prepare, Grew;
    assert SnapOk(Last(s.snaps));
    BroadcastKeeps(c.sealInterval, s.db.value.writer, write, Last(s.snaps).content);
  }

  lemma AppendFailsStep(c: Config, s: State, write: Write, applied: bool, s': State, ok: bool)
    requires Inv(c, s, ok) && Next(c, s, AppendFails(write, applied), s')
    ensures Inv(c, s', ok)
  {
    hide Represents, ContentOk, Agrees, Prepare, Room, SnapOk, Grew, AppendedSnap;
    var d := s.db.value;
    OneMoreSnap(c, s, d.writer, write);
    LongerSnaps(s.snaps, AppendedSnap(c, s, d.writer, write), d, ok);
  }

  /** Moving the view forward: it takes the segments of its new snapshot with it. */
  lemma MovedView(snaps: seq<Snap>, d: Db, e: ViewEntry, ok: bool)
    requires SnapsOk(snaps) && ViewInv(snaps, d, ok) && EntryOk(snaps, d.base, e) && d.view.snapshot <= e.snapshot
    ensures d.view.segments <= snaps[e.snapshot].content.segments
    ensures SegmentsIn(snaps[e.snapshot].table, FirstAfter(d.known), U32_MAX).Ok?
    ensures Refreshed(snaps[e.snapshot].table, d.view.segments, d.known, e.lastSegment)
         == snaps[e.snapshot].content.segments
  {
    hide Represents, Refreshed, SegmentsIn, LogOk, Reserved, ListingOk;
    var known, after := d.view.segments, snaps[e.snapshot].content.segments;
    assert Grew(snaps[d.view.snapshot].content, snaps[e.snapshot].content) && SnapOk(snaps[e.snapshot]);
    SegmentsExact(snaps[e.snapshot].table, snaps[e.snapshot].content, FirstAfter(d.known), U32_MAX);
    RefreshExact(snaps[e.snapshot].table, snaps[e.snapshot].content, |known|);
    assert after[..|known|] == known;
  }

  /** The entries after the one the view moves to still wait, in their order. */
  lemma MovedQueue(snaps: seq<Snap>, d: Db, n: nat, segs: seq<LogSegment>)
    requires QueueInv(snaps, d) && 0 < n <= |d.pending|
    ensures QueueInv(snaps, d.(pending := d.pending[n..], view := View(d.pending[n - 1].snapshot, segs)))
  {
    hide EntryOk;
  }

  lemma AdvanceKeeps(mode: Mode, snaps: seq<Snap>, durable: nat, d: Db, through: nat, readable: bool, ok: bool)
    requires SnapsOk(snaps) && DbInv(mode, snaps, durable, d, ok) && (mode.Remote? ==> through <= durable)
    requires ok ==> readable
    ensures DbInv(mode, snaps, durable, TryAdvance(mode, snaps, d, through, readable), ok)
    ensures d.view.snapshot <= TryAdvance(mode, snaps, d, through, readable).view.snapshot
  {
    hide Represents, ContentOk, Agrees, SnapsOk, Refreshed, Covered, SegmentsIn;
    var n := Covered(d.pending, through);
    if n > 0 {
      var e := d.pending[n - 1];
      assert EntryOk(snaps, d.base, e) && d.view.snapshot < e.snapshot && e.epoch <= d.writer.epoch;
      MovedView(snaps, d, e, ok);
      var d' := TryAdvance(mode, snaps, d, through, readable);
      MovedQueue(snaps, d, n, d'.view.segments);
      hide QueueInv;
      assert ViewInv(snaps, d', ok) && WatermarkInv(mode, durable, d') && WriterInv(snaps, d');
      SameQueue(snaps, d.(pending := d.pending[n..], view := d'.view), d');
    }
  }

  lemma SameQueue(snaps: seq<Snap>, d: Db, d': Db)
    requires QueueInv(snaps, d)
    requires d'.pending == d.pending && d'.view == d.view && d'.base == d.base && d'.writer == d.writer
    requires d'.unseen == d.unseen && d'.cell == d.cell
    ensures QueueInv(snaps, d')
  {
    hide EntryOk;
  }

  /** A new value of the cell joins the entries that wait. */
  lemma CellWaits(mode: Mode, snaps: seq<Snap>, durable: nat, d: Db, ok: bool)
    requires SnapsOk(snaps) && DbInv(mode, snaps, durable, d, ok) && d.unseen
    ensures DbInv(mode, snaps, durable, d.(pending := d.pending + [d.cell], unseen := false), ok)
  {
    hide SnapsOk, Agrees, EntryOk;
  }

  lemma ReceiveStep(c: Config, s: State, readable: bool, s': State, ok: bool)
    requires Inv(c, s, ok) && Next(c, s, Receive(readable), s') && (ok ==> readable)
    ensures Inv(c, s', ok)
  {
    hide SnapsOk, TryAdvance, Agrees, QueueInv;
    var d := s.db.value;
    var d' := d.(pending := d.pending + [d.cell], unseen := false);
    CellWaits(c.mode, s.snaps, s.durable, d, ok);
    SameQueue(s.snaps, d', d'.(seenWritten := d.cell.epoch));
    if c.mode.Memory? {
      AdvanceKeeps(c.mode, s.snaps, s.durable, d', d.cell.seqnum, readable, ok);
    } else {
      AdvanceKeeps(c.mode, s.snaps, s.durable, d'.(seenWritten := d.cell.epoch), d.lastDurable, readable, ok);
    }
  }

  lemma SeeDurableStep(c: Config, s: State, readable: bool, s': State, ok: bool)
    requires Inv(c, s, ok) && Next(c, s, SeeDurable(readable), s') && (ok ==> readable)
    ensures Inv(c, s', ok)
  {
    hide SnapsOk, TryAdvance, Agrees, QueueInv;
    SameQueue(s.snaps, s.db.value, s.db.value.(lastDurable := s.durable));
    AdvanceKeeps(c.mode, s.snaps, s.durable, s.db.value.(lastDurable := s.durable), s.durable, readable, ok);
  }

  lemma CrashStep(c: Config, s: State, keep: nat, s': State, ok: bool)
    requires Inv(c, s, ok) && Next(c, s, Crash(keep), s')
    ensures Inv(c, s', ok)
  {
    hide SnapOk, Grew;
  }

  /** The step did not fail to read the segments. */
  predicate Readable(step: Step)
  {
    step.Receive? || step.SeeDurable? ==> step.readable
  }

  ghost predicate AllReadable(steps: seq<Step>)
  {
    forall i :: 0 <= i < |steps| ==> Readable(steps[i])
  }

  lemma StepKeeps(c: Config, s: State, step: Step, s': State, ok: bool)
    requires Inv(c, s, ok) && Next(c, s, step, s') && (ok ==> Readable(step))
    ensures Inv(c, s', ok)
  {
    match step
    case Open => OpenKeeps(c, s, s', ok);
    case Append(write) => AppendStep(c, s, write, s', ok);
    case AppendFails(write, applied) => AppendFailsStep(c, s, write, applied, s', ok);
    case Flush =>
    case BecomeDurable(_) =>
    case Receive(readable) => ReceiveStep(c, s, readable, s', ok);
    case SeeDurable(readable) => SeeDurableStep(c, s, readable, s', ok);
    case Crash(keep) => CrashStep(c, s, keep, s', ok);
  }

  lemma {:induction false} InvAlong(c: Config, states: seq<State>, steps: seq<Step>, n: nat)
    requires Run(c, states, steps) && n < |states|
    ensures Inv(c, states[n], AllReadable(steps))
    decreases n
  {
    hide Inv, Next;
    if n == 0 {
      StartInv(c, AllReadable(steps));
    } else {
      InvAlong(c, states, steps, n - 1);
      assert StepAt(c, states, steps, n - 1);
      StepKeeps(c, states[n - 1], steps[n - 1], states[n], AllReadable(steps));
    }
  }

  lemma StartInv(c: Config, ok: bool)
    ensures Inv(c, START, ok)
  {
  }
}
