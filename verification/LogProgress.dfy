/** What the log can always still do: reopen after a crash, and let its readers catch up
    (log/src/log.rs, log/src/view_tracker.rs). */
module LogProgress {
  import opened LogTables
  import opened LogWriters
  import opened LogViews
  import opened LogRuns
  import opened LogGuarantees

  lemma OneMore(c: Config, states: seq<State>, steps: seq<Step>, step: Step)
    requires Run(c, states, steps) && states[|steps|].snaps != [] && Do(c, states[|steps|], step).Some?
    ensures Run(c, states + [Do(c, states[|steps|], step).value], steps + [step])
  {
    hide Do;
    var s' := Do(c, states[|steps|], step).value;
    forall i | 0 <= i <= |steps|
      ensures StepAt(c, states + [s'], steps + [step], i)
    {
      if i < |steps| {
        assert StepAt(c, states, steps, i);
      }
    }
  }

  // ----- reopening -----

  /** After any crash the log can be opened, and its view then has everything that survived. */
  lemma CanReopen(c: Config, states: seq<State>, steps: seq<Step>) returns (s': State)
    requires Run(c, states, steps) && states[|steps|].db.None?
    ensures Run(c, states + [s'], steps + [Open]) && s'.db.Some? && s'.snaps == states[|steps|].snaps
    ensures states[|steps|].snaps != [] && s'.db.value.view.snapshot < |s'.snaps|
    ensures LogAt(s', s'.db.value.view.snapshot) == Survivors(states[|steps|])
    ensures s'.db.value.view.segments == Last(s'.snaps).content.segments && !s'.db.value.stopped
  {
    hide Represents, ContentOk, Agrees, Reload, StepAt, DbInv;
    var s := states[|steps|];
    InvAlong(c, states, steps, |steps|);
    assert SnapOk(Last(s.snaps));
    ReloadAgrees(Last(s.snaps).table, Last(s.snaps).content);
    s' := Do(c, s, Open).value;
    OneMore(c, states, steps, Open);
  }

  /** A crash can keep any of the puts from the durable ones on, and no fewer. */
  lemma CanCrash(c: Config, states: seq<State>, steps: seq<Step>, keep: nat) returns (s': State)
    requires Run(c, states, steps) && states[|steps|].durable <= keep < |states[|steps|].snaps|
    ensures Run(c, states + [s'], steps + [Crash(keep)]) && s'.db.None?
    ensures s'.snaps != [] && Survivors(s') == LogAt(states[|steps|], keep) && s'.durable == keep
  {
    hide StepAt;
    s' := Do(c, states[|steps|], Crash(keep)).value;
    OneMore(c, states, steps, Crash(keep));
  }

  /** Whatever a crash keeps, the log opens on exactly that. */
  lemma CrashAndReopen(c: Config, states: seq<State>, steps: seq<Step>, keep: nat)
    returns (crashed: State, again: State)
    requires Run(c, states, steps) && states[|steps|].durable <= keep < |states[|steps|].snaps|
    ensures Run(c, states + [crashed] + [again], steps + [Crash(keep)] + [Open])
    ensures again.snaps != [] && again.db.Some? && again.db.value.view.snapshot < |again.snaps|
    ensures Survivors(again) == LogAt(states[|steps|], keep)
    ensures LogAt(again, again.db.value.view.snapshot) == LogAt(states[|steps|], keep)
  {
    hide StepAt;
    crashed := CanCrash(c, states, steps, keep);
    again := CanReopen(c, states + [crashed], steps + [Crash(keep)]);
  }

  // ----- the newest write is on its way to the view -----

  /** The newest write that was broadcast is in the cell, or waits last, or is in the view. */
  ghost predicate Newest(d: Db)
  {
    if d.unseen then d.cell.epoch == d.writer.epoch
    else if d.pending != [] then d.pending[|d.pending| - 1].epoch == d.writer.epoch
    else d.view.snapshot == d.base + d.writer.epoch
  }

  lemma AdvanceNewest(mode: Mode, snaps: seq<Snap>, d: Db, through: nat, readable: bool)
    requires snaps != [] && QueueInv(snaps, d) && Newest(d)
    ensures Newest(TryAdvance(mode, snaps, d, through, readable))
  {
    hide Covered, Refreshed;
    var n := Covered(d.pending, through);
    if n > 0 {
      assert EntryOk(snaps, d.base, d.pending[n - 1]);
    }
  }

  lemma NewestStep(c: Config, s: State, step: Step, s': State, ok: bool)
    requires Inv(c, s, ok) && Next(c, s, step, s') && s'.db.Some? && (s.db.Some? ==> Newest(s.db.value))
    ensures Newest(s'.db.value)
  {
    hide SnapsOk, ViewInv, WatermarkInv, Agrees, TryAdvance, Prepare, PutAll, Reload, Room, QueueInv;
    if step.Receive? {
      var d := s.db.value;
      var d' := d.(pending := d.pending + [d.cell], unseen := false);
      CellWaits(c.mode, s.snaps, s.durable, d, ok);
      if c.mode.Memory? {
        AdvanceNewest(c.mode, s.snaps, d', d.cell.seqnum, step.readable);
      } else {
        SameQueue(s.snaps, d', d'.(seenWritten := d.cell.epoch));
        AdvanceNewest(c.mode, s.snaps, d'.(seenWritten := d.cell.epoch), d.lastDurable, step.readable);
      }
    } else if step.SeeDurable? {
      var d := s.db.value;
      SameQueue(s.snaps, d, d.(lastDurable := s.durable));
      AdvanceNewest(c.mode, s.snaps, d.(lastDurable := s.durable), s.durable, step.readable);
    } else if step.Open? {
      OpenedNewest(s);
    }
  }

  lemma OpenedNewest(s: State)
    requires s.snaps != [] && Opened(s).Some?
    ensures Newest(Opened(s).value)
  {
  }

  lemma {:induction false} NewestAlong(c: Config, states: seq<State>, steps: seq<Step>, n: nat)
    requires Run(c, states, steps) && n < |states| && states[n].db.Some?
    ensures Newest(states[n].db.value)
    decreases n
  {
    hide Next, Inv, Newest;
    if n > 0 {
      InvAlong(c, states, steps, n - 1);
      assert StepAt(c, states, steps, n - 1);
      if states[n - 1].db.Some? {
        NewestAlong(c, states, steps, n - 1);
      }
      NewestStep(c, states[n - 1], steps[n - 1], states[n], AllReadable(steps));
    }
  }

  // ----- catching up -----

  /** The view is at the newest broadcast write, and so is the watermark that reads wait on. */
  ghost predicate CaughtUp(mode: Mode, d: Db)
  {
    d.view.snapshot == d.base + d.writer.epoch && Watermark(mode, d) == d.writer.epoch
  }

  /** With everything before it covered, the last waiting entry becomes the view. */
  lemma AdvanceAll(mode: Mode, snaps: seq<Snap>, d: Db, through: nat, readable: bool)
    requires snaps != [] && QueueInv(snaps, d) && Newest(d) && !d.unseen
    requires d.pending != [] ==> d.pending[|d.pending| - 1].seqnum <= through
    ensures var d' := TryAdvance(mode, snaps, d, through, readable);
            && d'.pending == [] && !d'.unseen && d'.base == d.base && d'.writer == d.writer
            && d'.view.snapshot == d.base + d.writer.epoch && d'.durableEpoch == d.durableEpoch
            && d'.writtenEpoch == d.writtenEpoch
  {
    hide Refreshed;
    var n := Covered(d.pending, through);
    assert forall i :: 0 <= i < |d.pending| ==> EntryOk(snaps, d.base, d.pending[i]);
  }

  lemma ReceiveAll(c: Config, s: State, ok: bool)
    requires Inv(c, s, ok) && s.db.Some? && s.db.value.unseen && Newest(s.db.value) && c.mode.Memory?
    ensures var d' := Received(c.mode, s.snaps, s.db.value, true);
            && d'.view.snapshot == d'.base + d'.writer.epoch && !d'.unseen
            && d'.base == s.db.value.base && d'.writer == s.db.value.writer
  {
    hide SnapsOk, ViewInv, WatermarkInv, Agrees, TryAdvance;
    var d := s.db.value;
    CellWaits(c.mode, s.snaps, s.durable, d, ok);
    AdvanceAll(c.mode, s.snaps, d.(pending := d.pending + [d.cell], unseen := false), d.cell.seqnum, true);
  }

  lemma SeeAll(c: Config, s: State, ok: bool)
    requires Inv(c, s, ok) && s.db.Some? && !s.db.value.unseen && Newest(s.db.value) && c.mode.Remote?
    requires s.durable == |s.snaps| - 1
    ensures var d, d' := s.db.value,
                         TryAdvance(c.mode, s.snaps, s.db.value.(lastDurable := s.durable), s.durable, true);
            && d'.view.snapshot == d'.base + d'.writer.epoch && d'.base == d.base && d'.writer == d.writer
  {
    hide SnapsOk, ViewInv, WatermarkInv, Agrees, TryAdvance;
    var d := s.db.value;
    assert d.pending != [] ==> EntryOk(s.snaps, d.base, d.pending[|d.pending| - 1]);
    AdvanceAll(c.mode, s.snaps, d.(lastDurable := s.durable), s.durable, true);
  }

  /** The view's epoch is the watermark. */
  lemma WatermarkIs(c: Config, s: State, ok: bool)
    requires Inv(c, s, ok) && s.db.Some?
    ensures var d := s.db.value;
            && d.view.snapshot == d.base + Watermark(c.mode, d)
            && d.writtenEpoch == d.writer.epoch && d.durableEpoch <= d.writer.epoch
  {
    hide SnapsOk, QueueInv, ViewInv, Agrees;
  }

  ghost predicate Continues(c: Config, states: seq<State>, steps: seq<Step>, states': seq<State>, steps': seq<Step>)
  {
    Run(c, states', steps') && states <= states' && steps <= steps'
  }

  /** The subscriber takes what is in the cell. */
  lemma Receives(c: Config, states: seq<State>, steps: seq<Step>)
    returns (states': seq<State>, steps': seq<Step>)
    requires Run(c, states, steps) && states[|steps|].db.Some?
    ensures Continues(c, states, steps, states', steps') && |states'| == |steps'| + 1
    ensures SameInstance(states[|steps|], states'[|steps'|]) && states'[|steps'|].snaps == states[|steps|].snaps
    ensures !states'[|steps'|].db.value.unseen
    ensures states'[|steps'|].db.value.writer == states[|steps|].db.value.writer
    ensures states'[|steps'|].db.value.base == states[|steps|].db.value.base
    ensures c.mode.Memory? ==>
              var d' := states'[|steps'|].db.value; d'.view.snapshot == d'.base + d'.writer.epoch
  {
    hide StepAt, Inv, TryAdvance, Newest, QueueInv;
    var s := states[|steps|];
    InvAlong(c, states, steps, |steps|);
    NewestAlong(c, states, steps, |steps|);
    SnapsThere(c, s, AllReadable(steps));
    if s.db.value.unseen {
      ReceivedFrame(c.mode, s.snaps, s.db.value, true);
      if c.mode.Memory? {
        ReceiveAll(c, s, AllReadable(steps));
      }
      OneMore(c, states, steps, Receive(true));
      states', steps' := states + [Do(c, s, Receive(true)).value], steps + [Receive(true)];
    } else {
      states', steps' := states, steps;
      if c.mode.Memory? {
        MemoryIsDone(c, states, steps, |steps|);
      }
    }
  }

  lemma SnapsThere(c: Config, s: State, ok: bool)
    requires Inv(c, s, ok)
    ensures s.snaps != [] && s.durable < |s.snaps|
  {
  }

  lemma ReceivedFrame(mode: Mode, snaps: seq<Snap>, d: Db, readable: bool)
    ensures var d' := Received(mode, snaps, d, readable);
            d'.base == d.base && d'.writer == d.writer && !d'.unseen
  {
    hide Covered, Refreshed;
  }

  /** In memory mode nothing waits between two values of the cell. */
  lemma {:induction false} MemoryIsDone(c: Config, states: seq<State>, steps: seq<Step>, n: nat)
    requires Run(c, states, steps) && n < |states| && states[n].db.Some? && c.mode.Memory?
    ensures states[n].db.value.pending == []
    ensures !states[n].db.value.unseen ==>
              states[n].db.value.view.snapshot == states[n].db.value.base + states[n].db.value.writer.epoch
    decreases n
  {
    hide Inv, TryAdvance, Prepare, PutAll, Reload, Room, Newest, QueueInv;
    NewestAlong(c, states, steps, n);
    if n > 0 {
      assert StepAt(c, states, steps, n - 1);
      if states[n - 1].db.Some? {
        MemoryIsDone(c, states, steps, n - 1);
        InvAlong(c, states, steps, n - 1);
        NewestAlong(c, states, steps, n - 1);
        if steps[n - 1].Receive? {
          NothingWaits(c, states[n - 1], steps[n - 1].readable, AllReadable(steps));
        }
      }
    }
    NothingPendingIsSeen(states[n].db.value);
  }

  lemma NothingPendingIsSeen(d: Db)
    ensures Newest(d) && d.pending == [] && !d.unseen ==> d.view.snapshot == d.base + d.writer.epoch
  {
  }

  lemma NothingWaits(c: Config, s: State, readable: bool, ok: bool)
    requires Inv(c, s, ok) && s.db.Some? && s.db.value.unseen && Newest(s.db.value) && c.mode.Memory?
    ensures Received(c.mode, s.snaps, s.db.value, readable).pending == []
  {
    hide SnapsOk, ViewInv, WatermarkInv, Agrees, TryAdvance;
    var d := s.db.value;
    CellWaits(c.mode, s.snaps, s.durable, d, ok);
    AdvanceAll(c.mode, s.snaps, d.(pending := d.pending + [d.cell], unseen := false), d.cell.seqnum, readable);
  }

  /** However a run has gone, without another write its view can catch up: in memory mode once
      the subscriber takes the cell's value, in remote mode once the writes are durable. Every
      read that waits is then answered. */
  lemma ViewCatchesUp(c: Config, states: seq<State>, steps: seq<Step>)
    returns (states': seq<State>, steps': seq<Step>)
    requires Run(c, states, steps) && states[|steps|].db.Some?
    ensures Continues(c, states, steps, states', steps') && |states'| == |steps'| + 1
    ensures var s, s' := states[|steps|], states'[|steps'|];
            && SameInstance(s, s') && s'.snaps == s.snaps
            && CaughtUp(c.mode, s'.db.value) && s'.db.value.writer == s.db.value.writer
            && Target(c.mode, s'.db.value) <= Watermark(c.mode, s'.db.value)
  {
    hide StepAt, Inv, TryAdvance, Newest, QueueInv;
    states', steps' := Receives(c, states, steps);
    if c.mode.Remote? {
      var s1 := states'[|steps'|];
      InvAlong(c, states', steps', |steps'|);
      SnapsThere(c, s1, AllReadable(steps'));
      OneMore(c, states', steps', BecomeDurable(|s1.snaps| - 1));
      var s2 := Do(c, s1, BecomeDurable(|s1.snaps| - 1)).value;
      states', steps' := states' + [s2], steps' + [BecomeDurable(|s1.snaps| - 1)];
      InvAlong(c, states', steps', |steps'|);
      NewestAlong(c, states', steps', |steps'|);
      SeeAll(c, s2, AllReadable(steps'));
      OneMore(c, states', steps', SeeDurable(true));
      states', steps' := states' + [Do(c, s2, SeeDurable(true)).value], steps' + [SeeDurable(true)];
    }
    InvAlong(c, states', steps', |steps'|);
    WatermarkIs(c, states'[|steps'|], AllReadable(steps'));
  }
}
