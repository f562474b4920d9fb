/** What the log promises, over every run with crashes and restarts at any point. */
module LogGuarantees {
  import opened ByteStrings
  import opened LogKeys
  import opened LogTables
  import opened LogStorage
  import opened Sequences
  import opened Segments
  import opened LogWriters
  import opened LogReaders
  import opened LogRuns

  function LogAt(s: State, i: nat): seq<LogRec>
    requires i < |s.snaps|
  {
    s.snaps[i].content.log
  }

  /** Everything that survives in the state, in append order. */
  function Survivors(s: State): seq<LogRec>
    requires s.snaps != []
  {
    Last(s.snaps).content.log
  }

  // ----- what a snapshot is -----

  /** Reading a key's range from any surviving put gives exactly the key's records among
      those appended by then, in append order, across any number of segments; and these are
      the first of the surviving records. */
  lemma LogRefinement(c: Config, states: seq<State>, steps: seq<Step>, n: nat, i: nat, key: Bytes, a: u64, b: u64)
    requires Run(c, states, steps) && n < |states| && i < |states[n].snaps|
    ensures var snap := states[n].snaps[i];
            && ReadFrom(snap.table, snap.content.segments, 0, key, a, b)
               == EntryRecords(Filter(snap.content.log, OfKey(key, a, b)))
            && snap.content.log <= Survivors(states[n])
  {
    hide Represents, ContentOk, Filter, ReadFrom, DbInv;
    InvAlong(c, states, steps, n);
    var snap := states[n].snaps[i];
    assert SnapOk(snap) && Grew(snap.content, Last(states[n].snaps).content);
    ReadIsFilter(snap.table, snap.content, key, a, b);
  }

  /** Segment ids count up with the first sequence, every record lies between its segment's
      start and the next one's, and no two records share a sequence. */
  lemma SegmentPartition(c: Config, states: seq<State>, steps: seq<Step>, n: nat)
    requires Run(c, states, steps) && n < |states|
    ensures states[n].snaps != []
    ensures var content := Last(states[n].snaps).content;
            && (forall i :: 0 <= i < |content.segments| ==> content.segments[i].id == i)
            && (forall i, j :: 0 <= i < j < |content.segments| ==>
                  content.segments[i].meta.startSeq < content.segments[j].meta.startSeq)
            && (forall i :: 0 <= i < |content.log| ==> InSegment(content.segments, content.log[i]))
            && (forall i, j :: 0 <= i < j < |content.log| ==> content.log[i].sequence < content.log[j].sequence)
  {
    hide Represents, DbInv;
    InvAlong(c, states, steps, n);
    assert SnapOk(Last(states[n].snaps));
  }

  /** The key listing of any surviving put names exactly the keys with a record in the
      segments asked for, also after rolls and restarts. */
  lemma ListingAgrees(c: Config, states: seq<State>, steps: seq<Step>, n: nat, i: nat, start: u32, end: u32)
    requires Run(c, states, steps) && n < |states| && i < |states[n].snaps|
    ensures var snap := states[n].snaps[i];
            && KeysIn(snap.table, start, end).Ok?
            && forall key :: key in KeysIn(snap.table, start, end).value <==> HasRecord(snap.content, start, end, key)
  {
    hide Represents, ContentOk, KeysIn, HasRecord, DbInv;
    InvAlong(c, states, steps, n);
    var snap := states[n].snaps[i];
    assert SnapOk(snap);
    ListKeysExact(snap.table, snap.content, start, end);
  }

  // ----- numbers are never used twice -----

  /** An append adds its records at the end, under consecutive numbers above all surviving
      ones, also when the numbers span blocks and after any restart. */
  lemma NoSequenceReuse(c: Config, states: seq<State>, steps: seq<Step>, i: nat)
    requires Run(c, states, steps) && i < |steps| && steps[i].Append?
    ensures states[i].snaps != [] && states[i + 1].snaps != []
    ensures var before, after, users := Survivors(states[i]), Survivors(states[i + 1]), steps[i].write.records;
            && |users| > 0 && |after| == |before| + |users| && before <= after
            && (forall k :: 0 <= k < |users| ==>
                  var r := after[|before| + k];
                  r.key == users[k].key && r.value == users[k].value && r.sequence == after[|before|].sequence + k)
            && (forall j :: 0 <= j < |before| ==> before[j].sequence < after[|before|].sequence)
  {
    hide Represents, ContentOk, Prepare, QueueInv, ViewInv, WatermarkInv, Grew, Room;
    InvAlong(c, states, steps, i);
    assert StepAt(c, states, steps, i);
    var s, write := states[i], steps[i].write;
    var w, last := s.db.value.writer, Last(s.snaps);
    assert SnapOk(last);
    AppendKeeps(c.sealInterval, w, write, last.table, last.content);
    var after := After(last.content, Prepare(c.sealInterval, w, write)).log;
    assert Survivors(states[i + 1]) == after;
    assert after[|last.content.log| + 0].key == write.records[0].key;
  }

  // ----- what survives -----

  /** What was durable at some point is there ever after: the same put, in the same place. */
  lemma {:induction false} DurableStays(c: Config, states: seq<State>, steps: seq<Step>, m: nat, n: nat)
    requires Run(c, states, steps) && m <= n < |states|
    ensures states[m].durable <= states[n].durable < |states[n].snaps| && states[m].durable < |states[m].snaps|
    ensures states[n].snaps[states[m].durable] == states[m].snaps[states[m].durable]
    decreases n
  {
    hide Next;
    InvAlong(c, states, steps, n);
    if m < n {
      DurableStays(c, states, steps, m, n - 1);
      InvAlong(c, states, steps, n - 1);
      assert StepAt(c, states, steps, n - 1);
      DurableEarlier(c, states[n - 1], steps[n - 1], states[n], states[m].durable, AllReadable(steps));
    }
  }

  lemma DurableEarlier(c: Config, s: State, step: Step, s': State, i: nat, ok: bool)
    requires Inv(c, s, ok) && Next(c, s, step, s') && Inv(c, s', ok) && i <= s.durable
    ensures i < |s.snaps| && s.durable <= s'.durable < |s'.snaps| && s'.snaps[i] == s.snaps[i]
  {
    hide SnapsOk, DbInv, Opened, Received, TryAdvance, AppendedSnap;
  }

  /** A record that was durable once is a surviving record ever after, in its place. */
  lemma DurableSurvives(c: Config, states: seq<State>, steps: seq<Step>, m: nat, n: nat)
    requires Run(c, states, steps) && m <= n < |states|
    ensures states[m].durable < |states[m].snaps| && states[n].snaps != []
    ensures LogAt(states[m], states[m].durable) <= Survivors(states[n])
  {
    hide SnapOk, DbInv, Run;
    DurableStays(c, states, steps, m, n);
    InvAlong(c, states, steps, n);
    assert Grew(states[n].snaps[states[m].durable].content, Last(states[n].snaps).content);
  }

  /** After a flush that succeeded, everything appended before it survives for good. */
  lemma FlushedSurvives(c: Config, states: seq<State>, steps: seq<Step>, i: nat, n: nat)
    requires Run(c, states, steps) && i < |steps| && steps[i].Flush? && i < n < |states|
    ensures states[i].snaps != [] && states[n].snaps != []
    ensures Survivors(states[i]) <= Survivors(states[n])
  {
    hide SnapsOk, DbInv;
    InvAlong(c, states, steps, i);
    assert StepAt(c, states, steps, i);
    DurableSurvives(c, states, steps, i + 1, n);
  }

  // ----- the surviving records are those of the surviving puts -----

  function Users(log: seq<LogRec>): (r: seq<UserRecord>)
    ensures |r| == |log|
  {
    seq(|log|, i requires 0 <= i < |log| => UserRecord(log[i].key, log[i].value))
  }

  function Joined(puts: seq<seq<UserRecord>>): seq<UserRecord>
  {
    if puts == [] then [] else Joined(puts[..|puts| - 1]) + puts[|puts| - 1]
  }

  /** The records of each put that was applied in the first `n` steps and not lost in a crash,
      also where it reported an error; the first stands for the new log. */
  function Puts(steps: seq<Step>, n: nat): seq<seq<UserRecord>>
    requires n <= |steps|
  {
    if n == 0 then [[]]
    else
      var puts := Puts(steps, n - 1);
      match steps[n - 1]
      case Append(write) => puts + [write.records]
      case AppendFails(write, applied) => if applied then puts + [write.records] else puts
      case Crash(keep) => if keep < |puts| then puts[..keep + 1] else puts
      case _ => puts
  }

  ghost predicate MadeAt(snaps: seq<Snap>, puts: seq<seq<UserRecord>>, i: nat)
    requires i < |snaps| && i < |puts|
  {
    Users(snaps[i].content.log) == Joined(puts[..i + 1])
  }

  /** The log of each surviving snapshot is made of the puts up to it. */
  ghost predicate MadeOf(snaps: seq<Snap>, puts: seq<seq<UserRecord>>)
  {
    |puts| == |snaps| && forall i :: 0 <= i < |snaps| ==> MadeAt(snaps, puts, i)
  }

  lemma MadeOfOneMore(snaps: seq<Snap>, puts: seq<seq<UserRecord>>, snap: Snap, users: seq<UserRecord>)
    requires MadeOf(snaps, puts) && snaps != []
    requires Users(snap.content.log) == Users(Last(snaps).content.log) + users
    ensures MadeOf(snaps + [snap], puts + [users])
  {
    hide Users;
    var all := puts + [users];
    assert MadeAt(snaps, puts, |snaps| - 1);
    assert all[..|puts|] == puts == puts[..|puts|] && all[..|puts| + 1] == all;
    forall i | 0 <= i < |snaps|
      ensures MadeAt(snaps + [snap], all, i)
    {
      assert MadeAt(snaps, puts, i) && all[..i + 1] == puts[..i + 1];
    }
  }

  lemma MadeOfFewer(snaps: seq<Snap>, puts: seq<seq<UserRecord>>, n: nat)
    requires MadeOf(snaps, puts) && n <= |snaps|
    ensures MadeOf(snaps[..n], puts[..n])
  {
    hide Users, Joined;
    forall i | 0 <= i < n
      ensures MadeAt(snaps[..n], puts[..n], i)
    {
      assert MadeAt(snaps, puts, i) && puts[..n][..i + 1] == puts[..i + 1];
    }
  }

  lemma AppendedUsers(c: Config, s: State, w: WriterState, write: Write)
    requires s.snaps != [] && Room(w, write)
    ensures Users(AppendedSnap(c, s, w, write).content.log) == Users(Last(s.snaps).content.log) + write.records
  {
    hide Prepare, PutAll, Room, Assign, Reserve, Insert;
    PreparedParts(c.sealInterval, w, write);
  }

  /** In every run the surviving records, in order, are those of the surviving puts in the
      order of the puts, and each surviving snapshot has the puts up to it. */
  lemma {:induction false} SurvivorsArePuts(c: Config, states: seq<State>, steps: seq<Step>, n: nat)
    requires Run(c, states, steps) && n < |states|
    ensures MadeOf(states[n].snaps, Puts(steps, n))
    ensures states[n].snaps != [] && Users(Survivors(states[n])) == Joined(Puts(steps, n))
    decreases n
  {
    hide Users, Opened, Received, TryAdvance, AppendedSnap, Prepare, Room, MadeAt;
    if n == 0 {
      StartMade();
    } else {
      SurvivorsArePuts(c, states, steps, n - 1);
      assert StepAt(c, states, steps, n - 1);
      var s, step, puts := states[n - 1], steps[n - 1], Puts(steps, n - 1);
      match step
      case Append(write) => PutApplied(c, s, s.db.value.writer, write, puts);
      case AppendFails(write, applied) => PutApplied(c, s, s.db.value.writer, write, puts);
      case Crash(keep) => MadeOfFewer(s.snaps, puts, keep + 1);
      case _ =>
    }
    MadeOfAll(states[n].snaps, Puts(steps, n));
  }

  lemma PutApplied(c: Config, s: State, w: WriterState, write: Write, puts: seq<seq<UserRecord>>)
    requires s.snaps != [] && Room(w, write) && MadeOf(s.snaps, puts)
    ensures MadeOf(s.snaps + [AppendedSnap(c, s, w, write)], puts + [write.records])
  {
    hide Users, AppendedSnap, Room;
    AppendedUsers(c, s, w, write);
    MadeOfOneMore(s.snaps, puts, AppendedSnap(c, s, w, write), write.records);
  }

  lemma StartMade()
    ensures MadeOf(START.snaps, [[]])
  {
    var none: seq<seq<UserRecord>> := [[]];
    assert none[..1] == none && none[..0] == [];
    assert Joined(none) == [];
  }

  lemma MadeOfAll(snaps: seq<Snap>, puts: seq<seq<UserRecord>>)
    requires MadeOf(snaps, puts) && snaps != []
    ensures Users(Last(snaps).content.log) == Joined(puts)
  {
    assert MadeAt(snaps, puts, |snaps| - 1) && puts[..|snaps|] == puts;
  }

  // ----- what readers see -----

  /** Both states belong to the same running instance. */
  predicate SameInstance(s: State, s': State)
  {
    s.db.Some? && s'.db.Some? && s.opens == s'.opens
  }

  /** One instance keeps its base; its puts, its view and its watermarks only move forward. */
  predicate Forward(s: State, s': State)
    requires s.db.Some? && s'.db.Some?
  {
    && s'.db.value.base == s.db.value.base && s.snaps <= s'.snaps
    && s.db.value.view.snapshot <= s'.db.value.view.snapshot
    && s.db.value.writer.epoch <= s'.db.value.writer.epoch
  }

  lemma Weaker(c: Config, s: State, ok: bool)
    requires Inv(c, s, ok)
    ensures Inv(c, s, false)
  {
    hide SnapsOk, WriterInv, QueueInv, WatermarkInv;
  }

  lemma ForwardStep(c: Config, s: State, step: Step, s': State)
    requires Inv(c, s, false) && Next(c, s, step, s') && s.db.Some? && s'.db.Some?
    ensures Forward(s, s')
  {
    hide SnapsOk, TryAdvance, Agrees, AppendedSnap, Prepare, Room, QueueInv;
    var d := s.db.value;
    if step.Receive? {
      var d' := d.(pending := d.pending + [d.cell], unseen := false);
      CellWaits(c.mode, s.snaps, s.durable, d, false);
      SameQueue(s.snaps, d', d'.(seenWritten := d.cell.epoch));
      if c.mode.Memory? {
        AdvanceKeeps(c.mode, s.snaps, s.durable, d', d.cell.seqnum, step.readable, false);
        AdvanceFrame(c.mode, s.snaps, d', d.cell.seqnum, step.readable);
      } else {
        AdvanceKeeps(c.mode, s.snaps, s.durable, d'.(seenWritten := d.cell.epoch), d.lastDurable, step.readable, false);
        AdvanceFrame(c.mode, s.snaps, d'.(seenWritten := d.cell.epoch), d.lastDurable, step.readable);
      }
    } else if step.SeeDurable? {
      SameQueue(s.snaps, d, d.(lastDurable := s.durable));
      AdvanceKeeps(c.mode, s.snaps, s.durable, d.(lastDurable := s.durable), s.durable, step.readable, false);
      AdvanceFrame(c.mode, s.snaps, d.(lastDurable := s.durable), s.durable, step.readable);
    } else if step.Append? {
      BroadcastStep(c, s, step.write, false);
    }
  }

  lemma AdvanceFrame(mode: Mode, snaps: seq<Snap>, d: Db, through: nat, readable: bool)
    ensures var d' := TryAdvance(mode, snaps, d, through, readable);
            d'.base == d.base && d'.writer == d.writer
  {
  }

  lemma OpensStep(c: Config, s: State, step: Step, s': State)
    requires Next(c, s, step, s')
    ensures s.opens <= s'.opens
    ensures s.db.None? && s'.db.Some? ==> s.opens < s'.opens
  {
    hide Opened, Received, TryAdvance, AppendedSnap, Prepare, Room;
  }

  lemma {:induction false} OpensGrow(c: Config, states: seq<State>, steps: seq<Step>, m: nat, n: nat)
    requires Run(c, states, steps) && m <= n < |states|
    ensures states[m].opens <= states[n].opens
    decreases n
  {
    hide Next;
    if m < n {
      OpensGrow(c, states, steps, m, n - 1);
      assert StepAt(c, states, steps, n - 1);
      OpensStep(c, states[n - 1], steps[n - 1], states[n]);
    }
  }

  lemma {:induction false} ForwardAlong(c: Config, states: seq<State>, steps: seq<Step>, m: nat, n: nat)
    requires Run(c, states, steps) && m <= n < |states| && SameInstance(states[m], states[n])
    ensures Forward(states[m], states[n])
    decreases n
  {
    hide Next, Inv;
    if m < n {
      OpensGrow(c, states, steps, m, n - 1);
      assert StepAt(c, states, steps, n - 1);
      OpensStep(c, states[n - 1], steps[n - 1], states[n]);
      ForwardAlong(c, states, steps, m, n - 1);
      InvAlong(c, states, steps, n - 1);
      Weaker(c, states[n - 1], AllReadable(steps));
      ForwardStep(c, states[n - 1], steps[n - 1], states[n]);
    }
  }

  /** The epoch a read waits for, and the watermark it waits on. */
  function Target(mode: Mode, d: Db): nat
  {
    if mode.Memory? then d.writtenEpoch else d.durableEpoch
  }

  function Watermark(mode: Mode, d: Db): nat
  {
    if mode.Memory? then d.seenWritten else d.seenDurable
  }

  /** A read that began in state `m` and returns in state `n` of the same instance sees a
      view at least as new as the epoch it waited for, whatever the watch cell coalesced;
      the view is not older than any earlier view of the instance; in remote mode it is
      durable; it knows the first segments of its snapshot, and all of them exactly when it
      knows the newest, as it does where segments could always be read. */
  lemma ReadVisibility(c: Config, states: seq<State>, steps: seq<Step>, m: nat, n: nat)
    requires Run(c, states, steps) && m <= n < |states| && SameInstance(states[m], states[n])
    requires Watermark(c.mode, states[n].db.value) >= Target(c.mode, states[m].db.value)
    ensures var s, s' := states[m], states[n];
            var d, d' := s.db.value, s'.db.value;
            && s.snaps <= s'.snaps && d'.view.snapshot < |s'.snaps| && d'.base == d.base
            && d.base + Target(c.mode, d) <= d'.view.snapshot
            && d.view.snapshot <= d'.view.snapshot
            && (c.mode.Remote? ==> d'.view.snapshot <= s'.durable)
            && var all := s'.snaps[d'.view.snapshot].content.segments;
            && d'.view.segments <= all
            && (d'.view.segments == all <==> d'.known == LatestId(all))
            && (AllReadable(steps) ==> d'.view.segments == all)
  {
    hide SnapsOk, WriterInv, QueueInv;
    ForwardAlong(c, states, steps, m, n);
    InvAlong(c, states, steps, m);
    InvAlong(c, states, steps, n);
    var all := states[n].snaps[states[n].db.value.view.snapshot].content.segments;
    SnapHasIds(states[n].snaps, states[n].db.value.view.snapshot);
    SameLatest(states[n].db.value.view.segments, all);
  }

  lemma SnapHasIds(snaps: seq<Snap>, i: nat)
    requires SnapsOk(snaps) && i < |snaps|
    ensures SegmentsOk(snaps[i].content.segments)
  {
    hide Represents, LogOk, Reserved, ListingOk, SegmentsOk;
    assert SnapOk(snaps[i]);
  }

  lemma SameLatest(known: seq<LogSegment>, all: seq<LogSegment>)
    requires known <= all && SegmentsOk(all)
    ensures known == all <==> LatestId(known) == LatestId(all)
  {
    if known != [] {
      assert known[|known| - 1] == all[|known| - 1];
    }
  }

  /** In memory mode the view of a read therefore has all records acknowledged before it
      began, and where its segments could be read the read returns exactly the key's records
      among those of its view. */
  lemma ReadsOwnWrites(c: Config, states: seq<State>, steps: seq<Step>, m: nat, n: nat, key: Bytes, a: u64, b: u64)
    requires Run(c, states, steps) && m <= n < |states| && SameInstance(states[m], states[n])
    requires c.mode.Memory? && !states[m].db.value.stopped
    requires states[n].db.value.seenWritten >= states[m].db.value.writtenEpoch
    ensures states[m].snaps != [] && states[n].db.value.view.snapshot < |states[n].snaps|
    ensures var view := states[n].db.value.view;
            var snap := states[n].snaps[view.snapshot];
            && Survivors(states[m]) <= snap.content.log
            && (AllReadable(steps) ==> view.segments == snap.content.segments)
            && (view.segments == snap.content.segments ==>
                  ReadFrom(snap.table, view.segments, 0, key, a, b)
                  == EntryRecords(Filter(snap.content.log, OfKey(key, a, b))))
  {
    hide Filter, ReadFrom, EntryRecords, OfKey, QueueInv, SnapOk, Agrees;
    ReadVisibility(c, states, steps, m, n);
    InvAlong(c, states, steps, m);
    InvAlong(c, states, steps, n);
    var s, s' := states[m], states[n];
    var view := s'.db.value.view;
    LogRefinement(c, states, steps, n, view.snapshot, key, a, b);
    assert s'.snaps[|s.snaps| - 1] == Last(s.snaps);
    assert Grew(s'.snaps[|s.snaps| - 1].content, s'.snaps[view.snapshot].content);
  }

  /** Whatever segments could be read, a read returns the key's records of the segments its
      view knows, in append order; these are all of the key's records exactly when none lies
      in a segment that the view does not know. */
  lemma ReadsKnownSegments(c: Config, states: seq<State>, steps: seq<Step>, n: nat, key: Bytes, a: u64, b: u64)
    requires Run(c, states, steps) && n < |states| && states[n].db.Some?
    ensures var s := states[n];
            var view := s.db.value.view;
            && view.snapshot < |s.snaps|
            && var log, known := LogAt(s, view.snapshot), |view.segments|;
            && var read := ReadFrom(s.snaps[view.snapshot].table, view.segments, 0, key, a, b);
            && read == EntryRecords(Filter(log, OfKeyBelow(known, key, a, b)))
            && (read == EntryRecords(Filter(log, OfKey(key, a, b))) <==>
                forall r :: r in log && OfKey(key, a, b)(r) ==> r.segment.id < known)
  {
    hide Represents, ContentOk, Filter, ReadFrom, WriterInv, QueueInv;
    InvAlong(c, states, steps, n);
    var s := states[n];
    var view := s.db.value.view;
    var snap := s.snaps[view.snapshot];
    assert SnapOk(snap);
    ReadKnownIsFilter(snap.table, snap.content, |view.segments|, key, a, b);
    assert snap.content.segments[..|view.segments|] == view.segments;
    AllKnownIff(snap.content.log, |view.segments|, key, a, b);
  }

  lemma AllKnownIff(log: seq<LogRec>, k: nat, key: Bytes, a: u64, b: u64)
    ensures EntryRecords(Filter(log, OfKeyBelow(k, key, a, b))) == EntryRecords(Filter(log, OfKey(key, a, b)))
            <==> forall r :: r in log && OfKey(key, a, b)(r) ==> r.segment.id < k
  {
    hide Filter, EntryRecords;
    var p, q := OfKeyBelow(k, key, a, b), OfKey(key, a, b);
    FilterFewer(log, p, q);
    if forall r :: r in log && q(r) ==> r.segment.id < k {
      FilterSame(log, p, q);
    } else {
      var r :| r in log && q(r) && r.segment.id >= k;
      assert q(r) && !p(r);
      assert |EntryRecords(Filter(log, p))| < |EntryRecords(Filter(log, q))|;
    }
  }

  lemma {:induction false} FilterFewer(log: seq<LogRec>, p: LogRec -> bool, q: LogRec -> bool)
    requires forall r :: p(r) ==> q(r)
    ensures |Filter(log, p)| <= |Filter(log, q)|
    ensures (exists r :: r in log && q(r) && !p(r)) ==> |Filter(log, p)| < |Filter(log, q)|
  {
    if log != [] {
      FilterFewer(log[..|log| - 1], p, q);
      assert log == log[..|log| - 1] + [log[|log| - 1]];
    }
  }

  /** A view that could not read the segments misses records that it was waited for: the
      first append to a new log is acknowledged, the subscriber fails to read its segment
      and reports the epoch all the same, and a read then returns nothing. */
  lemma UnreadableHides(interval: Option<int>, write: Write, key: Bytes, a: u64, b: u64)
    returns (states: seq<State>, steps: seq<Step>)
    requires write.records != [] && NEW_WRITER.alloc.Room(|write.records|)
    ensures Run(Config(Memory, interval), states, steps) && |states| == 4
    ensures states[2].db.Some? && states[3].db.Some? && SameInstance(states[2], states[3])
    ensures states[3].db.value.seenWritten >= states[2].db.value.writtenEpoch
    ensures states[2].snaps != [] && |Survivors(states[2])| == |write.records|
    ensures var view := states[3].db.value.view;
            && view.snapshot < |states[3].snaps| && LogAt(states[3], view.snapshot) == Survivors(states[2])
            && ReadFrom(states[3].snaps[view.snapshot].table, view.segments, 0, key, a, b) == []
  {
    hide Prepare, PutAll, Load, SegmentsIn, EntryRecords;
    var c := Config(Memory, interval);
    ReloadNew();
    PreparedParts(interval, NEW_WRITER, write);
    var d1 := Opened(START).value;
    var s1 := START.(db := Some(d1), opens := 1);
    var s2 := Do(c, s1, Append(write)).value;
    var s3 := Do(c, s2, Receive(false)).value;
    states, steps := [START, s1, s2, s3], [Open, Append(write), Receive(false)];
    assert StepAt(c, states, steps, 0) && StepAt(c, states, steps, 1) && StepAt(c, states, steps, 2);
  }

  lemma ReloadNew()
    ensures Reload(map[]) == Some(NEW_WRITER)
  {
  }

  /** In remote mode what a read returns survives every later crash. */
  lemma RemoteReadsSurvive(c: Config, states: seq<State>, steps: seq<Step>, m: nat, n: nat)
    requires Run(c, states, steps) && m <= n < |states| && c.mode.Remote? && states[m].db.Some?
    ensures states[m].db.value.view.snapshot < |states[m].snaps| && states[n].snaps != []
    ensures LogAt(states[m], states[m].db.value.view.snapshot) <= Survivors(states[n])
  {
    hide SnapOk, WriterInv, QueueInv, Run;
    InvAlong(c, states, steps, m);
    DurableSurvives(c, states, steps, m, n);
    var s := states[m];
    assert Grew(s.snaps[s.db.value.view.snapshot].content, s.snaps[s.durable].content);
  }
}
