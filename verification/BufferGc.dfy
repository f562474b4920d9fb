/** The garbage collector never takes a file the manifest names, now or later. */
module BufferGc {
  import opened ByteStrings
  import opened QueueCodec
  import opened Manifests
  import opened BufferProtocol
  import opened BufferHistory
  import opened BufferDelivery

  function Entries(s: State): seq<QueueEntry>
  {
    Current(s.store).entries
  }

  /** The creation time of `f` lies a grace period before `t`. */
  predicate Expired(c: Config, f: Bytes, t: nat)
  {
    c.ulidTime(f).Some? && c.ulidTime(f).value + c.grace <= t
  }

  /** A write that goes through does so before the file's creation time plus the grace period. */
  predicate InTime(c: Config, s: State, step: Step)
  {
    step.ByProducer? && step.producerAction.Append? && step.p in s.producers ==>
      !Expired(c, s.producers[step.p].location, s.now)
  }

  ghost predicate OnTime(c: Config, states: seq<State>, steps: seq<Step>)
    requires |states| == |steps| + 1
  {
    forall i :: 0 <= i < |steps| ==> InTime(c, states[i], steps[i])
  }

  /** A file whose creation time lies in the future has age zero: with no grace period the
      collector would take it at once. */
  ghost predicate GraceOk(c: Config)
  {
    c.grace > 0 || forall f: Bytes :: c.ulidTime(f).Some? ==> c.ulidTime(f).value == 0
  }

  predicate NoDangling(es: seq<QueueEntry>, files: map<Bytes, Bytes>)
  {
    forall i :: 0 <= i < |es| ==> es[i].location in files
  }

  /** A call that has written its file still has it, unless it is too late to enqueue it. */
  predicate InFlight(c: Config, ps: map<nat, Producer>, files: map<Bytes, Bytes>, now: nat)
  {
    forall p :: p in ps && (ps[p].phase.Stored? || ps[p].phase.Holding?) ==>
      ps[p].location in files || Expired(c, ps[p].location, now)
  }

  predicate CollectorOk(c: Config, w: Collector, es: seq<QueueEntry>, now: nat)
  {
    match w
    case Idle => true
    case Started(t) => t <= now
    case Listing(t, locations, _, found) =>
      && t <= now
      && (forall i :: 0 <= i < |es| ==> es[i].location in locations || !Expired(c, es[i].location, t))
      && forall f :: f in found ==> Expired(c, f, t) && f !in locations
    case Deleting(todo) =>
      && (forall f :: f in todo ==> Expired(c, f, now))
      && (forall i :: 0 <= i < |es| ==> es[i].location !in todo)
  }

  predicate CollectorsOk(c: Config, gs: map<nat, Collector>, es: seq<QueueEntry>, now: nat)
  {
    forall g :: g in gs ==> CollectorOk(c, gs[g], es, now)
  }

  predicate GcInv(c: Config, s: State)
  {
    && NoDangling(Entries(s), s.files)
    && InFlight(c, s.producers, s.files, s.now)
    && CollectorsOk(c, s.collectors, Entries(s), s.now)
  }

  /** Fewer entries, or a later time, keep every collector's promise. */
  lemma FewerEntries(c: Config, gs: map<nat, Collector>, es: seq<QueueEntry>, now: nat, es': seq<QueueEntry>, now': nat)
    requires CollectorsOk(c, gs, es, now) && now <= now'
    requires forall i :: 0 <= i < |es'| ==> es'[i] in es
    ensures CollectorsOk(c, gs, es', now')
  {
  }

  lemma TickGc(c: Config, s: State, to: nat, s': State)
    requires GcInv(c, s) && s.now <= to && s' == s.(now := to)
    ensures GcInv(c, s')
  {
  }

  lemma AppendGc(c: Config, s: State, p: nat, ok: bool, s': State)
    requires NextProducer(s, p, Append(ok), s') && GcInv(c, s) && InTime(c, s, ByProducer(p, Append(ok)))
    ensures GcInv(c, s')
  {
  }

  lemma ProducerGc(c: Config, s: State, p: nat, a: ProducerAction, s': State)
    requires NextProducer(s, p, a, s') && GcInv(c, s) && !a.Append?
    ensures GcInv(c, s')
  {
  }

  lemma {:induction false} KeepIsSubset(es: seq<QueueEntry>, t: u64)
    ensures forall i :: 0 <= i < |Keep(es, t)| ==> Keep(es, t)[i] in es
  {
    if es != [] {
      KeepIsSubset(es[1..], t);
    }
  }

  lemma ConsumerGc(c: Config, s: State, k: nat, a: ConsumerAction, s': State)
    requires NextConsumer(s, k, a, s') && GcInv(c, s)
    ensures GcInv(c, s')
  {
    ConsumerEntries(s, k, a, s');
    FewerEntries(c, s.collectors, Entries(s), s.now, Entries(s'), s.now);
    forall i | 0 <= i < |Entries(s')|
      ensures Entries(s')[i].location in s.files
    {
      assert Entries(s')[i] in Entries(s);
    }
  }

  lemma ConsumerEntries(s: State, k: nat, a: ConsumerAction, s': State)
    requires NextConsumer(s, k, a, s')
    ensures forall i :: 0 <= i < |Entries(s')| ==> Entries(s')[i] in Entries(s)
    ensures s'.files == s.files && s'.producers == s.producers && s'.collectors == s.collectors && s'.now == s.now
  {
    if a.Dequeue? {
      KeepIsSubset(Entries(s), s.consumers[k].phase.through);
    }
  }

  lemma CollectorGc(c: Config, s: State, g: nat, a: CollectorAction, s': State)
    requires NextCollector(c, s, g, a, s') && GcInv(c, s) && GraceOk(c)
    ensures GcInv(c, s')
  {
  }

  lemma GcStep(c: Config, s: State, step: Step, s': State)
    requires Next(c, s, step, s') && GcInv(c, s) && GraceOk(c) && InTime(c, s, step)
    ensures GcInv(c, s')
  {
    match step
    case Tick(to) => TickGc(c, s, to, s');
    case ByProducer(p, a) =>
      if a.Append? { AppendGc(c, s, p, a.ok, s'); } else { ProducerGc(c, s, p, a, s'); }
    case ByConsumer(k, a) => ConsumerGc(c, s, k, a, s');
    case ByCollector(g, a) => CollectorGc(c, s, g, a, s');
  }

  lemma {:induction false} GcAlong(c: Config, states: seq<State>, steps: seq<Step>, n: nat)
    requires Run(c, states, steps) && n < |states| && GraceOk(c) && OnTime(c, states, steps)
    ensures GcInv(c, states[n])
    decreases n
  {
    if n > 0 {
      GcAlong(c, states, steps, n - 1);
      assert StepAt(c, states, steps, n - 1);
      GcStep(c, states[n - 1], steps[n - 1], states[n]);
    }
  }

  /** In every reachable state each entry of the manifest names a file that exists and
      holds what the call that enqueued it wrote. */
  lemma DanglingFree(c: Config, states: seq<State>, steps: seq<Step>, n: nat)
    requires Run(c, states, steps) && n < |states| && GraceOk(c) && OnTime(c, states, steps)
    ensures var s := states[n];
            var es := Current(s.store).entries;
            forall i :: 0 <= i < |es| ==>
              && es[i].location in s.files
              && es[i].sequence < |s.history|
              && s.history[es[i].sequence].call in s.producers
              && s.files[es[i].location] == s.producers[s.history[es[i].sequence].call].content
  {
    GcAlong(c, states, steps, n);
    DeliveryAlong(c, states, steps, n);
    HistoryAlong(c, states, steps, n);
    var s := states[n];
    var es := Current(s.store).entries;
    forall i | 0 <= i < |es|
      ensures es[i].location in s.files && es[i].sequence < |s.history|
      ensures Owned(s.producers, s.history, es[i].sequence)
    {
      assert es[i] == EntryAt(s.history, Head(s) + i);
    }
  }

  // ----- when the promise fails -----

  /** The names that carry a creation time are names a manifest entry can hold. */
  ghost predicate NamesFit(c: Config)
  {
    forall f: Bytes :: c.ulidTime(f).Some? ==> Fits(QueueEntry(0, f, []))
  }

  ghost predicate NeverDangles(c: Config)
  {
    forall states: seq<State>, steps: seq<Step> :: Run(c, states, steps) && OnTime(c, states, steps) ==>
      NoDangling(Entries(states[|steps|]), states[|steps|].files)
  }

  /** The state while one file `f` is written, in flight and perhaps collected. */
  function InFlightState(f: Bytes, now: nat, phase: ProducerPhase, there: bool, g: map<nat, Collector>): State
  {
    START.(now := now, producers := map[0 := Producer(f, [], [], phase)],
           files := if there then map[f := []] else map[], collectors := g)
  }

  /** A collector that starts at `t`, with `f` in flight, and takes it. */
  function CollectingSteps(f: Bytes, t: nat): seq<Step>
  {
    [ByProducer(0, Produce(f, [], [])), ByProducer(0, PutFile(true, true)), Tick(t), ByCollector(0, StartCollect),
     ByCollector(0, Snapshot), ByCollector(0, ListFile(f)), ByCollector(0, EndListing), ByCollector(0, DeleteFile(f)),
     ByProducer(0, ReadForAppend), ByProducer(0, Append(true))]
  }

  lemma WritingSteps(f: Bytes)
    requires Fits(QueueEntry(0, f, []))
    ensures NextProducer(START, 0, Produce(f, [], []), InFlightState(f, 0, Writing, false, map[]))
    ensures NextProducer(InFlightState(f, 0, Writing, false, map[]), 0, PutFile(true, true),
                         InFlightState(f, 0, Stored, true, map[]))
  {
  }

  lemma TakingSteps(c: Config, f: Bytes, t: nat)
    requires Deletable(c, t, {}, None, f)
    ensures NextCollector(c, InFlightState(f, t, Stored, true, map[]), 0, StartCollect,
                          InFlightState(f, t, Stored, true, map[0 := Started(t)]))
    ensures NextCollector(c, InFlightState(f, t, Stored, true, map[0 := Started(t)]), 0, Snapshot,
                          InFlightState(f, t, Stored, true, map[0 := Listing(t, {}, None, {})]))
    ensures NextCollector(c, InFlightState(f, t, Stored, true, map[0 := Listing(t, {}, None, {})]), 0, ListFile(f),
                          InFlightState(f, t, Stored, true, map[0 := Listing(t, {}, None, {f})]))
    ensures NextCollector(c, InFlightState(f, t, Stored, true, map[0 := Listing(t, {}, None, {f})]), 0, EndListing,
                          InFlightState(f, t, Stored, true, map[0 := Deleting({f})]))
    ensures NextCollector(c, InFlightState(f, t, Stored, true, map[0 := Deleting({f})]), 0, DeleteFile(f),
                          InFlightState(f, t, Stored, false, map[0 := Deleting({})]))
  {
    assert Locations([]) == {};
    assert {} + {f} == {f};
    var files: map<Bytes, Bytes> := map[f := []];
    assert {f} - {f} == {} && files - {f} == map[];
  }

  lemma AppendingSteps(f: Bytes, t: nat)
    ensures NextProducer(InFlightState(f, t, Stored, false, map[0 := Deleting({})]), 0, ReadForAppend,
                         InFlightState(f, t, Holding(None), false, map[0 := Deleting({})]))
    ensures NextProducer(InFlightState(f, t, Holding(None), false, map[0 := Deleting({})]), 0, Append(true),
                         LostEntry(f, t))
  {
  }

  function LostEntry(f: Bytes, t: nat): State
  {
    var m := AppendRec(EMPTY, f, []);
    InFlightState(f, t, Succeeded(0), false, map[0 := Deleting({})]).(store := Some(m), history := [Enqueued(0, f, [])])
  }

  function CollectingStates(f: Bytes, t: nat): seq<State>
  {
    var g: map<nat, Collector> := map[0 := Deleting({})];
    [START, InFlightState(f, 0, Writing, false, map[]), InFlightState(f, 0, Stored, true, map[]),
     InFlightState(f, t, Stored, true, map[]), InFlightState(f, t, Stored, true, map[0 := Started(t)]),
     InFlightState(f, t, Stored, true, map[0 := Listing(t, {}, None, {})]),
     InFlightState(f, t, Stored, true, map[0 := Listing(t, {}, None, {f})]),
     InFlightState(f, t, Stored, true, map[0 := Deleting({f})]),
     InFlightState(f, t, Stored, false, g), InFlightState(f, t, Holding(None), false, g), LostEntry(f, t)]
  }

  lemma TakenStep(c: Config, f: Bytes, t: nat, i: nat)
    requires Fits(QueueEntry(0, f, [])) && Deletable(c, t, {}, None, f) && i < 10
    ensures StepAt(c, CollectingStates(f, t), CollectingSteps(f, t), i)
  {
    hide NextProducer, NextCollector, LostEntry, Fits, Deletable;
    WritingSteps(f);
    TakingSteps(c, f, t);
    AppendingSteps(f, t);
  }

  lemma TakenOnTime(c: Config, f: Bytes, t: nat)
    requires !Expired(c, f, t)
    ensures OnTime(c, CollectingStates(f, t), CollectingSteps(f, t))
  {
    hide Expired, LostEntry;
  }

  /** Whenever the rule lets a collector take a file in flight, there is a run that ends with
      an entry whose file is gone; its append is late only if the file has expired. */
  lemma TakenInFlight(c: Config, f: Bytes, t: nat)
    requires Fits(QueueEntry(0, f, [])) && Deletable(c, t, {}, None, f)
    ensures Run(c, CollectingStates(f, t), CollectingSteps(f, t))
    ensures !Expired(c, f, t) ==> OnTime(c, CollectingStates(f, t), CollectingSteps(f, t))
    ensures !NoDangling(Entries(CollectingStates(f, t)[10]), CollectingStates(f, t)[10].files)
  {
    hide StepAt, OnTime, Fits, Deletable, Expired;
    forall i | 0 <= i < 10
      ensures StepAt(c, CollectingStates(f, t), CollectingSteps(f, t), i)
    {
      TakenStep(c, f, t, i);
    }
    if !Expired(c, f, t) {
      TakenOnTime(c, f, t);
    }
    assert Entries(LostEntry(f, t))[0].location == f;
  }

  /** On-time runs never dangle exactly when there is a grace period, or no file name carries
      a creation time other than zero. */
  lemma NeverDanglesIff(c: Config)
    requires NamesFit(c)
    ensures NeverDangles(c) <==> GraceOk(c)
  {
    if GraceOk(c) {
      forall states: seq<State>, steps: seq<Step> | Run(c, states, steps) && OnTime(c, states, steps)
        ensures NoDangling(Entries(states[|steps|]), states[|steps|].files)
      {
        GcAlong(c, states, steps, |steps|);
      }
    } else {
      var f: Bytes :| c.ulidTime(f).Some? && c.ulidTime(f).value > 0;
      TakenInFlight(c, f, 0);
      assert Run(c, CollectingStates(f, 0), CollectingSteps(f, 0));
    }
  }

  /** Without the timing condition no grace period is enough. */
  lemma LateAppendDangles(c: Config, f: Bytes)
    requires NamesFit(c) && c.ulidTime(f).Some?
    ensures exists states: seq<State>, steps: seq<Step> ::
              Run(c, states, steps) && !NoDangling(Entries(states[|steps|]), states[|steps|].files)
  {
    TakenInFlight(c, f, c.ulidTime(f).value + c.grace);
  }

  // ----- the collector's loops -----

  datatype ManifestSnapshot = ManifestSnapshot(locations: set<Bytes>, oldest: Option<nat>)

  method ReadSnapshot(c: Config, entries: seq<QueueEntry>) returns (r: ManifestSnapshot)
    ensures r == ManifestSnapshot(Locations(entries), OldestTime(c, entries))
  {
    var locations: set<Bytes> := {};
    var oldest: Option<nat> := None;
    for i := 0 to |entries|
      invariant locations == Locations(entries[..i])
      invariant oldest == OldestTime(c, entries[..i])
    {
      assert entries[..i + 1][..i] == entries[..i];
      locations := locations + {entries[i].location};
      var t := c.ulidTime(entries[i].location);
      if t.Some? && (oldest.None? || t.value < oldest.value) {
        oldest := t;
      }
    }
    assert entries[..|entries|] == entries;
    r := ManifestSnapshot(locations, oldest);
  }

  /** The files of a listing that the collector will delete. */
  method SelectFiles(c: Config, now: nat, snapshot: ManifestSnapshot, listing: seq<Bytes>) returns (r: seq<Bytes>)
    ensures forall f :: f in r <==> f in listing && Deletable(c, now, snapshot.locations, snapshot.oldest, f)
  {
    r := [];
    for i := 0 to |listing|
      invariant forall f :: f in r <==> f in listing[..i] && Deletable(c, now, snapshot.locations, snapshot.oldest, f)
    {
      var f := listing[i];
      assert listing[..i + 1] == listing[..i] + [f];
      var t := c.ulidTime(f);
      if t.None? {
        continue;
      }
      if snapshot.oldest.Some? && t.value >= snapshot.oldest.value {
        continue;
      }
      var age := if now >= t.value then now - t.value else 0;
      if age < c.grace {
        continue;
      }
      if f in snapshot.locations {
        continue;
      }
      r := r + [f];
    }
    assert listing[..|listing|] == listing;
  }
}
