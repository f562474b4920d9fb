/** What a collector has known of a file when it deletes it (buffer/src/gc.rs). */
module BufferSweep {
  import opened ByteStrings
  import opened QueueCodec
  import opened BufferProtocol
  import opened BufferGc

  // ----- the oldest creation time in the manifest -----

  predicate HasTime(c: Config, es: seq<QueueEntry>, i: int)
  {
    0 <= i < |es| && c.ulidTime(es[i].location).Some?
  }

  /** The least of the creation times, which some entry has; none if no entry has one. */
  lemma {:induction false} OldestIsLeast(c: Config, es: seq<QueueEntry>)
    ensures OldestTime(c, es).None? <==> forall i :: !HasTime(c, es, i)
    ensures OldestTime(c, es).Some? ==>
              && (exists i :: HasTime(c, es, i) && c.ulidTime(es[i].location) == OldestTime(c, es))
              && forall i :: HasTime(c, es, i) ==> OldestTime(c, es).value <= c.ulidTime(es[i].location).value
  {
    if es != [] {
      var n := |es| - 1;
      OldestIsLeast(c, es[..n]);
      forall i
        ensures HasTime(c, es, i) <==> HasTime(c, es[..n], i) || (i == n && HasTime(c, es, n))
      {
      }
      assert HasTime(c, es, n) <==> c.ulidTime(es[n].location).Some?;
      if OldestTime(c, es[..n]).Some? {
        var i :| HasTime(c, es[..n], i) && c.ulidTime(es[..n][i].location) == OldestTime(c, es[..n]);
        assert HasTime(c, es, i) && es[i] == es[..n][i];
      }
    }
  }

  // ----- where a collector's knowledge comes from -----

  /** Seen at state `a`, the file's creation time lay a grace period back; and in the manifest
      of state `m` no entry named it and none with a creation time was as old. */
  ghost predicate Garbage(c: Config, states: seq<State>, a: nat, m: nat, f: Bytes)
    requires a <= m < |states|
  {
    && c.ulidTime(f).Some?
    && var t, es := c.ulidTime(f).value, Entries(states[m]);
    && (if states[a].now >= t then states[a].now - t else 0) >= c.grace
    && forall i :: 0 <= i < |es| ==>
         es[i].location != f && (c.ulidTime(es[i].location).Some? ==> t < c.ulidTime(es[i].location).value)
  }

  ghost predicate Snapped(c: Config, states: seq<State>, n: nat, a: nat, m: nat, start: nat,
                          locations: set<Bytes>, oldest: Option<nat>)
    requires n < |states|
  {
    && a <= m <= n && states[a].now == start
    && locations == Locations(Entries(states[m])) && oldest == OldestTime(c, Entries(states[m]))
  }

  ghost predicate Begun(states: seq<State>, n: nat, a: nat, start: nat)
    requires n < |states|
  {
    a <= n && states[a].now == start
  }

  ghost predicate AllGarbage(c: Config, states: seq<State>, n: nat, a: nat, m: nat, files: set<Bytes>)
    requires n < |states|
  {
    a <= m <= n && forall f :: f in files ==> Garbage(c, states, a, m, f)
  }

  ghost predicate Traced(c: Config, states: seq<State>, n: nat, w: Collector)
    requires n < |states|
  {
    match w
    case Idle => true
    case Started(start) => exists a: nat :: Begun(states, n, a, start)
    case Listing(start, locations, oldest, found) =>
      exists a: nat, m: nat ::
        Snapped(c, states, n, a, m, start, locations, oldest) && AllGarbage(c, states, n, a, m, found)
    case Deleting(todo) => exists a: nat, m: nat :: AllGarbage(c, states, n, a, m, todo)
  }

  lemma TracedLater(c: Config, states: seq<State>, n: nat, w: Collector)
    requires n + 1 < |states| && Traced(c, states, n, w)
    ensures Traced(c, states, n + 1, w)
  {
    hide Garbage;
    match w
    case Idle =>
    case Started(start) =>
      var a: nat :| Begun(states, n, a, start);
      assert Begun(states, n + 1, a, start);
    case Listing(start, locations, oldest, found) =>
      var a: nat, m: nat :|
        Snapped(c, states, n, a, m, start, locations, oldest) && AllGarbage(c, states, n, a, m, found);
      assert Snapped(c, states, n + 1, a, m, start, locations, oldest) && AllGarbage(c, states, n + 1, a, m, found);
    case Deleting(todo) =>
      var a: nat, m: nat :| AllGarbage(c, states, n, a, m, todo);
      assert AllGarbage(c, states, n + 1, a, m, todo);
  }

  /** What the rule admits is garbage. */
  lemma DeletableIsGarbage(c: Config, states: seq<State>, n: nat, a: nat, m: nat, start: nat,
                           locations: set<Bytes>, oldest: Option<nat>, f: Bytes)
    requires n < |states| && Snapped(c, states, n, a, m, start, locations, oldest)
    requires Deletable(c, start, locations, oldest, f)
    ensures Garbage(c, states, a, m, f)
  {
    hide OldestTime;
    var es := Entries(states[m]);
    OldestIsLeast(c, es);
    forall i | 0 <= i < |es|
      ensures es[i].location != f
      ensures c.ulidTime(es[i].location).Some? ==> c.ulidTime(f).value < c.ulidTime(es[i].location).value
    {
      assert es[i].location in locations;
      if c.ulidTime(es[i].location).Some? {
        assert HasTime(c, es, i);
      }
    }
  }

  lemma TracedStep(c: Config, states: seq<State>, n: nat, g: nat, action: CollectorAction)
    requires n + 1 < |states| && NextCollector(c, states[n], g, action, states[n + 1])
    requires g in states[n].collectors ==> Traced(c, states, n, states[n].collectors[g])
    ensures Traced(c, states, n + 1, states[n + 1].collectors[g])
  {
    hide Garbage, Snapped, Locations, OldestTime, Deletable;
    var w := if g in states[n].collectors then states[n].collectors[g] else Idle;
    var w' := states[n + 1].collectors[g];
    match action
    case StartCollect =>
      assert Begun(states, n + 1, n, states[n].now);
    case Snapshot =>
      var a: nat :| Begun(states, n, a, w.start);
      SnapshotTraced(c, states, n, a, w.start);
      assert AllGarbage(c, states, n + 1, a, n, {});
    case ListFile(f) =>
      TracedLater(c, states, n, w);
      var a: nat, m: nat :|
        && Snapped(c, states, n + 1, a, m, w.start, w.locations, w.oldest)
        && AllGarbage(c, states, n + 1, a, m, w.found);
      DeletableIsGarbage(c, states, n + 1, a, m, w.start, w.locations, w.oldest, f);
      assert AllGarbage(c, states, n + 1, a, m, w.found + {f});
    case EndListing =>
      TracedLater(c, states, n, w);
      var a: nat, m: nat :|
        && Snapped(c, states, n + 1, a, m, w.start, w.locations, w.oldest)
        && AllGarbage(c, states, n + 1, a, m, w.found);
    case DeleteFile(f) =>
      TracedLater(c, states, n, w);
      var a: nat, m: nat :| AllGarbage(c, states, n + 1, a, m, w.todo);
      assert AllGarbage(c, states, n + 1, a, m, w.todo - {f});
    case AbandonCollect =>
  }

  lemma SnapshotTraced(c: Config, states: seq<State>, n: nat, a: nat, start: nat)
    requires n + 1 < |states| && Begun(states, n, a, start)
    ensures var es := Entries(states[n]);
            Snapped(c, states, n + 1, a, n, start, Locations(es), OldestTime(c, es))
  {
  }

  lemma {:induction false} TracedAlong(c: Config, states: seq<State>, steps: seq<Step>, n: nat, g: nat)
    requires Run(c, states, steps) && n < |states| && g in states[n].collectors
    ensures Traced(c, states, n, states[n].collectors[g])
    decreases n
  {
    hide Traced, NextProducer, NextConsumer, NextCollector;
    if n > 0 {
      assert StepAt(c, states, steps, n - 1);
      if g in states[n - 1].collectors {
        TracedAlong(c, states, steps, n - 1, g);
      }
      if steps[n - 1].ByCollector? && steps[n - 1].g == g {
        TracedStep(c, states, n - 1, g, steps[n - 1].collectorAction);
      } else {
        OthersKept(c, states[n - 1], steps[n - 1], states[n], g);
        TracedLater(c, states, n - 1, states[n - 1].collectors[g]);
      }
    }
  }

  lemma OthersKept(c: Config, s: State, step: Step, s': State, g: nat)
    requires Next(c, s, step, s') && g in s'.collectors && !(step.ByCollector? && step.g == g)
    ensures g in s.collectors && s'.collectors[g] == s.collectors[g]
  {
  }

  /** Whatever a collector deletes, in any run: when its sweep began the file had been there for
      the grace period, and in the manifest it then read no entry named the file, nor was any
      entry as old. A file at or after the oldest queued one is never deleted. */
  lemma CollectedIsGarbage(c: Config, states: seq<State>, steps: seq<Step>, n: nat, g: nat, f: Bytes)
    requires Run(c, states, steps) && n < |steps| && steps[n] == ByCollector(g, DeleteFile(f))
    ensures exists a: nat, m: nat :: a <= m <= n && Garbage(c, states, a, m, f)
  {
    hide Garbage;
    assert StepAt(c, states, steps, n);
    TracedAlong(c, states, steps, n, g);
    var todo := states[n].collectors[g].todo;
    var a: nat, m: nat :| AllGarbage(c, states, n, a, m, todo);
    assert Garbage(c, states, a, m, f);
  }
}
