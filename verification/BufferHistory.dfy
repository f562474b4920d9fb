/** What the manifest is, over every run: the unread end of one append-only history. */
module BufferHistory {
  import opened ByteStrings
  import opened QueueCodec
  import opened Manifests
  import opened BufferProtocol

  /** The manifest entry that position `i` of the history stands for. */
  function EntryAt(h: seq<Enqueued>, i: nat): QueueEntry
    requires i < |h| <= U64_MAX
  {
    QueueEntry(i, h[i].location, h[i].metadata)
  }

  /** The entries are the last ones of the history, numbered by their position in it. */
  predicate Suffix(m: ManifestRec, h: seq<Enqueued>)
    requires |h| <= U64_MAX
  {
    && m.nextSequence == |h|
    && |m.entries| <= |h|
    && forall i :: 0 <= i < |m.entries| ==> m.entries[i] == EntryAt(h, |h| - |m.entries| + i)
  }

  predicate QueueInv(store: Option<ManifestRec>, h: seq<Enqueued>)
  {
    && |h| <= U64_MAX
    && Suffix(Current(store), h)
  }

  /** The position of the first entry still in the manifest. */
  function Head(s: State): int
  {
    |s.history| - |Current(s.store).entries|
  }

  lemma SuffixAscending(m: ManifestRec, h: seq<Enqueued>)
    requires |h| <= U64_MAX && Suffix(m, h)
    ensures Ascending(m.entries)
    ensures forall i :: 0 <= i < |m.entries| ==> m.entries[i].sequence == |h| - |m.entries| + i
  {
  }

  lemma AppendKeepsSuffix(m: ManifestRec, h: seq<Enqueued>, e: Enqueued)
    requires |h| < U64_MAX && Suffix(m, h)
    ensures Suffix(AppendRec(m, e.location, e.metadata), h + [e])
  {
  }

  /** Removing through `t` keeps a suffix: it now starts after `t`, or where it did. */
  lemma DequeueKeepsSuffix(m: ManifestRec, h: seq<Enqueued>, t: u64)
    requires |h| <= U64_MAX && Suffix(m, h)
    ensures Suffix(DequeueRec(m, t), h)
    ensures var head := |h| - |m.entries|;
            |h| - |Keep(m.entries, t)| == if t + 1 <= head then head else if t >= |h| then |h| else t + 1
  {
    SuffixAscending(m, h);
    DropIsFilter(m.entries, t);
    CountNext(m.entries, t);
    CountRun(m.entries, t);
    var n := CountThrough(m.entries, t);
    assert n > 0 ==> m.entries[n - 1].sequence <= t;
  }

  lemma {:induction false} CountRun(es: seq<QueueEntry>, t: u64)
    ensures forall i :: 0 <= i < CountThrough(es, t) ==> es[i].sequence <= t
  {
    if es != [] && es[0].sequence <= t {
      CountRun(es[1..], t);
      assert forall i :: 1 <= i < |es| ==> es[i] == es[1..][i - 1];
    }
  }

  /** Only a write that goes through changes the manifest. */
  lemma ProducerWrites(s: State, p: nat, a: ProducerAction, s': State)
    requires NextProducer(s, p, a, s') && QueueInv(s.store, s.history)
    ensures QueueInv(s'.store, s'.history) && s.history <= s'.history
    ensures !a.Append? ==> s'.store == s.store && s'.history == s.history
    ensures Current(s'.store).epoch == Current(s.store).epoch
  {
  }

  lemma ConsumerWrites(s: State, k: nat, a: ConsumerAction, s': State)
    requires NextConsumer(s, k, a, s') && QueueInv(s.store, s.history)
    ensures QueueInv(s'.store, s'.history) && s'.history == s.history
    ensures !a.Init? && !a.Dequeue? ==> s'.store == s.store
    ensures !a.Init? ==> Current(s'.store).epoch == Current(s.store).epoch && s'.inits == s.inits
  {
    if a.Dequeue? {
      DequeueKeepsSuffix(Current(s.store), s.history, s.consumers[k].phase.through);
    }
  }

  lemma QueueStep(c: Config, s: State, step: Step, s': State)
    requires Next(c, s, step, s') && QueueInv(s.store, s.history)
    ensures QueueInv(s'.store, s'.history) && s.history <= s'.history
  {
    match step
    case Tick(_) =>
    case ByProducer(p, a) => ProducerWrites(s, p, a, s');
    case ByConsumer(k, a) => ConsumerWrites(s, k, a, s');
    case ByCollector(_, _) =>
  }

  // ----- which call owns which number -----

  /** Position `i` belongs to a call that wrote it, and to no other. */
  predicate Owned(producers: map<nat, Producer>, h: seq<Enqueued>, i: nat)
    requires i < |h|
  {
    && h[i].call in producers
    && var w := producers[h[i].call];
    && w.location == h[i].location && w.metadata == h[i].metadata
    && (w.phase == Succeeded(i) || w.phase == Failed)
  }

  predicate AssignInv(producers: map<nat, Producer>, h: seq<Enqueued>)
  {
    && (forall i :: 0 <= i < |h| ==> Owned(producers, h, i))
    && (forall i, j :: 0 <= i < j < |h| ==> h[i].call != h[j].call)
    && (forall p :: p in producers && producers[p].phase.Succeeded? ==>
          producers[p].phase.sequence < |h| && h[producers[p].phase.sequence].call == p)
    && (forall p, q :: p in producers && q in producers && p != q ==> producers[p].location != producers[q].location)
  }

  lemma AssignStep(c: Config, s: State, step: Step, s': State)
    requires Next(c, s, step, s') && QueueInv(s.store, s.history) && AssignInv(s.producers, s.history)
    ensures AssignInv(s'.producers, s'.history)
  {
    if step.ByProducer? {
      if step.producerAction.Append? {
        AppendAssigns(s, step.p, step.producerAction.ok, s');
      } else {
        ProducerWrites(s, step.p, step.producerAction, s');
        OtherAssigns(s, step.p, step.producerAction, s');
      }
    } else if step.ByConsumer? {
      ConsumerWrites(s, step.k, step.consumerAction, s');
    }
  }

  lemma OtherAssigns(s: State, p: nat, a: ProducerAction, s': State)
    requires NextProducer(s, p, a, s') && !a.Append? && AssignInv(s.producers, s.history)
    ensures AssignInv(s'.producers, s.history)
  {
    PhaseChange(s.producers, s.history, p, s'.producers[p]);
  }

  /** A call that has not written yet, or never will, may change its phase freely. */
  lemma PhaseChange(ps: map<nat, Producer>, h: seq<Enqueued>, p: nat, w: Producer)
    requires AssignInv(ps, h) && !w.phase.Succeeded?
    requires p in ps ==>
               && ps[p].location == w.location && ps[p].metadata == w.metadata
               && !ps[p].phase.Succeeded? && (ps[p].phase.Failed? ==> w.phase.Failed?)
    requires p !in ps ==> forall q :: q in ps ==> ps[q].location != w.location
    ensures AssignInv(ps[p := w], h)
  {
    var ps' := ps[p := w];
    forall i | 0 <= i < |h|
      ensures Owned(ps', h, i)
    {
      assert Owned(ps, h, i);
    }
  }

  lemma AppendAssigns(s: State, p: nat, ok: bool, s': State)
    requires NextProducer(s, p, Append(ok), s') && QueueInv(s.store, s.history) && AssignInv(s.producers, s.history)
    ensures AssignInv(s'.producers, s'.history)
  {
    var n := |s.history|;
    forall i | 0 <= i < |s'.history|
      ensures Owned(s'.producers, s'.history, i)
      ensures i < n ==> s'.history[i].call != p
    {
      if i < n {
        assert Owned(s.producers, s.history, i);
        assert s.producers[s.history[i].call].phase != Holding(s.store);
      }
    }
  }

  // ----- over runs -----

  ghost predicate HistoryInv(s: State)
  {
    QueueInv(s.store, s.history) && AssignInv(s.producers, s.history)
  }

  lemma {:induction false} HistoryAlong(c: Config, states: seq<State>, steps: seq<Step>, n: nat)
    requires Run(c, states, steps) && n < |states|
    ensures HistoryInv(states[n])
    decreases n
  {
    if n > 0 {
      HistoryAlong(c, states, steps, n - 1);
      assert StepAt(c, states, steps, n - 1);
      QueueStep(c, states[n - 1], steps[n - 1], states[n]);
      AssignStep(c, states[n - 1], steps[n - 1], states[n]);
    }
  }

  lemma {:induction false} HistoryGrows(c: Config, states: seq<State>, steps: seq<Step>, m: nat, n: nat)
    requires Run(c, states, steps) && m <= n < |states|
    ensures states[m].history <= states[n].history
    decreases n
  {
    if m < n {
      HistoryGrows(c, states, steps, m, n - 1);
      HistoryGrowsOnce(c, states, steps, n - 1);
    }
  }

  lemma HistoryGrowsOnce(c: Config, states: seq<State>, steps: seq<Step>, i: nat)
    requires Run(c, states, steps) && i < |steps|
    ensures states[i].history <= states[i + 1].history
  {
    HistoryAlong(c, states, steps, i);
    assert StepAt(c, states, steps, i);
    QueueStep(c, states[i], steps[i], states[i + 1]);
  }

  /** Under every interleaving: the manifest is a contiguous end of one history that only
      grows, numbered up to `nextSequence`; an enqueue that returned Ok owns exactly one
      position, with its own location and metadata; no position belongs to two calls. */
  lemma QueueHistory(c: Config, states: seq<State>, steps: seq<Step>, m: nat, n: nat)
    requires Run(c, states, steps) && m <= n < |states|
    ensures states[m].history <= states[n].history
    ensures |states[n].history| <= U64_MAX && Suffix(Current(states[n].store), states[n].history)
    ensures forall p :: p in states[n].producers && states[n].producers[p].phase.Succeeded? ==>
              var w := states[n].producers[p];
              && w.phase.sequence < |states[n].history|
              && states[n].history[w.phase.sequence] == Enqueued(p, w.location, w.metadata)
              && forall i :: 0 <= i < |states[n].history| && states[n].history[i].call == p ==> i == w.phase.sequence
  {
    HistoryGrows(c, states, steps, m, n);
    HistoryAlong(c, states, steps, n);
    forall p | p in states[n].producers && states[n].producers[p].phase.Succeeded?
      ensures var q := states[n].producers[p].phase.sequence;
              q < |states[n].history| && Owned(states[n].producers, states[n].history, q)
    {
    }
  }
}
