/** Exactly-once delivery, over every run with consumer crashes at any point. */
module BufferDelivery {
  import opened ByteStrings
  import opened Manifests
  import opened BufferProtocol
  import opened BufferHistory

  /** `ds` are the history's entries from position `from` on, each with the content that
      the call which enqueued it wrote. */
  predicate Delivered(ps: map<nat, Producer>, h: seq<Enqueued>, ds: seq<Delivery>, from: nat)
  {
    && from + |ds| <= |h| <= U64_MAX
    && forall i :: 0 <= i < |ds| ==> IsDelivery(ps, h, from + i, ds[i])
  }

  predicate IsDelivery(ps: map<nat, Producer>, h: seq<Enqueued>, i: nat, d: Delivery)
    requires i < |h| <= U64_MAX
  {
    h[i].call in ps && d == Delivery(EntryAt(h, i), ps[h[i].call].content)
  }

  /** Stored files hold what their calls wrote. */
  predicate FileInv(files: map<Bytes, Bytes>, ps: map<nat, Producer>)
  {
    forall p :: p in ps && ps[p].location in files ==> files[ps[p].location] == ps[p].content
  }

  function Cursor(n: nat): Option<nat>
  {
    if n == 0 then None else Some(n - 1)
  }

  /** Only committed sequences are acknowledged or dequeued. */
  predicate AcksCommitted(w: Consumer, n: nat)
  {
    && (w.lastAcked.Some? ==> w.lastAcked.value < n)
    && (w.phase.Dequeuing? || w.phase.DequeueHolding? ==> w.phase.through < n)
  }

  /** The consumer that may commit continues exactly where the committed batches end. */
  predicate CursorOk(s: State, w: Consumer)
  {
    && Delivered(s.producers, s.history, w.pending, |s.committed|)
    && w.lastFetched == Cursor(|s.committed| + |w.pending|)
    && (w.phase.Fetching? ==>
          && |s.committed| + |w.pending| < |s.history|
          && w.phase.entry == EntryAt(s.history, |s.committed| + |w.pending|))
  }

  predicate DeliveryInv(s: State)
  {
    && Delivered(s.producers, s.history, s.committed, 0)
    && Head(s) <= |s.committed|
    && FileInv(s.files, s.producers)
    && (forall k :: k in s.consumers ==> AcksCommitted(s.consumers[k], |s.committed|))
    && (s.owner.Some? ==> s.owner.value in s.consumers && CursorOk(s, s.consumers[s.owner.value]))
  }

  // ----- producer steps -----

  predicate ContentKept(ps: map<nat, Producer>, ps': map<nat, Producer>)
  {
    forall p :: p in ps ==> p in ps' && ps'[p].content == ps[p].content
  }

  lemma DeliveredStable(ps: map<nat, Producer>, h: seq<Enqueued>, ps': map<nat, Producer>, h': seq<Enqueued>,
                        ds: seq<Delivery>, from: nat)
    requires Delivered(ps, h, ds, from) && h <= h' && |h'| <= U64_MAX && ContentKept(ps, ps')
    ensures Delivered(ps', h', ds, from)
  {
  }

  lemma ProducerKeepsContent(s: State, p: nat, a: ProducerAction, s': State)
    requires NextProducer(s, p, a, s')
    ensures ContentKept(s.producers, s'.producers)
    ensures p in s.producers ==> s'.producers[p].location == s.producers[p].location
  {
  }

  lemma ProducerKeepsFiles(s: State, p: nat, a: ProducerAction, s': State)
    requires NextProducer(s, p, a, s') && FileInv(s.files, s.producers) && AssignInv(s.producers, s.history)
    ensures FileInv(s'.files, s'.producers)
  {
  }

  lemma ProducerKeepsHead(s: State, p: nat, a: ProducerAction, s': State)
    requires NextProducer(s, p, a, s') && QueueInv(s.store, s.history)
    ensures Head(s') == Head(s)
  {
  }

  lemma ProducerDelivers(s: State, p: nat, a: ProducerAction, s': State)
    requires NextProducer(s, p, a, s') && HistoryInv(s) && DeliveryInv(s)
    ensures DeliveryInv(s')
  {
    ProducerWrites(s, p, a, s');
    ProducerKeepsContent(s, p, a, s');
    ProducerKeepsFiles(s, p, a, s');
    ProducerKeepsHead(s, p, a, s');
    DeliveredStable(s.producers, s.history, s'.producers, s'.history, s.committed, 0);
    if s.owner.Some? {
      var w := s.consumers[s.owner.value];
      DeliveredStable(s.producers, s.history, s'.producers, s'.history, w.pending, |s.committed|);
    }
  }

  // ----- consumer steps -----

  lemma ConsumerKeepsAcks(s: State, k: nat, a: ConsumerAction, s': State)
    requires NextConsumer(s, k, a, s') && |s.committed| <= U64_MAX
    requires forall l :: l in s.consumers ==> AcksCommitted(s.consumers[l], |s.committed|)
    requires forall i :: 0 <= i < |s.committed| ==> s.committed[i].entry.sequence == i
    ensures forall l :: l in s'.consumers ==> AcksCommitted(s'.consumers[l], |s'.committed|)
  {
    assert k in s.consumers ==> AcksCommitted(s.consumers[k], |s.committed|);
    assert AcksCommitted(s'.consumers[k], |s.committed|);
    assert |s.committed| <= |s'.committed|;
  }

  /** Dequeuing removes committed entries only. */
  lemma ConsumerKeepsHead(s: State, k: nat, a: ConsumerAction, s': State)
    requires NextConsumer(s, k, a, s') && QueueInv(s.store, s.history) && Head(s) <= |s.committed|
    requires k in s.consumers ==> AcksCommitted(s.consumers[k], |s.committed|)
    ensures Head(s') <= |s'.committed|
  {
    if a.Dequeue? {
      DequeueKeepsSuffix(Current(s.store), s.history, s.consumers[k].phase.through);
    }
  }

  /** What `next_batch` finds is the entry right after the cursor, whenever there is one. */
  lemma NextEntryIs(m: ManifestRec, h: seq<Enqueued>, w: Consumer, n: nat)
    requires |h| <= U64_MAX && Suffix(m, h) && |h| - |m.entries| <= n <= |h|
    requires w.lastFetched == Cursor(n)
    ensures NextEntry(w, m) == if n < |h| then Some(EntryAt(h, n)) else None
  {
    if n > 0 {
      FindIs(m.entries, n);
      if n < |h| {
        assert m.entries[n - (|h| - |m.entries|)] == EntryAt(h, n);
      }
    } else if |h| > 0 {
      assert m.entries[0] == EntryAt(h, 0);
    }
  }

  lemma CommitMoves(s: State, k: nat, s': State)
    requires NextConsumer(s, k, Commit, s') && CursorOk(s, s.consumers[k])
    requires Delivered(s.producers, s.history, s.committed, 0)
    ensures Delivered(s'.producers, s'.history, s'.committed, 0)
    ensures CursorOk(s', s'.consumers[k])
  {
  }

  lemma FetchMoves(s: State, k: nat, s': State)
    requires NextConsumer(s, k, Fetch(true), s') && HistoryInv(s) && FileInv(s.files, s.producers)
    requires CursorOk(s, s.consumers[k])
    ensures CursorOk(s', s'.consumers[k])
  {
    var w := s.consumers[k];
    var n := |s.committed| + |w.pending|;
    assert Owned(s.producers, s.history, n);
    var ds := s'.consumers[k].pending;
    forall i | 0 <= i < |ds|
      ensures IsDelivery(s.producers, s.history, |s.committed| + i, ds[i])
    {
      if i < |w.pending| {
        assert IsDelivery(s.producers, s.history, |s.committed| + i, w.pending[i]);
      }
    }
  }

  lemma NextMoves(s: State, k: nat, s': State)
    requires NextConsumer(s, k, NextBatch, s') && HistoryInv(s) && Head(s) <= |s.committed|
    requires CursorOk(s, s.consumers[k])
    ensures CursorOk(s', s'.consumers[k])
  {
    var w, m := s.consumers[k], Current(s.store);
    NextEntryIs(m, s.history, w, |s.committed| + |w.pending|);
  }

  lemma StartMoves(s: State, k: nat, s': State)
    requires NextConsumer(s, k, Start, s') && Delivered(s.producers, s.history, s.committed, 0)
    ensures CursorOk(s', s'.consumers[k])
  {
  }

  lemma OtherMoves(s: State, k: nat, a: ConsumerAction, s': State)
    requires NextConsumer(s, k, a, s')
    requires !(a.Commit? || a.Fetch? || a.NextBatch? || a.Start?) || a == Fetch(false)
    ensures s'.committed == s.committed && s'.owner == s.owner
    ensures s'.consumers[k].pending == s.consumers[k].pending
    ensures s'.consumers[k].lastFetched == s.consumers[k].lastFetched
    ensures s'.consumers[k].phase.Fetching? ==> s'.consumers[k].phase == s.consumers[k].phase
  {
  }

  /** A step of a consumer that does not own the database leaves the owner's cursor alone. */
  lemma BystanderMoves(s: State, k: nat, a: ConsumerAction, s': State)
    requires NextConsumer(s, k, a, s') && s.owner != Some(k) && !a.Start?
    ensures s'.committed == s.committed && s'.owner == s.owner
    ensures s.owner.Some? && s.owner.value in s.consumers ==>
              s'.consumers[s.owner.value] == s.consumers[s.owner.value]
  {
  }

  lemma OwnerMoves(s: State, k: nat, a: ConsumerAction, s': State)
    requires NextConsumer(s, k, a, s') && HistoryInv(s) && DeliveryInv(s)
    requires s.owner == Some(k) || a.Start?
    ensures Delivered(s'.producers, s'.history, s'.committed, 0)
    ensures s'.owner == Some(k) && CursorOk(s', s'.consumers[k])
  {
    if a.Start? {
      StartMoves(s, k, s');
    } else if a.Commit? {
      CommitMoves(s, k, s');
    } else if a == Fetch(true) {
      FetchMoves(s, k, s');
    } else if a.NextBatch? {
      NextMoves(s, k, s');
    } else {
      OtherMoves(s, k, a, s');
    }
  }

  lemma CommittedNumbers(s: State)
    requires Delivered(s.producers, s.history, s.committed, 0)
    ensures forall i :: 0 <= i < |s.committed| ==> s.committed[i].entry.sequence == i
  {
  }

  lemma ConsumerDelivers(s: State, k: nat, a: ConsumerAction, s': State)
    requires NextConsumer(s, k, a, s') && HistoryInv(s) && DeliveryInv(s)
    ensures DeliveryInv(s')
  {
    CommittedNumbers(s);
    ConsumerKeepsAcks(s, k, a, s');
    ConsumerKeepsHead(s, k, a, s');
    if s.owner == Some(k) || a.Start? {
      OwnerMoves(s, k, a, s');
    } else {
      BystanderMoves(s, k, a, s');
    }
  }

  lemma CollectorDelivers(c: Config, s: State, g: nat, a: CollectorAction, s': State)
    requires NextCollector(c, s, g, a, s') && DeliveryInv(s)
    ensures DeliveryInv(s')
  {
  }

  lemma CommitsOnlyAppend(s: State, k: nat, a: ConsumerAction, s': State)
    requires NextConsumer(s, k, a, s')
    ensures s.committed <= s'.committed
  {
  }

  lemma DeliveryStep(c: Config, s: State, step: Step, s': State)
    requires Next(c, s, step, s') && HistoryInv(s) && DeliveryInv(s)
    ensures DeliveryInv(s')
  {
    match step
    case Tick(_) =>
      if s.owner.Some? {
        assert CursorOk(s', s'.consumers[s.owner.value]);
      }
    case ByProducer(p, a) => ProducerDelivers(s, p, a, s');
    case ByConsumer(k, a) => ConsumerDelivers(s, k, a, s');
    case ByCollector(g, a) => CollectorDelivers(c, s, g, a, s');
  }

  lemma {:induction false} DeliveryAlong(c: Config, states: seq<State>, steps: seq<Step>, n: nat)
    requires Run(c, states, steps) && n < |states|
    ensures DeliveryInv(states[n])
    decreases n
  {
    if n > 0 {
      DeliveryAlong(c, states, steps, n - 1);
      HistoryAlong(c, states, steps, n - 1);
      assert StepAt(c, states, steps, n - 1);
      DeliveryStep(c, states[n - 1], steps[n - 1], states[n]);
    }
  }

  /** The committed batches are always a prefix of the enqueue history: every position once,
      in order, with the sequence number, location and metadata of the entry and the bytes
      its producer wrote; and no entry has left the manifest before it was committed. */
  lemma ExactlyOnce(c: Config, states: seq<State>, steps: seq<Step>, n: nat)
    requires Run(c, states, steps) && n < |states|
    ensures var s := states[n];
            && |s.committed| <= |s.history| <= U64_MAX
            && (forall i :: 0 <= i < |s.committed| ==>
                  && s.history[i].call in s.producers
                  && s.committed[i] == Delivery(EntryAt(s.history, i), s.producers[s.history[i].call].content))
            && |s.history| - |Current(s.store).entries| <= |s.committed|
  {
    DeliveryAlong(c, states, steps, n);
    var s := states[n];
    forall i | 0 <= i < |s.committed|
      ensures s.history[i].call in s.producers
      ensures s.committed[i] == Delivery(EntryAt(s.history, i), s.producers[s.history[i].call].content)
    {
      assert IsDelivery(s.producers, s.history, i, s.committed[i]);
    }
  }

  /** Nothing queued is passed over: in every run the consumer that may commit, as long as it
      is not fenced, is given the entry right after the last one it fetched whenever that has
      been enqueued, and nothing only when it has fetched them all. */
  lemma NextIsGiven(c: Config, states: seq<State>, steps: seq<Step>, i: nat, k: nat)
    requires Run(c, states, steps) && i < |states| && states[i].owner == Some(k)
    ensures k in states[i].consumers
    ensures var s := states[i];
            var w, n := s.consumers[k], |s.committed| + |s.consumers[k].pending|;
            && n <= |s.history| <= U64_MAX
            && w.lastFetched == Cursor(n)
            && NextEntry(w, Current(s.store)) == (if n < |s.history| then Some(EntryAt(s.history, n)) else None)
            && (w.epoch == Current(s.store).epoch && n < |s.history| ==>
                  ReadingNext(s, w).phase == Fetching(EntryAt(s.history, n)))
  {
    DeliveryAlong(c, states, steps, i);
    HistoryAlong(c, states, steps, i);
    var s := states[i];
    NextEntryIs(Current(s.store), s.history, s.consumers[k], |s.committed| + |s.consumers[k].pending|);
  }

  /** What is committed stays committed. */
  lemma {:induction false} CommitsGrow(c: Config, states: seq<State>, steps: seq<Step>, m: nat, n: nat)
    requires Run(c, states, steps) && m <= n < |states|
    ensures states[m].committed <= states[n].committed
    decreases n
  {
    if m < n {
      CommitsGrow(c, states, steps, m, n - 1);
      CommitsGrowOnce(c, states, steps, n - 1);
    }
  }

  lemma CommitsGrowOnce(c: Config, states: seq<State>, steps: seq<Step>, i: nat)
    requires Run(c, states, steps) && i < |steps|
    ensures states[i].committed <= states[i + 1].committed
  {
    assert StepAt(c, states, steps, i);
    if steps[i].ByConsumer? {
      CommitsOnlyAppend(states[i], steps[i].k, steps[i].consumerAction, states[i + 1]);
    }
  }
}
