/** Consumer fencing by epochs, over every run. */
module BufferFencing {
  import opened ByteStrings
  import opened Manifests
  import opened BufferProtocol
  import opened BufferHistory

  /** Epochs are 64-bit values without the one that means "not initialized". */
  const EPOCHS: nat := 0xFFFF_FFFF_FFFF_FFFF

  lemma NextEpochCounts(e: u64, n: nat)
    requires e == n % EPOCHS
    ensures NextEpoch(e) == (n + 1) % EPOCHS
  {
  }

  /** A consumer's epoch is the number of its initialization, and a dequeue that is under
      way read a manifest with that epoch. */
  predicate EpochOk(w: Consumer, inits: nat)
  {
    && (w.initIndex.None? ==> w.epoch == UNINITIALIZED)
    && (w.initIndex.Some? ==> 1 <= w.initIndex.value <= inits && w.epoch == w.initIndex.value % EPOCHS)
    && PhaseOk(w)
  }

  predicate PhaseOk(w: Consumer)
  {
    && (w.phase.DequeueHolding? ==> Current(w.phase.snapshot).epoch == w.epoch)
    && (w.phase.Fresh? || w.phase.InitHolding? ==> w.initIndex.None?)
  }

  predicate EpochInv(store: Option<ManifestRec>, inits: nat, consumers: map<nat, Consumer>)
  {
    && Current(store).epoch == inits % EPOCHS
    && (forall k :: k in consumers ==> EpochOk(consumers[k], inits))
    && (forall k, l :: k in consumers && l in consumers && k != l && consumers[k].initIndex.Some? ==>
          consumers[k].initIndex != consumers[l].initIndex)
  }

  /** A consumer's epoch changes only by its own successful initialization, and a dequeue
      takes hold of the manifest only under a matching epoch. */
  lemma ConsumerKeepsEpoch(s: State, k: nat, a: ConsumerAction, s': State)
    requires NextConsumer(s, k, a, s') && !a.Init?
    requires k in s.consumers ==> EpochOk(s.consumers[k], s.inits)
    ensures PhaseOk(s'.consumers[k])
    ensures k in s.consumers ==> s'.consumers[k].epoch == s.consumers[k].epoch
                                 && s'.consumers[k].initIndex == s.consumers[k].initIndex
    ensures k !in s.consumers ==> s'.consumers[k].initIndex.None? && s'.consumers[k].epoch == UNINITIALIZED
  {
  }

  lemma EpochStep(c: Config, s: State, step: Step, s': State)
    requires Next(c, s, step, s') && QueueInv(s.store, s.history) && EpochInv(s.store, s.inits, s.consumers)
    ensures EpochInv(s'.store, s'.inits, s'.consumers)
  {
    if step.ByProducer? {
      ProducerWrites(s, step.p, step.producerAction, s');
    } else if step.ByConsumer? {
      var k, a := step.k, step.consumerAction;
      if a.Init? {
        InitKeepsEpochs(s, k, a.ok, s');
      } else {
        ConsumerWrites(s, k, a, s');
        ConsumerKeepsEpoch(s, k, a, s');
        ReplaceConsumer(s.store, s'.store, s.inits, s.consumers, k, s'.consumers[k]);
      }
    }
  }

  lemma ReplaceConsumer(store: Option<ManifestRec>, store': Option<ManifestRec>, inits: nat,
                        cs: map<nat, Consumer>, k: nat, w: Consumer)
    requires EpochInv(store, inits, cs) && Current(store').epoch == Current(store).epoch
    requires k in cs ==> w.epoch == cs[k].epoch && w.initIndex == cs[k].initIndex
    requires k !in cs ==> w.initIndex.None? && w.epoch == UNINITIALIZED
    requires PhaseOk(w)
    ensures EpochInv(store', inits, cs[k := w])
  {
  }

  lemma InitKeepsEpochs(s: State, k: nat, ok: bool, s': State)
    requires NextConsumer(s, k, Init(ok), s') && EpochInv(s.store, s.inits, s.consumers)
    ensures EpochInv(s'.store, s'.inits, s'.consumers)
  {
    NextEpochCounts(Current(s.store).epoch, s.inits);
    assert EpochOk(s.consumers[k], s.inits);
    forall l | l in s'.consumers
      ensures EpochOk(s'.consumers[l], s'.inits)
      ensures l != k && s'.consumers[l].initIndex.Some? ==> s'.consumers[l].initIndex.value <= s.inits
    {
      assert EpochOk(s.consumers[l], s.inits);
    }
  }

  lemma {:induction false} EpochsAlong(c: Config, states: seq<State>, steps: seq<Step>, n: nat)
    requires Run(c, states, steps) && n < |states|
    ensures EpochInv(states[n].store, states[n].inits, states[n].consumers)
    decreases n
  {
    if n > 0 {
      EpochsAlong(c, states, steps, n - 1);
      HistoryAlong(c, states, steps, n - 1);
      assert StepAt(c, states, steps, n - 1);
      EpochStep(c, states[n - 1], steps[n - 1], states[n]);
    }
  }

  /** Exactly when the manifest carries a consumer's epoch: never before it is initialized,
      and afterwards only while the initializations since are a multiple of the number of epochs. */
  lemma MatchesIff(c: Config, states: seq<State>, steps: seq<Step>, n: nat, k: nat)
    requires Run(c, states, steps) && n < |states| && k in states[n].consumers
    ensures var s := states[n]; var w := s.consumers[k];
            Current(s.store).epoch == w.epoch <==>
            w.initIndex.Some? && (s.inits - w.initIndex.value) % EPOCHS == 0
  {
    EpochsAlong(c, states, steps, n);
    assert EpochOk(states[n].consumers[k], states[n].inits);
  }

  /** A step in which consumer `k` takes entries out of the manifest, or gets one from it. */
  predicate Effective(s: State, step: Step, s': State, k: nat)
  {
    && step.ByConsumer? && step.k == k
    && (|| step.consumerAction.Dequeue?
        || (step.consumerAction.NextBatch? && s'.consumers != s.consumers)
        || (step.consumerAction.ReadForDequeue? && k in s'.consumers && s'.consumers[k].phase.DequeueHolding?))
  }

  lemma EffectiveMatches(c: Config, s: State, step: Step, s': State, k: nat)
    requires Next(c, s, step, s') && EpochInv(s.store, s.inits, s.consumers) && Effective(s, step, s', k)
    ensures k in s.consumers && Current(s.store).epoch == s.consumers[k].epoch
  {
  }

  /** Once a later initialization has taken effect, no dequeue of an earlier consumer ever
      does, even if it read the manifest before, and no read gives it an entry. The same
      holds of a consumer that was never initialized. */
  lemma Fencing(c: Config, states: seq<State>, steps: seq<Step>, i: nat, k: nat)
    requires Run(c, states, steps) && i < |steps| && k in states[i].consumers
    requires states[i].inits < EPOCHS
    requires var x := states[i].consumers[k].initIndex; x.None? || states[i].inits > x.value
    ensures !Effective(states[i], steps[i], states[i + 1], k)
  {
    EpochsAlong(c, states, steps, i);
    MatchesIff(c, states, steps, i, k);
    assert EpochOk(states[i].consumers[k], states[i].inits);
    assert StepAt(c, states, steps, i);
    if Effective(states[i], steps[i], states[i + 1], k) {
      EffectiveMatches(c, states[i], steps[i], states[i + 1], k);
    }
  }

  /** Initializations are counted for good, and a consumer keeps its number. */
  lemma {:induction false} FencedForGood(c: Config, states: seq<State>, steps: seq<Step>, m: nat, n: nat, k: nat)
    requires Run(c, states, steps) && m <= n < |states| && k in states[m].consumers
    requires states[m].consumers[k].initIndex.Some?
    ensures k in states[n].consumers && states[n].inits >= states[m].inits
    ensures states[n].consumers[k].initIndex == states[m].consumers[k].initIndex
    decreases n
  {
    if m < n {
      FencedForGood(c, states, steps, m, n - 1, k);
      assert StepAt(c, states, steps, n - 1);
      EpochsAlong(c, states, steps, n - 1);
      KeepsNumber(c, states[n - 1], steps[n - 1], states[n], k);
    }
  }

  lemma KeepsNumber(c: Config, s: State, step: Step, s': State, k: nat)
    requires Next(c, s, step, s') && k in s.consumers && s.consumers[k].initIndex.Some?
    requires EpochInv(s.store, s.inits, s.consumers)
    ensures k in s'.consumers && s'.inits >= s.inits
    ensures s'.consumers[k].initIndex == s.consumers[k].initIndex
  {
    if step.ByConsumer? {
      var a := step.consumerAction;
      assert EpochOk(s.consumers[k], s.inits);
      if !a.Init? {
        assert step.k in s.consumers ==> EpochOk(s.consumers[step.k], s.inits);
        ConsumerKeepsEpoch(s, step.k, a, s');
      }
    }
  }
}
