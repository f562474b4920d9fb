/** The protocol down to bytes: every conditional write reads an image, edits the buffers and
    writes the image of the next record (buffer/src/queue.rs). */
module BufferBytes {
  import opened ByteStrings
  import opened QueueCodec
  import opened Manifests
  import opened BufferProtocol
  import opened BufferHistory

  /** The object in the store is the image of the record, or both are absent. */
  predicate StoredAs(stored: Option<Bytes>, store: Option<ManifestRec>)
  {
    if store.None? then stored.None? else stored == Some(Image(store.value))
  }

  /** Reads the manifest; an absent one is empty. */
  method ReadManifest(stored: Option<Bytes>, ghost store: Option<ManifestRec>) returns (r: Result<Manifest>)
    ensures r.Ok? ==> fresh(r.value) && r.value.Framed()
    ensures StoredAs(stored, store) && WellFormed(Current(store)) ==>
              r.Ok? && r.value.Valid() && r.value.Record() == Current(store)
  {
    hide Image, Represents, AllFit;
    if stored.None? {
      var m := new Manifest.Empty();
      return Ok(m);
    }
    r := Manifest.FromBytes(stored.value, Current(store));
  }

  /** The bytes an enqueue writes are the image of the record with the entry appended; a
      manifest that is full is not written. */
  method AppendBytes(stored: Option<Bytes>, location: Bytes, metadata: seq<Metadata>, ghost store: Option<ManifestRec>)
    returns (r: Result<Bytes>)
    ensures !PayloadsFit(metadata) ==> r.Err?
    ensures StoredAs(stored, store) && WellFormed(Current(store)) && Fits(QueueEntry(0, location, metadata)) ==>
              && (r.Ok? <==> |Current(store).entries| < U32_MAX)
              && (r.Ok? ==> r.value == Image(AppendRec(Current(store), location, metadata)))
  {
    hide Image, AllFit, StoredAs, Represents;
    var manifest := ReadManifest(stored, store);
    if manifest.Err? {
      return Err(manifest.error);
    }
    var m := manifest.value;
    var appended := m.Append(QueueEntry(0, location, metadata));
    if appended.Err? {
      return Err(appended.error);
    }
    r := m.ToBytes();
  }

  /** The bytes a dequeue writes are the image of the record without the entries at or below
      the bound, which it returns. */
  method DequeueBytes(stored: Option<Bytes>, through: u64, ghost store: Option<ManifestRec>)
    returns (r: Result<Bytes>, removed: seq<QueueEntry>)
    ensures StoredAs(stored, store) && WellFormed(Current(store)) && Ascending(Current(store).entries) ==>
              && r == Ok(Image(DequeueRec(Current(store), through)))
              && removed + Keep(Current(store).entries, through) == Current(store).entries
  {
    hide Image, AllFit, StoredAs, Represents, Keep, Ascending;
    removed := [];
    var manifest := ReadManifest(stored, store);
    if manifest.Err? {
      return Err(manifest.error), removed;
    }
    var m := manifest.value;
    var split := m.Dequeue(through);
    if split.Err? {
      return Err(split.error), removed;
    }
    removed := split.value;
    r := m.ToBytes();
  }

  /** The bytes an initialization writes are the image of the record with the next epoch. */
  method EpochBytes(stored: Option<Bytes>, ghost store: Option<ManifestRec>) returns (r: Result<Bytes>)
    ensures StoredAs(stored, store) && WellFormed(Current(store)) ==>
              r == Ok(Image(Current(store).(epoch := NextEpoch(Current(store).epoch))))
  {
    hide Image, AllFit, StoredAs, Represents;
    var manifest := ReadManifest(stored, store);
    if manifest.Err? {
      return Err(manifest.error);
    }
    var m := manifest.value;
    m.SetEpoch(NextEpoch(m.epoch));
    r := m.ToBytes();
  }

  // ----- what is stored in every run -----

  ghost predicate AllWritable(ps: map<nat, Producer>)
  {
    forall p :: p in ps ==> Fits(QueueEntry(0, ps[p].location, ps[p].metadata))
  }

  lemma {:induction false} KeepFits(es: seq<QueueEntry>, t: u64)
    requires AllFit(es)
    ensures AllFit(Keep(es, t)) && |Keep(es, t)| <= |es|
  {
    if es != [] {
      KeepFits(es[1..], t);
    }
  }

  lemma FitsAnySequence(location: Bytes, metadata: seq<Metadata>, q: u64)
    ensures Fits(QueueEntry(q, location, metadata)) <==> Fits(QueueEntry(0, location, metadata))
  {
  }

  lemma WritableStep(c: Config, s: State, step: Step, s': State)
    requires Next(c, s, step, s') && AllWritable(s.producers) && WellFormed(Current(s.store))
    ensures AllWritable(s'.producers) && WellFormed(Current(s'.store))
  {
    hide Fits;
    if step.ByProducer? && step.producerAction.Append? {
      var w := s.producers[step.p];
      FitsAnySequence(w.location, w.metadata, Current(s.store).nextSequence);
    } else if step.ByConsumer? && step.consumerAction.Dequeue? {
      KeepFits(Current(s.store).entries, s.consumers[step.k].phase.through);
    }
  }

  lemma {:induction false} WritableAlong(c: Config, states: seq<State>, steps: seq<Step>, n: nat)
    requires Run(c, states, steps) && n < |states|
    ensures AllWritable(states[n].producers) && WellFormed(Current(states[n].store))
    decreases n
  {
    hide Next, Fits, AllWritable, WellFormed;
    if n == 0 {
      StartWritable();
    } else {
      WritableAlong(c, states, steps, n - 1);
      assert StepAt(c, states, steps, n - 1);
      WritableStep(c, states[n - 1], steps[n - 1], states[n]);
    }
  }

  lemma StartWritable()
    ensures AllWritable(START.producers) && WellFormed(Current(START.store))
  {
  }

  /** One of the three conditional writes, with what makes its bytes the image of its result. */
  ghost predicate IsWrite(m: ManifestRec, m': ManifestRec)
  {
    || m' == m.(epoch := NextEpoch(m.epoch))
    || (exists t: u64 :: m' == DequeueRec(m, t))
    || (|m.entries| < U32_MAX && m.nextSequence < U64_MAX && exists location, metadata ::
          Fits(QueueEntry(0, location, metadata)) && m' == AppendRec(m, location, metadata))
  }

  /** In every run the stored manifest fits its image and ascends, so the three methods above
      apply to it, and it changes only by what they write. */
  lemma StoredImages(c: Config, states: seq<State>, steps: seq<Step>, n: nat)
    requires Run(c, states, steps) && n < |states|
    ensures WellFormed(Current(states[n].store)) && Ascending(Current(states[n].store).entries)
    ensures n < |steps| && states[n + 1].store != states[n].store ==>
              states[n + 1].store.Some? && IsWrite(Current(states[n].store), states[n + 1].store.value)
  {
    hide Fits, Suffix, WellFormed;
    WritableAlong(c, states, steps, n);
    QueueHistory(c, states, steps, n, n);
    SuffixAscending(Current(states[n].store), states[n].history);
    if n < |steps| {
      assert StepAt(c, states, steps, n);
    }
    if n < |steps| && states[n + 1].store != states[n].store {
      WriteStep(c, states[n], steps[n], states[n + 1]);
    }
  }

  lemma WriteStep(c: Config, s: State, step: Step, s': State)
    requires Next(c, s, step, s') && AllWritable(s.producers) && s'.store != s.store
    ensures s'.store.Some? && IsWrite(Current(s.store), s'.store.value)
  {
    hide Fits;
  }
}
