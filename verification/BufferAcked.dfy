/** The buffer's promise end to end: what a caller was told is stored can be read back. */
module BufferAcked {
  import opened ByteStrings
  import opened QueueCodec
  import opened BatchFiles
  import opened ProducerBatches
  import opened BufferActors
  import opened BufferProtocol
  import opened BufferHistory
  import opened BufferDelivery
  import opened BufferGc

  /** Decoding the file and cutting it by the metadata gives call `i` its own entries. */
  predicate CutsCall(es: seq<Bytes>, ms: seq<Metadata>, calls: seq<Call>, i: nat)
    requires i < |calls| == |ms|
  {
    && ms[i].startIndex <= (if i + 1 < |ms| then ms[i + 1].startIndex else |es|) <= |es|
    && Slice(es, ms, i) == calls[i].entries
    && ms[i].ingestionTimeMs == calls[i].timeMs && ms[i].payload == calls[i].payload
  }

  predicate Recovers(z: Compressor, content: Bytes, ms: seq<Metadata>, calls: seq<Call>)
  {
    && ReadBatch(z, content).Ok?
    && |ms| == |calls|
    && forall i :: 0 <= i < |calls| ==> CutsCall(ReadBatch(z, content).value, ms, calls, i)
  }

  lemma {:induction false} AllEntriesFit(calls: seq<Call>)
    requires forall j :: 0 <= j < |calls| ==> CallOk(calls[j])
    ensures forall i :: 0 <= i < |AllEntries(calls)| ==> |AllEntries(calls)[i]| <= U32_MAX
  {
    if calls != [] {
      var n := |calls| - 1;
      AllEntriesFit(calls[..n]);
      assert CallOk(calls[n]);
    }
  }

  lemma WrittenRecovers(z: Compressor, how: Compression, calls: seq<Call>)
    requires |AllEntries(calls)| <= U32_MAX && Inverts(z)
    requires forall j :: 0 <= j < |calls| ==> CallOk(calls[j])
    ensures Recovers(z, BatchImage(z, how, AllEntries(calls)), Ranges(calls), calls)
  {
    AllEntriesFit(calls);
    BatchRoundTrip(z, how, AllEntries(calls));
    forall i | 0 <= i < |calls|
      ensures CutsCall(AllEntries(calls), Ranges(calls), calls, i)
    {
      SlicesAreCalls(calls, i);
    }
  }

  /** The call's one place in the history. */
  predicate Placed(s: State, p: nat)
  {
    && p in s.producers && s.producers[p].phase.Succeeded?
    && var w, q := s.producers[p], s.producers[p].phase.sequence;
    && q < |s.history| <= U64_MAX && s.history[q] == Enqueued(p, w.location, w.metadata)
    && forall i :: 0 <= i < |s.history| && s.history[i].call == p ==> i == q
  }

  /** The entry at `q` was committed downstream with the call's own content. */
  predicate CommittedAt(s: State, w: Producer, q: u64)
  {
    q < |s.committed| && s.committed[q] == Delivery(QueueEntry(q, w.location, w.metadata), w.content)
  }

  /** The entry at `q` is in the manifest, and its file holds the call's own content. */
  predicate QueuedAt(s: State, w: Producer, q: u64)
  {
    && Head(s) <= q < |s.history|
    && 0 <= q - Head(s) < |Current(s.store).entries|
    && Current(s.store).entries[q - Head(s)] == QueueEntry(q, w.location, w.metadata)
    && w.location in s.files && s.files[w.location] == w.content
  }

  lemma PlaceOf(c: Config, states: seq<State>, steps: seq<Step>, n: nat, p: nat)
    requires Run(c, states, steps) && n < |states|
    requires p in states[n].producers && states[n].producers[p].phase.Succeeded?
    ensures Placed(states[n], p)
  {
    QueueHistory(c, states, steps, n, n);
  }

  lemma StillQueued(c: Config, states: seq<State>, steps: seq<Step>, n: nat, p: nat)
    requires Run(c, states, steps) && n < |states| && GraceOk(c) && OnTime(c, states, steps) && Placed(states[n], p)
    requires Head(states[n]) <= states[n].producers[p].phase.sequence
    ensures QueuedAt(states[n], states[n].producers[p], states[n].producers[p].phase.sequence)
  {
    QueueHistory(c, states, steps, n, n);
    DanglingFree(c, states, steps, n);
    var s := states[n];
    var q := s.producers[p].phase.sequence;
    assert Current(s.store).entries[q - Head(s)] == EntryAt(s.history, q);
  }

  // ----- a call that has returned stays as it is -----

  lemma FinishedStep(c: Config, s: State, step: Step, s': State, p: nat)
    requires Next(c, s, step, s') && p in s.producers
    requires s.producers[p].phase.Succeeded? || s.producers[p].phase.Failed?
    ensures p in s'.producers && s'.producers[p] == s.producers[p]
  {
  }

  lemma {:induction false} FinishedStays(c: Config, states: seq<State>, steps: seq<Step>, m: nat, n: nat, p: nat)
    requires Run(c, states, steps) && m <= n < |states| && p in states[m].producers
    requires states[m].producers[p].phase.Succeeded? || states[m].producers[p].phase.Failed?
    ensures p in states[n].producers && states[n].producers[p] == states[m].producers[p]
    decreases n
  {
    hide Next;
    if m < n {
      FinishedStays(c, states, steps, m, n - 1, p);
      assert StepAt(c, states, steps, n - 1);
      FinishedStep(c, states[n - 1], steps[n - 1], states[n], p);
    }
  }

  lemma BackedStays(c: Config, states: seq<State>, steps: seq<Step>, m: nat, n: nat,
                    ws: seq<Written>, z: Compressor, how: Compression)
    requires Run(c, states, steps) && m <= n < |states| && Backed(ws, states[m], z, how)
    ensures Backed(ws, states[n], z, how)
  {
    hide Run;
    forall j | 0 <= j < |ws|
      ensures Returned(states[n], ws[j].producer, z, how, ws[j])
    {
      assert Returned(states[m], ws[j].producer, z, how, ws[j]);
      FinishedStays(c, states, steps, m, n, ws[j].producer);
    }
  }

  /** Once a write has succeeded, then in every later state its batch holds the same one
      place in the history, and it is still queued, with its file, or already committed
      downstream. */
  lemma QueuedOrCommitted(c: Config, states: seq<State>, steps: seq<Step>, m: nat, n: nat, p: nat)
    requires Run(c, states, steps) && m <= n < |states| && GraceOk(c) && OnTime(c, states, steps)
    requires p in states[m].producers && states[m].producers[p].phase.Succeeded?
    ensures Placed(states[n], p) && states[n].producers[p] == states[m].producers[p]
    ensures var s, w, q := states[n], states[n].producers[p], states[n].producers[p].phase.sequence;
            QueuedAt(s, w, q) || CommittedAt(s, w, q)
  {
    FinishedStays(c, states, steps, m, n, p);
    PlaceOf(c, states, steps, n, p);
    ExactlyOnce(c, states, steps, n);
    var s := states[n];
    var q := s.producers[p].phase.sequence;
    if q < |s.committed| {
      assert s.committed[q] == Delivery(EntryAt(s.history, q), s.producers[s.history[q].call].content);
    } else {
      StillQueued(c, states, steps, n, p);
    }
  }

  // ----- a call of the protocol is a run of the code -----

  /** The steps that call `p` takes between states `m` and `n`. */
  ghost function StepsOf(states: seq<State>, steps: seq<Step>, p: nat, m: nat, n: nat): seq<Act>
    requires m <= n <= |steps| && |states| == |steps| + 1
    decreases n
  {
    if m == n then []
    else
      StepsOf(states, steps, p, m, n - 1) +
      (if steps[n - 1].ByProducer? && steps[n - 1].p == p
       then [ActOf(steps[n - 1].producerAction, states[n - 1].store)] else [])
  }

  lemma OneStepOf(c: Config, s: State, step: Step, s': State, p: nat)
    requires Next(c, s, step, s') && p in s.producers
    ensures p in s'.producers
    ensures Some(s'.producers[p]) ==
            if step.ByProducer? && step.p == p then Moved(s.producers[p], ActOf(step.producerAction, s.store))
            else Some(s.producers[p])
  {
    if step.ByProducer? && step.p == p {
      MovedInState(s, p, step.producerAction);
    }
  }

  lemma {:induction false} MovesAlong(c: Config, states: seq<State>, steps: seq<Step>, p: nat, m: nat, n: nat)
    requires Run(c, states, steps) && m <= n <= |steps| && p in states[m].producers
    ensures p in states[n].producers
    ensures MovedAll(states[m].producers[p], StepsOf(states, steps, p, m, n)) == Some(states[n].producers[p])
    decreases n
  {
    hide Next, Moved;
    if m < n {
      MovesAlong(c, states, steps, p, m, n - 1);
      assert StepAt(c, states, steps, n - 1);
      OneStepOf(c, states[n - 1], steps[n - 1], states[n], p);
      var front := StepsOf(states, steps, p, m, n - 1);
      if steps[n - 1].ByProducer? && steps[n - 1].p == p {
        var a := ActOf(steps[n - 1].producerAction, states[n - 1].store);
        assert (front + [a])[..|front|] == front;
      } else {
        assert front + [] == front;
      }
    }
  }

  /** When the steps of a protocol call are those of the code's write of a batch, the call
      ends as the write returns. This is what the writer task's `Made` says of it. */
  lemma MadeByRun(c: Config, states: seq<State>, steps: seq<Step>, p: nat, m: nat, n: nat,
                  z: Compressor, how: Compression, calls: seq<Call>, io: WriteIo)
    requires Run(c, states, steps) && m <= n <= |steps| && |AllEntries(calls)| <= U32_MAX
    requires p in states[m].producers && states[m].producers[p] ==
             Producer(io.location, Ranges(calls), BatchImage(z, how, AllEntries(calls)), Writing)
    requires StepsOf(states, steps, p, m, n) == Acts(io, Ranges(calls))
    ensures Made(states[n], p, z, how, calls, io)
  {
    hide StepAt, MovedAll, Acts, EndPhase, BatchImage;
    MovesAlong(c, states, steps, p, m, n);
    WriteIsCall(states[m].producers[p], io);
  }

  // ----- what a write leaves behind, whatever it returned -----

  /** The history has an entry of the call. */
  ghost predicate InHistory(s: State, p: nat)
  {
    exists i :: 0 <= i < |s.history| && s.history[i].call == p
  }

  lemma HistoryStep(c: Config, s: State, step: Step, s': State, p: nat)
    requires Next(c, s, step, s')
    ensures InHistory(s', p) <==>
            InHistory(s, p) || (step.ByProducer? && step.p == p && step.producerAction.Append?)
  {
    if InHistory(s, p) {
      var i :| 0 <= i < |s.history| && s.history[i].call == p;
      assert s'.history[i] == s.history[i];
    }
    if step.ByProducer? && step.producerAction.Append? {
      assert s'.history[|s.history|].call == step.p;
    }
  }

  lemma {:induction false} HistoryOf(c: Config, states: seq<State>, steps: seq<Step>, p: nat, m: nat, n: nat)
    requires Run(c, states, steps) && m <= n <= |steps|
    ensures InHistory(states[n], p) <==> InHistory(states[m], p) || Appends(StepsOf(states, steps, p, m, n))
    decreases n
  {
    hide Next, InHistory;
    if m < n {
      HistoryOf(c, states, steps, p, m, n - 1);
      assert StepAt(c, states, steps, n - 1);
      HistoryStep(c, states[n - 1], steps[n - 1], states[n], p);
      var front := StepsOf(states, steps, p, m, n - 1);
      if steps[n - 1].ByProducer? && steps[n - 1].p == p {
        AppendsMore(front, ActOf(steps[n - 1].producerAction, states[n - 1].store));
      } else {
        assert front + [] == front;
      }
    }
  }

  lemma AppendsMore(acts: seq<Act>, a: Act)
    ensures Appends(acts + [a]) <==> Appends(acts) || a.action.Append?
  {
    var more := acts + [a];
    if Appends(acts) {
      var i :| 0 <= i < |acts| && acts[i].action.Append?;
      assert more[i] == acts[i];
    }
    assert more[|acts|] == a;
  }

  /** A write's batch is in the history exactly when one of its conditional writes went in,
      also where it reported an error: a failed produce call may still be delivered, and is
      delivered only then. */
  lemma EnqueuedIffWentIn(c: Config, states: seq<State>, steps: seq<Step>, p: nat, m: nat, n: nat,
                          ms: seq<Metadata>, io: WriteIo)
    requires Run(c, states, steps) && m <= n <= |steps| && p in states[m].producers
    requires states[m].producers[p].phase.Writing? && StepsOf(states, steps, p, m, n) == Acts(io, ms)
    ensures InHistory(states[n], p) <==>
            io.put.PutOk? && Enqueueable(io.location, ms) && WentIn(io.turns)
  {
    hide StepAt, TurnActs, WentIn;
    HistoryAlong(c, states, steps, m);
    NotYet(states[m], p);
    HistoryOf(c, states, steps, p, m, n);
    TurnsAppend(io.turns);
    ActsAppend(io, ms);
  }

  lemma NotYet(s: State, p: nat)
    requires HistoryInv(s) && p in s.producers && s.producers[p].phase.Writing?
    ensures !InHistory(s, p)
  {
    forall i | 0 <= i < |s.history|
      ensures s.history[i].call != p
    {
      assert Owned(s.producers, s.history, i);
    }
  }

  lemma ActsAppend(io: WriteIo, ms: seq<Metadata>)
    ensures Appends(Acts(io, ms)) <==>
            io.put.PutOk? && Enqueueable(io.location, ms) && Appends(TurnActs(io.turns))
  {
    hide TurnActs;
    var acts := Acts(io, ms);
    if io.put.PutOk? && Enqueueable(io.location, ms) {
      var rest := TurnActs(io.turns);
      if Appends(rest) {
        var i :| 0 <= i < |rest| && rest[i].action.Append?;
        assert acts[i + 1] == rest[i];
      }
      if Appends(acts) {
        var i :| 0 <= i < |acts| && acts[i].action.Append?;
        assert i >= 1 && rest[i - 1] == acts[i];
      }
    }
  }

  // ----- what a caller that was told Ok can rely on -----

  /** The call's batch has one place in the history, and the file queued there, or the
      delivery committed from there, gives call `i` its own entries. */
  predicate Recoverable(s: State, p: nat, z: Compressor, calls: seq<Call>, i: nat)
    requires i < |calls|
  {
    && Placed(s, p)
    && var w, q := s.producers[p], s.producers[p].phase.sequence;
    && |w.metadata| == |calls|
    && (|| (QueuedAt(s, w, q) && CutsFrom(z, s.files[w.location], w.metadata, calls, i))
        || (CommittedAt(s, w, q) && CutsFrom(z, s.committed[q].content, w.metadata, calls, i)))
  }

  predicate CutsFrom(z: Compressor, content: Bytes, ms: seq<Metadata>, calls: seq<Call>, i: nat)
    requires i < |calls| == |ms|
  {
    ReadBatch(z, content).Ok? && CutsCall(ReadBatch(z, content).value, ms, calls, i)
  }

  /** A batch that was written and acknowledged is recoverable in every later state. */
  lemma AckedRecoverable(c: Config, states: seq<State>, steps: seq<Step>, m: nat, n: nat,
                         z: Compressor, how: Compression, w: Written, i: nat)
    requires Run(c, states, steps) && m <= n < |states| && Inverts(z) && GraceOk(c) && OnTime(c, states, steps)
    requires Faithful(w) && w.outcome.Ok? && Returned(states[m], w.producer, z, how, w) && i < |w.calls|
    ensures Recoverable(states[n], w.producer, z, w.calls, i)
  {
    hide Run, OnTime, ReadBatch, BatchImage, CutsCall, QueuedAt, CommittedAt, Placed;
    QueuedOrCommitted(c, states, steps, m, n, w.producer);
    WrittenRecovers(z, how, w.calls);
    HeldContent(states[n], w.producer);
  }

  lemma HeldContent(s: State, p: nat)
    requires Placed(s, p)
    ensures var w, q := s.producers[p], s.producers[p].phase.sequence;
            && (QueuedAt(s, w, q) ==> w.location in s.files && s.files[w.location] == w.content)
            && (CommittedAt(s, w, q) ==> q < |s.committed| && s.committed[q].content == w.content)
  {
  }

  /** From the caller's side. A watcher that was told Ok belongs to a produce call whose batch
      was written and acknowledged; and in every later state of a run with writes in time,
      every such call's entries, time and payload can be recovered from the one place its
      batch has in the history, queued or committed downstream. */
  lemma ToldOkRecoverable(c: Config, states: seq<State>, steps: seq<Step>, m: nat, n: nat,
                          z: Compressor, how: Compression, ws: seq<Written>, sent: map<nat, Result<()>>, id: nat)
    requires Run(c, states, steps) && m <= n < |states| && Inverts(z) && GraceOk(c) && OnTime(c, states, steps)
    requires HonestLog(ws, sent) && Backed(ws, states[m], z, how)
    requires id in sent && sent[id].Ok?
    ensures Told(ws, id)
    ensures forall j, i :: 0 <= j < |ws| && 0 <= i < |ws[j].calls| && ws[j].calls[i].notifier == id ==>
              Recoverable(states[n], ws[j].producer, z, ws[j].calls, i)
  {
    hide Run, OnTime, Recoverable, Faithful, Returned;
    forall j, i | 0 <= j < |ws| && 0 <= i < |ws[j].calls| && ws[j].calls[i].notifier == id
      ensures Recoverable(states[n], ws[j].producer, z, ws[j].calls, i)
    {
      assert Faithful(ws[j]) && Returned(states[m], ws[j].producer, z, how, ws[j]);
      AckedRecoverable(c, states, steps, m, n, z, how, ws[j], i);
    }
  }
}
