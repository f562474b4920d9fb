/** What the buffer can always still do: from every state that a run reaches, a batch can be
    enqueued, and a new consumer can take over and deliver everything that is queued
    (buffer/src/consumer.rs, producer.rs). */
module BufferProgress {
  import opened ByteStrings
  import opened QueueCodec
  import opened Manifests
  import opened BufferProtocol
  import opened BufferHistory
  import opened BufferDelivery
  import opened BufferGc

  /** A run whose writes land in time. */
  ghost predicate GoodRun(c: Config, states: seq<State>, steps: seq<Step>)
  {
    Run(c, states, steps) && OnTime(c, states, steps) && GraceOk(c)
  }

  function Last(states: seq<State>): State
    requires states != []
  {
    states[|states| - 1]
  }

  lemma OneMore(c: Config, states: seq<State>, steps: seq<Step>, step: Step, s': State)
    requires GoodRun(c, states, steps) && Next(c, Last(states), step, s') && InTime(c, Last(states), step)
    ensures GoodRun(c, states + [s'], steps + [step])
  {
    hide Next, GraceOk, InTime;
    var more, done := states + [s'], steps + [step];
    forall i | 0 <= i < |done|
      ensures StepAt(c, more, done, i)
    {
      if i < |steps| {
        assert StepAt(c, states, steps, i);
      }
    }
    forall i | 0 <= i < |done|
      ensures InTime(c, more[i], done[i])
    {
      assert i < |steps| ==> InTime(c, states[i], steps[i]);
    }
  }

  lemma {:induction false} Above(keys: set<nat>) returns (k: nat)
    ensures forall x :: x in keys ==> x < k
    decreases |keys|
  {
    if keys == {} {
      k := 0;
    } else {
      var x :| x in keys;
      var rest := Above(keys - {x});
      k := if rest <= x then x + 1 else rest;
      forall y | y in keys
        ensures y < k
      {
        assert y == x || y in keys - {x};
      }
    }
  }

  // ----- a new consumer -----

  /** The consumer may commit, is not fenced, and has nothing in hand. */
  predicate Able(s: State, k: nat)
  {
    && s.owner == Some(k) && k in s.consumers
    && s.consumers[k].phase.Ready? && s.consumers[k].pending == []
    && s.consumers[k].epoch == Current(s.store).epoch
  }

  /** Nothing but consumers and the manifest's epoch and length has changed. */
  predicate SameQueue(s: State, s': State)
  {
    s'.history == s.history && s'.files == s.files && s'.producers == s.producers && s'.now == s.now
  }

  lemma Acts(c: Config, states: seq<State>, steps: seq<Step>, k: nat, a: ConsumerAction) returns (s': State)
    requires GoodRun(c, states, steps) && ConsumerMove(Last(states), k, a).Some?
    ensures NextConsumer(Last(states), k, a, s') && SameQueue(Last(states), s')
    ensures GoodRun(c, states + [s'], steps + [ByConsumer(k, a)])
  {
    hide ConsumerMove;
    var s, e := Last(states), ConsumerMove(Last(states), k, a).value;
    s' := s.(consumers := s.consumers[k := e.consumer], store := e.store, committed := e.committed,
             owner := e.owner, inits := e.inits);
    OneMore(c, states, steps, ByConsumer(k, a), s');
  }

  /** A new incarnation initializes. */
  lemma Initializes(c: Config, states: seq<State>, steps: seq<Step>)
    returns (states': seq<State>, steps': seq<Step>, k: nat)
    requires GoodRun(c, states, steps)
    ensures GoodRun(c, states', steps') && states <= states' && steps <= steps'
    ensures var s, s' := Last(states), Last(states');
            && SameQueue(s, s') && s'.committed == s.committed && s'.owner == Some(k) && k in s'.consumers
            && var w := s'.consumers[k];
            && w.phase.Initialized? && w.pending == [] && w.epoch == Current(s'.store).epoch
            && w.lastAcked == LastCommitted(s.committed)
  {
    hide StepAt, OnTime, GraceOk;
    states', steps' := states, steps;
    k := Above(Last(states).consumers.Keys);
    var s1 := Acts(c, states', steps', k, Start);
    states', steps' := states' + [s1], steps' + [ByConsumer(k, Start)];
    var s2 := Acts(c, states', steps', k, ReadForInit);
    states', steps' := states' + [s2], steps' + [ByConsumer(k, ReadForInit)];
    var s3 := Acts(c, states', steps', k, Init(true));
    states', steps' := states' + [s3], steps' + [ByConsumer(k, Init(true))];
  }

  /** A consumer that has begun to dequeue and is not fenced can end it. */
  lemma Dequeues(c: Config, states: seq<State>, steps: seq<Step>, k: nat)
    returns (states': seq<State>, steps': seq<Step>)
    requires GoodRun(c, states, steps)
    requires var s := Last(states);
             k in s.consumers && s.consumers[k].phase.Dequeuing? && s.consumers[k].epoch == Current(s.store).epoch
    ensures GoodRun(c, states', steps') && states <= states' && steps <= steps'
    ensures var s, s' := Last(states), Last(states');
            && SameQueue(s, s') && s'.committed == s.committed && s'.owner == s.owner && k in s'.consumers
            && s'.store == Some(DequeueRec(Current(s.store), s.consumers[k].phase.through))
            && s'.consumers[k] == s.consumers[k].(isOpen := true, phase := Ready)
  {
    hide StepAt, OnTime, GraceOk, Keep;
    states', steps' := states, steps;
    var s2 := Acts(c, states', steps', k, ReadForDequeue);
    states', steps' := states' + [s2], steps' + [ByConsumer(k, ReadForDequeue)];
    var s3 := Acts(c, states', steps', k, Dequeue(true));
    states', steps' := states' + [s3], steps' + [ByConsumer(k, Dequeue(true))];
  }

  /** It dequeues what was committed before, and is open. */
  lemma Opens(c: Config, states: seq<State>, steps: seq<Step>, k: nat)
    returns (states': seq<State>, steps': seq<Step>)
    requires GoodRun(c, states, steps)
    requires var s := Last(states);
             && s.owner == Some(k) && k in s.consumers && s.consumers[k].phase.Initialized?
             && s.consumers[k].pending == [] && s.consumers[k].epoch == Current(s.store).epoch
    ensures GoodRun(c, states', steps') && states <= states' && steps <= steps'
    ensures SameQueue(Last(states), Last(states')) && Last(states').committed == Last(states).committed
    ensures Able(Last(states'), k)
  {
    hide StepAt, OnTime, GraceOk, Keep;
    states', steps' := states, steps;
    var s1 := Acts(c, states', steps', k, Position);
    states', steps' := states' + [s1], steps' + [ByConsumer(k, Position)];
    if Last(states).consumers[k].lastAcked.Some? {
      states', steps' := Dequeues(c, states', steps', k);
    }
  }

  // ----- one more delivery -----

  /** The file of the next entry is there. */
  lemma NextFileIsThere(c: Config, states: seq<State>, steps: seq<Step>, n: nat)
    requires GoodRun(c, states, steps)
    requires Head(Last(states)) <= n < |Last(states).history| <= U64_MAX
    ensures EntryAt(Last(states).history, n).location in Last(states).files
  {
    hide GraceOk, OnTime, StepAt;
    var s := Last(states);
    HistoryAlong(c, states, steps, |steps|);
    GcAlong(c, states, steps, |steps|);
    assert Entries(s)[n - Head(s)] == EntryAt(s.history, n);
  }

  /** The next entry is fetched. */
  lemma Fetches(c: Config, states: seq<State>, steps: seq<Step>, k: nat)
    returns (states': seq<State>, steps': seq<Step>)
    requires GoodRun(c, states, steps) && Able(Last(states), k)
    requires |Last(states).committed| < |Last(states).history|
    ensures GoodRun(c, states', steps') && states <= states' && steps <= steps'
    ensures var s, s' := Last(states), Last(states');
            && SameQueue(s, s') && s'.committed == s.committed && s'.owner == s.owner && s'.store == s.store
            && k in s'.consumers && s'.consumers[k].phase.Ready? && |s'.consumers[k].pending| == 1
            && s'.consumers[k].epoch == s.consumers[k].epoch
  {
    hide GraceOk, OnTime, StepAt, EntryAt, NextEntry;
    states', steps' := states, steps;
    NextIsGiven(c, states, steps, |steps|, k);
    ExactlyOnce(c, states, steps, |steps|);
    NextFileIsThere(c, states, steps, |Last(states).committed|);
    var s1 := Acts(c, states', steps', k, NextBatch);
    states', steps' := states' + [s1], steps' + [ByConsumer(k, NextBatch)];
    var s2 := Acts(c, states', steps', k, Fetch(true));
    states', steps' := states' + [s2], steps' + [ByConsumer(k, Fetch(true))];
  }

  lemma Delivers(c: Config, states: seq<State>, steps: seq<Step>, k: nat)
    returns (states': seq<State>, steps': seq<Step>)
    requires GoodRun(c, states, steps) && Able(Last(states), k)
    requires |Last(states).committed| < |Last(states).history|
    ensures GoodRun(c, states', steps') && states <= states' && steps <= steps'
    ensures SameQueue(Last(states), Last(states')) && Able(Last(states'), k)
    ensures |Last(states').committed| == |Last(states).committed| + 1
  {
    hide GraceOk, OnTime, StepAt;
    states', steps' := Fetches(c, states, steps, k);
    var s3 := Acts(c, states', steps', k, Commit);
    states', steps' := states' + [s3], steps' + [ByConsumer(k, Commit)];
  }

  lemma {:induction false} DeliversRest(c: Config, states: seq<State>, steps: seq<Step>, k: nat)
    returns (states': seq<State>, steps': seq<Step>)
    requires GoodRun(c, states, steps) && Able(Last(states), k)
    requires |Last(states).committed| <= |Last(states).history|
    ensures GoodRun(c, states', steps') && states <= states' && steps <= steps'
    ensures SameQueue(Last(states), Last(states'))
    ensures |Last(states').committed| == |Last(states).history|
    decreases |Last(states).history| - |Last(states).committed|
  {
    hide StepAt, OnTime, GraceOk, Able;
    if |Last(states).committed| == |Last(states).history| {
      states', steps' := states, steps;
    } else {
      var states1, steps1 := Delivers(c, states, steps, k);
      states', steps' := DeliversRest(c, states1, steps1, k);
    }
  }

  /** However a run with writes in time has gone, it can go on, with a consumer that starts
      anew and nothing enqueued, until every batch of the history is committed. */
  lemma CanDeliverAll(c: Config, states: seq<State>, steps: seq<Step>)
    returns (states': seq<State>, steps': seq<Step>)
    requires Run(c, states, steps) && OnTime(c, states, steps) && GraceOk(c)
    ensures Run(c, states', steps') && OnTime(c, states', steps')
    ensures states <= states' && steps <= steps' && states' != []
    ensures Last(states').history == Last(states).history
    ensures |Last(states').committed| == |Last(states).history|
  {
    hide GraceOk, OnTime, StepAt;
    ExactlyOnce(c, states, steps, |steps|);
    var states1, steps1, k := Initializes(c, states, steps);
    var states2, steps2 := Opens(c, states1, steps1, k);
    states', steps' := DeliversRest(c, states2, steps2, k);
  }

  // ----- dequeuing -----

  /** A consumer that is ready and not fenced can flush: everything up to its last
      acknowledged sequence has then left the manifest, and nothing after it. */
  lemma CanFlush(c: Config, states: seq<State>, steps: seq<Step>, k: nat)
    returns (states': seq<State>, steps': seq<Step>)
    requires Run(c, states, steps) && OnTime(c, states, steps) && GraceOk(c)
    requires var s := Last(states);
             && k in s.consumers && s.consumers[k].phase.Ready? && s.consumers[k].lastAcked.Some?
             && s.consumers[k].epoch == Current(s.store).epoch
    ensures Run(c, states', steps') && OnTime(c, states', steps') && states <= states' && steps <= steps'
    ensures var s, s' := Last(states), Last(states');
            && k in s'.consumers && s'.consumers[k].phase.Ready? && s'.history == s.history
            && var q := s.consumers[k].lastAcked.value;
            && Head(s') == if q < Head(s) then Head(s) else q + 1
  {
    hide GraceOk, OnTime, StepAt, Keep, Suffix;
    var s := Last(states);
    HistoryAlong(c, states, steps, |steps|);
    DeliveryAlong(c, states, steps, |steps|);
    states', steps' := states, steps;
    var s1 := Acts(c, states', steps', k, Flush);
    states', steps' := states' + [s1], steps' + [ByConsumer(k, Flush)];
    DequeueKeepsSuffix(Current(s.store), s.history, s.consumers[k].lastAcked.value);
    states', steps' := Dequeues(c, states', steps', k);
  }

  // ----- one more batch -----

  lemma Produces(c: Config, states: seq<State>, steps: seq<Step>, p: nat, a: ProducerAction) returns (s': State)
    requires GoodRun(c, states, steps) && ProducerMove(Last(states), p, a).Some?
    requires InTime(c, Last(states), ByProducer(p, a))
    ensures NextProducer(Last(states), p, a, s')
    ensures GoodRun(c, states + [s'], steps + [ByProducer(p, a)])
  {
    hide ProducerMove;
    var s, e := Last(states), ProducerMove(Last(states), p, a).value;
    s' := s.(producers := s.producers[p := e.producer], store := e.store, files := e.files, history := e.history);
    OneMore(c, states, steps, ByProducer(p, a), s');
  }

  /** However a run has gone, as long as the manifest has room a batch under a new name can be
      written in time, and is then the last of the history under its number. */
  lemma CanEnqueue(c: Config, states: seq<State>, steps: seq<Step>, f: Bytes, ms: seq<Metadata>, content: Bytes)
    returns (states': seq<State>, steps': seq<Step>, p: nat)
    requires Run(c, states, steps) && OnTime(c, states, steps) && GraceOk(c)
    requires Unused(Last(states), f) && Fits(QueueEntry(0, f, ms)) && !Expired(c, f, Last(states).now)
    requires Current(Last(states).store).nextSequence < U64_MAX && |Entries(Last(states))| < U32_MAX
    ensures Run(c, states', steps') && OnTime(c, states', steps') && states <= states' && steps <= steps'
    ensures var s, s' := Last(states), Last(states');
            && s'.history == s.history + [Enqueued(p, f, ms)] && p !in s.producers && p in s'.producers
            && s'.producers[p].phase == Succeeded(|s.history|)
            && f in s'.files && s'.files[f] == content
  {
    hide GraceOk, Fits, Expired, OnTime, StepAt;
    HistoryAlong(c, states, steps, |steps|);
    states', steps' := states, steps;
    p := Above(Last(states).producers.Keys);
    var s1 := Produces(c, states', steps', p, Produce(f, ms, content));
    states', steps' := states' + [s1], steps' + [ByProducer(p, Produce(f, ms, content))];
    var s2 := Produces(c, states', steps', p, PutFile(true, true));
    states', steps' := states' + [s2], steps' + [ByProducer(p, PutFile(true, true))];
    var s3 := Produces(c, states', steps', p, ReadForAppend);
    states', steps' := states' + [s3], steps' + [ByProducer(p, ReadForAppend)];
    var s4 := Produces(c, states', steps', p, Append(true));
    states', steps' := states' + [s4], steps' + [ByProducer(p, Append(true))];
  }

  // ----- what opening a consumer does -----

  /** Entries leave the manifest from the front only. */
  lemma HeadGrows(c: Config, s: State, step: Step, s': State)
    requires Next(c, s, step, s') && QueueInv(s.store, s.history)
    ensures Head(s) <= Head(s')
  {
    hide Suffix, Keep;
    if step.ByProducer? {
      ProducerKeepsHead(s, step.p, step.producerAction, s');
    } else if step.ByConsumer? && step.consumerAction.Dequeue? {
      DequeueKeepsSuffix(Current(s.store), s.history, s.consumers[step.k].phase.through);
    }
  }

  /** Until it is open, a consumer that started on `n` committed batches only dequeues those;
      once it is, they are gone. */
  predicate Opening(s: State, w: Consumer, n: nat)
  {
    if w.isOpen then n <= Head(s)
    else
      && w.lastAcked == Cursor(n)
      && !w.phase.Ready? && !w.phase.Fetching?
      && (w.phase.Dequeuing? || w.phase.DequeueHolding? ==> n > 0 && w.phase.through == n - 1)
  }

  lemma OpeningStep(s: State, k: nat, a: ConsumerAction, s': State, n: nat)
    requires NextConsumer(s, k, a, s') && k in s.consumers && Opening(s, s.consumers[k], n)
    requires QueueInv(s.store, s.history) && n <= |s.history| && Head(s) <= Head(s')
    ensures k in s'.consumers && Opening(s', s'.consumers[k], n)
  {
    hide Keep;
    if a.Dequeue? {
      DequeueKeepsSuffix(Current(s.store), s.history, s.consumers[k].phase.through);
    }
  }

  lemma StartsOpening(c: Config, states: seq<State>, steps: seq<Step>, m: nat, k: nat)
    requires Run(c, states, steps) && m < |steps| && steps[m] == ByConsumer(k, Start)
    ensures k in states[m + 1].consumers
    ensures Opening(states[m + 1], states[m + 1].consumers[k], |states[m].committed|)
  {
    DeliveryAlong(c, states, steps, m);
    CommittedNumbers(states[m]);
    assert StepAt(c, states, steps, m);
  }

  lemma {:induction false} OpeningAlong(c: Config, states: seq<State>, steps: seq<Step>, m: nat, n: nat, k: nat)
    requires Run(c, states, steps) && m < n < |states| && steps[m] == ByConsumer(k, Start)
    ensures k in states[n].consumers && Opening(states[n], states[n].consumers[k], |states[m].committed|)
    decreases n
  {
    hide Opening, NextProducer, NextConsumer, NextCollector, QueueInv;
    if n == m + 1 {
      StartsOpening(c, states, steps, m, k);
    } else {
      OpeningAlong(c, states, steps, m, n - 1, k);
      assert StepAt(c, states, steps, n - 1);
      HistoryAlong(c, states, steps, n - 1);
      ExactlyOnce(c, states, steps, n - 1);
      CommitsGrow(c, states, steps, m, n - 1);
      HeadGrows(c, states[n - 1], steps[n - 1], states[n]);
      if steps[n - 1].ByConsumer? && steps[n - 1].k == k {
        OpeningStep(states[n - 1], k, steps[n - 1].consumerAction, states[n], |states[m].committed|);
      } else {
        OthersOpening(c, states[n - 1], steps[n - 1], states[n], k, |states[m].committed|);
      }
    }
  }

  lemma OthersOpening(c: Config, s: State, step: Step, s': State, k: nat, n: nat)
    requires Next(c, s, step, s') && k in s.consumers && !(step.ByConsumer? && step.k == k)
    requires Opening(s, s.consumers[k], n) && Head(s) <= Head(s')
    ensures k in s'.consumers && Opening(s', s'.consumers[k], n)
  {
  }

  /** An open consumer has removed from the manifest every batch that was committed when it
      started; until then it hands out nothing. */
  lemma OpenedClean(c: Config, states: seq<State>, steps: seq<Step>, m: nat, n: nat, k: nat)
    requires Run(c, states, steps) && m < n < |states| && steps[m] == ByConsumer(k, Start)
    ensures k in states[n].consumers
    ensures var s, w := states[n], states[n].consumers[k];
            && (w.isOpen ==> |states[m].committed| <= |s.history| - |Current(s.store).entries|)
            && (w.phase.Ready? || w.phase.Fetching? ==> w.isOpen)
  {
    hide Run;
    OpeningAlong(c, states, steps, m, n, k);
  }
}
