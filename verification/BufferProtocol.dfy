/** The buffer as a distributed protocol: producers, consumer incarnations and garbage
    collectors that share one manifest object through read, modify, conditional write
    (buffer/src/queue.rs, producer.rs, consumer.rs, gc.rs). Every read and every
    conditional write of the object store is one step; any actor may move between them. */
module BufferProtocol {
  import opened ByteStrings
  import opened QueueCodec
  import opened Manifests

  const UNINITIALIZED: u64 := 0xFFFF_FFFF_FFFF_FFFF
  const DEQUEUE_INTERVAL: nat := 100

  /** The grace period, and the creation time that a batch file's name carries. */
  datatype Config = Config(grace: nat, ulidTime: Bytes -> Option<nat>)

  // ----- actors -----

  /** One call of `write_and_enqueue`. */
  datatype ProducerPhase =
    | Writing
    | Stored
    | Holding(snapshot: Option<ManifestRec>)
    | Succeeded(sequence: nat)
    | Failed

  datatype Producer = Producer(location: Bytes, metadata: seq<Metadata>, content: Bytes, phase: ProducerPhase)

  datatype Delivery = Delivery(entry: QueueEntry, content: Bytes)

  datatype ConsumerPhase =
    | Fresh
    | InitHolding(initSnapshot: Option<ManifestRec>)
    | Initialized
    | Ready
    | Fetching(entry: QueueEntry)
    | Dequeuing(through: u64)
    | DequeueHolding(through: u64, snapshot: Option<ManifestRec>)
    | Dead

  /** One consumer incarnation. `initIndex` numbers its successful initialization among
      all of them; `isOpen` says that its constructor has returned; `pending` are batches
      handed to the caller and not yet committed. */
  datatype Consumer = Consumer(
    epoch: u64,
    initIndex: Option<nat>,
    isOpen: bool,
    lastAcked: Option<u64>,
    lastFetched: Option<u64>,
    ackCount: nat,
    pending: seq<Delivery>,
    phase: ConsumerPhase)

  datatype Collector =
    | Idle
    | Started(start: nat)
    | Listing(start: nat, locations: set<Bytes>, oldest: Option<nat>, found: set<Bytes>)
    | Deleting(todo: set<Bytes>)

  /** An entry that took effect in the manifest, with the call that appended it. */
  datatype Enqueued = Enqueued(call: nat, location: Bytes, metadata: seq<Metadata>)

  datatype State = State(
    store: Option<ManifestRec>,
    files: map<Bytes, Bytes>,
    now: nat,
    producers: map<nat, Producer>,
    consumers: map<nat, Consumer>,
    collectors: map<nat, Collector>,
    history: seq<Enqueued>,
    committed: seq<Delivery>,
    owner: Option<nat>,
    inits: nat)

  // ----- local computations -----

  function Current(store: Option<ManifestRec>): ManifestRec
  {
    if store.None? then EMPTY else store.value
  }

  function NextEpoch(e: u64): u64
  {
    var n := (e + 1) % TWO_64;
    if n == UNINITIALIZED then (n + 1) % TWO_64 else n
  }

  /** The outcome of `ack`: an out-of-order acknowledgement changes nothing. */
  function Acked(k: Consumer, sequence: u64): Consumer
  {
    if k.lastAcked.Some? && sequence != k.lastAcked.value + 1 then k
    else
      k.(lastAcked := Some(sequence), ackCount := k.ackCount + 1,
         phase := if (k.ackCount + 1) % DEQUEUE_INTERVAL == 0 then Dequeuing(sequence) else k.phase)
  }

  /** The entry `next_batch` asks the manifest for. */
  function NextEntry(k: Consumer, m: ManifestRec): Option<QueueEntry>
  {
    if k.lastFetched.None? then (if m.entries == [] then None else Some(m.entries[0]))
    else Find(m.entries, (k.lastFetched.value + 1) % TWO_64)
  }

  function LastCommitted(committed: seq<Delivery>): Option<u64>
  {
    if committed == [] then None else Some(committed[|committed| - 1].entry.sequence)
  }

  function Locations(es: seq<QueueEntry>): set<Bytes>
  {
    set i | 0 <= i < |es| :: es[i].location
  }

  /** The oldest creation time among entries whose location carries one. */
  function OldestTime(c: Config, es: seq<QueueEntry>): Option<nat>
  {
    if es == [] then None
    else
      var rest := OldestTime(c, es[..|es| - 1]);
      var t := c.ulidTime(es[|es| - 1].location);
      if t.Some? && (rest.None? || t.value < rest.value) then t else rest
  }

  /** The collector's rule for one listed file. */
  predicate Deletable(c: Config, start: nat, locations: set<Bytes>, oldest: Option<nat>, f: Bytes)
  {
    && c.ulidTime(f).Some?
    && var t := c.ulidTime(f).value;
    && !(oldest.Some? && t >= oldest.value)
    && (if start >= t then start - t else 0) >= c.grace
    && f !in locations
  }

  // ----- producers -----

  datatype ProducerAction =
    | Produce(location: Bytes, metadata: seq<Metadata>, content: Bytes)
    | PutFile(ok: bool, applied: bool)
    | ReadForAppend
    | Append(ok: bool)
    | AppendConflict
    | AbandonProduce

  datatype ProducerEffect = ProducerEffect(
    producer: Producer, store: Option<ManifestRec>, files: map<Bytes, Bytes>, history: seq<Enqueued>)

  function Alone(s: State, w: Producer): ProducerEffect
  {
    ProducerEffect(w, s.store, s.files, s.history)
  }

  /** A new name: no call uses it and no file has it. */
  predicate Unused(s: State, location: Bytes)
  {
    location !in s.files && forall p :: p in s.producers ==> s.producers[p].location != location
  }

  /** The conditional write may go through: the stored manifest is still the one that was
      read, and there is room for one more entry and for its number. */
  predicate CanAppend(s: State, w: Producer)
  {
    && w.phase == Holding(s.store)
    && Current(s.store).nextSequence < U64_MAX
    && |Current(s.store).entries| < U32_MAX
  }

  /** An operation that reports an error may still have been applied (`ok` false). */
  function ProducerMove(s: State, p: nat, a: ProducerAction): Option<ProducerEffect>
  {
    if a.Produce? then
      if p !in s.producers && Unused(s, a.location) && Fits(QueueEntry(0, a.location, a.metadata))
      then Some(Alone(s, Producer(a.location, a.metadata, a.content, Writing))) else None
    else if p !in s.producers then None
    else
      var w := s.producers[p];
      match a
      case PutFile(ok, applied) =>
        if w.phase == Writing && (ok ==> applied)
        then Some(Alone(s, w.(phase := if ok then Stored else Failed)).(
                    files := if applied then s.files[w.location := w.content] else s.files))
        else None
      case ReadForAppend =>
        if w.phase == Stored then Some(Alone(s, w.(phase := Holding(s.store)))) else None
      case Append(ok) =>
        if CanAppend(s, w)
        then
          var m := Current(s.store);
          Some(ProducerEffect(w.(phase := if ok then Succeeded(m.nextSequence) else Failed),
                              Some(AppendRec(m, w.location, w.metadata)), s.files,
                              s.history + [Enqueued(p, w.location, w.metadata)]))
        else None
      case AppendConflict =>
        if w.phase.Holding? then Some(Alone(s, w.(phase := Stored))) else None
      case AbandonProduce =>
        if w.phase.Succeeded? then None else Some(Alone(s, w.(phase := Failed)))
  }

  // ----- consumers -----

  datatype ConsumerAction =
    | Start
    | ReadForInit
    | Init(ok: bool)
    | InitConflict
    | Position
    | ReadForDequeue
    | Dequeue(ok: bool)
    | DequeueConflict
    | AbandonDequeue
    | NextBatch
    | Fetch(ok: bool)
    | Commit
    | Ack(sequence: u64)
    | Flush
    | Crash

  datatype ConsumerEffect = ConsumerEffect(
    consumer: Consumer, store: Option<ManifestRec>, committed: seq<Delivery>, owner: Option<nat>, inits: nat)

  function Quiet(s: State, w: Consumer): ConsumerEffect
  {
    ConsumerEffect(w, s.store, s.committed, s.owner, s.inits)
  }

  /** A dequeue ends; the first one, of the constructor, opens the consumer or discards it. */
  function EndDequeue(w: Consumer, ok: bool): Consumer
  {
    w.(isOpen := w.isOpen || ok, phase := if ok || w.isOpen then Ready else Dead)
  }

  /** A new incarnation takes over the downstream database, which from then on refuses the
      others' commits, and resumes from the last committed sequence. */
  function Starting(s: State, k: nat): ConsumerEffect
  {
    var resume := LastCommitted(s.committed);
    Quiet(s, Consumer(UNINITIALIZED, None, false, resume, resume, 0, [], Fresh)).(owner := Some(k))
  }

  function Initializing(s: State, w: Consumer, ok: bool): ConsumerEffect
  {
    var m := Current(s.store);
    var e := NextEpoch(m.epoch);
    ConsumerEffect(if ok then w.(epoch := e, initIndex := Some(s.inits + 1), phase := Initialized)
                   else w.(phase := Dead),
                   Some(m.(epoch := e)), s.committed, s.owner, s.inits + 1)
  }

  /** A manifest with another epoch fences the consumer: the operation ends with an error. */
  function ReadingForDequeue(s: State, w: Consumer): Consumer
    requires w.phase.Dequeuing?
  {
    if Current(s.store).epoch != w.epoch then EndDequeue(w, false)
    else w.(phase := DequeueHolding(w.phase.through, s.store))
  }

  function ReadingNext(s: State, w: Consumer): Consumer
  {
    var m := Current(s.store);
    if m.epoch != w.epoch || NextEntry(w, m).None? then w
    else w.(phase := Fetching(NextEntry(w, m).value))
  }

  function Fetched(w: Consumer, e: QueueEntry, content: Bytes): Consumer
  {
    w.(phase := Ready, lastFetched := Some(e.sequence), pending := w.pending + [Delivery(e, content)])
  }

  function ConsumerMove(s: State, k: nat, a: ConsumerAction): Option<ConsumerEffect>
  {
    if a.Start? then
      if k !in s.consumers then Some(Starting(s, k)) else None
    else if k !in s.consumers || s.consumers[k].phase.Dead? then None
    else
      var w := s.consumers[k];
      match a
      case ReadForInit =>
        if w.phase.Fresh? then Some(Quiet(s, w.(phase := InitHolding(s.store)))) else None
      case Init(ok) =>
        if w.phase == InitHolding(s.store) then Some(Initializing(s, w, ok)) else None
      case InitConflict =>
        if w.phase.InitHolding? then Some(Quiet(s, w.(phase := Fresh))) else None
      case Position =>
        if w.phase.Initialized?
        then Some(Quiet(s, if w.lastAcked.None? then EndDequeue(w, true)
                           else w.(phase := Dequeuing(w.lastAcked.value))))
        else None
      case ReadForDequeue =>
        if w.phase.Dequeuing? then Some(Quiet(s, ReadingForDequeue(s, w))) else None
      case Dequeue(ok) =>
        if w.phase.DequeueHolding? && w.phase.snapshot == s.store
        then Some(Quiet(s, EndDequeue(w, ok)).(store := Some(DequeueRec(Current(s.store), w.phase.through))))
        else None
      case DequeueConflict =>
        if w.phase.DequeueHolding? then Some(Quiet(s, w.(phase := Dequeuing(w.phase.through)))) else None
      case AbandonDequeue =>
        if w.phase.DequeueHolding? || w.phase.Dequeuing? then Some(Quiet(s, EndDequeue(w, false))) else None
      case NextBatch =>
        if w.phase.Ready? then Some(Quiet(s, ReadingNext(s, w))) else None
      case Fetch(ok) =>
        if !w.phase.Fetching? then None
        else if !ok then Some(Quiet(s, w.(phase := Ready)))
        else if w.phase.entry.location in s.files
        then Some(Quiet(s, Fetched(w, w.phase.entry, s.files[w.phase.entry.location])))
        else None
      case Commit =>
        // The caller writes its oldest uncommitted batch, with the sequence, downstream.
        if s.owner == Some(k) && w.pending != []
        then Some(Quiet(s, w.(pending := w.pending[1..])).(committed := s.committed + [w.pending[0]]))
        else None
      case Ack(sequence) =>
        // The caller acknowledges only what is committed.
        if w.phase.Ready? && sequence < |s.committed| then Some(Quiet(s, Acked(w, sequence))) else None
      case Flush =>
        if w.phase.Ready?
        then Some(Quiet(s, if w.lastAcked.None? then w else w.(phase := Dequeuing(w.lastAcked.value))))
        else None
      case Crash => Some(Quiet(s, w.(phase := Dead)))
  }

  // ----- collectors -----

  datatype CollectorAction =
    | StartCollect
    | Snapshot
    | ListFile(file: Bytes)
    | EndListing
    | DeleteFile(file: Bytes)
    | AbandonCollect

  datatype CollectorEffect = CollectorEffect(collector: Collector, files: map<Bytes, Bytes>)

  function CollectorMove(c: Config, s: State, g: nat, a: CollectorAction): Option<CollectorEffect>
  {
    var w := if g in s.collectors then s.collectors[g] else Idle;
    match a
    case StartCollect =>
      if w.Idle? then Some(CollectorEffect(Started(s.now), s.files)) else None
    case Snapshot =>
      var es := Current(s.store).entries;
      if w.Started?
      then Some(CollectorEffect(Listing(w.start, Locations(es), OldestTime(c, es), {}), s.files)) else None
    case ListFile(f) =>
      if w.Listing? && f in s.files && Deletable(c, w.start, w.locations, w.oldest, f)
      then Some(CollectorEffect(w.(found := w.found + {f}), s.files)) else None
    case EndListing =>
      if w.Listing? then Some(CollectorEffect(Deleting(w.found), s.files)) else None
    case DeleteFile(f) =>
      if w.Deleting? && f in w.todo then Some(CollectorEffect(Deleting(w.todo - {f}), s.files - {f})) else None
    case AbandonCollect => Some(CollectorEffect(Idle, s.files))
  }

  // ----- runs -----

  datatype Step =
    | Tick(to: nat)
    | ByProducer(p: nat, producerAction: ProducerAction)
    | ByConsumer(k: nat, consumerAction: ConsumerAction)
    | ByCollector(g: nat, collectorAction: CollectorAction)

  predicate NextProducer(s: State, p: nat, a: ProducerAction, s': State)
  {
    && ProducerMove(s, p, a).Some?
    && var e := ProducerMove(s, p, a).value;
    && s' == s.(producers := s.producers[p := e.producer], store := e.store, files := e.files, history := e.history)
  }

  predicate NextConsumer(s: State, k: nat, a: ConsumerAction, s': State)
  {
    && ConsumerMove(s, k, a).Some?
    && var e := ConsumerMove(s, k, a).value;
    && s' == s.(consumers := s.consumers[k := e.consumer], store := e.store, committed := e.committed,
                owner := e.owner, inits := e.inits)
  }

  predicate NextCollector(c: Config, s: State, g: nat, a: CollectorAction, s': State)
  {
    && CollectorMove(c, s, g, a).Some?
    && var e := CollectorMove(c, s, g, a).value;
    && s' == s.(collectors := s.collectors[g := e.collector], files := e.files)
  }

  predicate Next(c: Config, s: State, step: Step, s': State)
  {
    match step
    case Tick(to) => s.now <= to && s' == s.(now := to)
    case ByProducer(p, a) => NextProducer(s, p, a, s')
    case ByConsumer(k, a) => NextConsumer(s, k, a, s')
    case ByCollector(g, a) => NextCollector(c, s, g, a, s')
  }

  /** Nothing stored, nobody active. */
  const START: State := State(None, map[], 0, map[], map[], map[], [], [], None, 0)

  /** A run: the states it passes and the steps between them. */
  ghost predicate Run(c: Config, states: seq<State>, steps: seq<Step>)
  {
    && |states| == |steps| + 1
    && states[0] == START
    && forall i {:trigger StepAt(c, states, steps, i)} :: 0 <= i < |steps| ==> StepAt(c, states, steps, i)
  }

  ghost predicate StepAt(c: Config, states: seq<State>, steps: seq<Step>, i: nat)
    requires i < |steps| && |states| == |steps| + 1
  {
    Next(c, states[i], steps[i], states[i + 1])
  }
}
