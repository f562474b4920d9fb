/** The retry loops and the consumer object behind the protocol's steps (buffer/src/queue.rs,
    buffer/src/consumer.rs). */
module BufferActors {
  import opened ByteStrings
  import opened QueueCodec
  import opened Manifests
  import opened BatchFiles
  import Protocol = BufferProtocol

  /** How a conditional write ends; one that reports an error may have been applied. */
  datatype WriteResult = WriteOk | WriteConflict | WriteFatal(applied: bool)

  /** What one turn of a retry loop meets: a read that fails, or the stored manifest and the
      outcome of the conditional write. */
  datatype Turn = Unread | Tried(stored: Option<ManifestRec>, write: WriteResult) {
    function Manifest(): ManifestRec
      requires Tried?
    {
      Protocol.Current(stored)
    }
  }

  /** The first `n` turns read a manifest that `p` admits and then lost the race. */
  ghost predicate Lost(turns: seq<Turn>, n: nat, p: ManifestRec -> bool)
  {
    && n <= |turns|
    && forall i :: 0 <= i < n ==>
         turns[i].Tried? && p(turns[i].Manifest()) && turns[i].write.WriteConflict?
  }

  /** Turn `n` is the one that counted: all before it lost, and it read a manifest. */
  ghost predicate Settled(turns: seq<Turn>, n: nat, p: ManifestRec -> bool)
  {
    n < |turns| && Lost(turns, n, p) && turns[n].Tried? && p(turns[n].Manifest())
  }

  function Any(): ManifestRec -> bool
  {
    (m: ManifestRec) => true
  }

  function WithEpoch(e: u64): ManifestRec -> bool
  {
    (m: ManifestRec) => m.epoch == e
  }

  // ----- producers -----

  /** The checks an enqueue makes before it writes. */
  predicate Enqueueable(location: Bytes, metadata: seq<Metadata>)
  {
    |location| <= U16_MAX && |metadata| <= U32_MAX && PayloadsFit(metadata)
  }

  /** The protocol phase in which the turns leave a call that has stored its file. A manifest
      that is full cannot be written. */
  function TurnsPhase(turns: seq<Turn>): Protocol.ProducerPhase
  {
    if turns == [] || turns[0].Unread? || |turns[0].Manifest().entries| >= U32_MAX then Protocol.Failed
    else
      match turns[0].write
      case WriteOk => Protocol.Succeeded(turns[0].Manifest().nextSequence)
      case WriteFatal(_) => Protocol.Failed
      case WriteConflict => TurnsPhase(turns[1..])
  }

  /** Appends an entry. `Ok` means that exactly one write went through: the append to the
      manifest read in the same turn. Otherwise nothing is known to be written; `put` is
      what a failed write may have stored. */
  method Enqueue(location: Bytes, metadata: seq<Metadata>, turns: seq<Turn>)
    returns (r: Result<()>, put: Option<ManifestRec>, n: nat)
    ensures |location| > U16_MAX || |metadata| > U32_MAX ==> r == Err(InvalidInput)
    ensures !Enqueueable(location, metadata) ==> r.Err? && put.None?
    ensures put.Some? ==> Settled(turns, n, Any()) && put.value == AppendRec(turns[n].Manifest(), location, metadata)
    ensures put.Some? ==> !turns[n].write.WriteConflict? && |turns[n].Manifest().entries| < U32_MAX
    ensures r.Ok? <==> put.Some? && turns[n].write.WriteOk?
    ensures Enqueueable(location, metadata) && put.None? ==>
              && Lost(turns, n, Any())
              && (n == |turns| || turns[n].Unread? || |turns[n].Manifest().entries| >= U32_MAX)
    ensures Enqueueable(location, metadata) ==> (r.Ok? <==> TurnsPhase(turns).Succeeded?)
    ensures r.Ok? ==> TurnsPhase(turns) == Protocol.Succeeded(turns[n].Manifest().nextSequence)
  {
    n, put := 0, None;
    if |location| > U16_MAX || |metadata| > U32_MAX {
      return Err(InvalidInput), None, 0;
    }
    assert turns[0..] == turns;
    while n < |turns|
      invariant Lost(turns, n, Any()) && TurnsPhase(turns) == TurnsPhase(turns[n..])
    {
      var turn := turns[n];
      if turn.Unread? {
        return Err(Error.Storage), None, n;
      }
      if !PayloadsFit(metadata) {
        return Err(InvalidInput), None, n;
      }
      var manifest := AppendRec(turn.Manifest(), location, metadata);
      if |manifest.entries| > U32_MAX {
        return Err(Serialization), None, n;
      }
      match turn.write
      case WriteOk =>
        return Ok(()), Some(manifest), n;
      case WriteFatal(_) =>
        return Err(Error.Storage), Some(manifest), n;
      case WriteConflict =>
        assert turns[n..][1..] == turns[n + 1..];
        n := n + 1;
    }
    return Err(Error.Storage), None, n;
  }

  datatype PutResult = PutOk | PutFailed(applied: bool)

  /** What a write meets: its new file name, the outcome of storing the file, and the turns
      of the enqueue. */
  datatype WriteIo = WriteIo(location: Bytes, put: PutResult, turns: seq<Turn>)

  function EndPhase(io: WriteIo, metadata: seq<Metadata>): Protocol.ProducerPhase
  {
    if io.put.PutOk? && Enqueueable(io.location, metadata) then TurnsPhase(io.turns) else Protocol.Failed
  }

  /** Encodes a batch, stores it under a new name and enqueues it. */
  method WriteAndEnqueue(z: Compressor, how: Compression, entries: seq<Bytes>, metadata: seq<Metadata>, io: WriteIo)
    returns (r: Result<()>, content: Bytes)
    ensures content == BatchImage(z, how, entries)
    ensures r.Ok? <==> EndPhase(io, metadata).Succeeded?
    ensures r.Err? <==> EndPhase(io, metadata).Failed?
  {
    content := EncodeBatch(z, how, entries);
    TurnsEnd(io.turns);
    if io.put.PutFailed? {
      return Err(Error.Storage), content;
    }
    var put, n;
    r, put, n := Enqueue(io.location, metadata, io.turns);
  }

  lemma {:induction false} TurnsEnd(turns: seq<Turn>)
    ensures TurnsPhase(turns).Succeeded? || TurnsPhase(turns).Failed?
  {
    if turns != [] {
      TurnsEnd(turns[1..]);
    }
  }

  // ----- the write as steps of the protocol -----

  /** A producer step and, where it reads or writes the manifest, the stored one it met. */
  datatype Act = Act(action: Protocol.ProducerAction, store: Option<ManifestRec>)

  function ActOf(a: Protocol.ProducerAction, store: Option<ManifestRec>): Act
  {
    Act(a, if a.ReadForAppend? || a.Append? then store else None)
  }

  /** The steps a write takes after it has chosen its file name. */
  function Acts(io: WriteIo, metadata: seq<Metadata>): seq<Act>
  {
    [ActOf(Protocol.PutFile(io.put.PutOk?, io.put.PutOk? || io.put.applied), None)] +
    (if io.put.PutFailed? then []
     else if !Enqueueable(io.location, metadata) then [ActOf(Protocol.AbandonProduce, None)]
     else TurnActs(io.turns))
  }

  function TurnActs(turns: seq<Turn>): seq<Act>
  {
    if turns == [] || turns[0].Unread? || |turns[0].Manifest().entries| >= U32_MAX then
      [ActOf(Protocol.AbandonProduce, None)]
    else
      var read := Act(Protocol.ReadForAppend, turns[0].stored);
      match turns[0].write
      case WriteOk => [read, Act(Protocol.Append(true), turns[0].stored)]
      case WriteFatal(applied) =>
        [read, ActOf(if applied then Protocol.Append(false) else Protocol.AbandonProduce, turns[0].stored)]
      case WriteConflict => [read, ActOf(Protocol.AppendConflict, None)] + TurnActs(turns[1..])
  }

  /** What a step does to the call alone; the rest of the state does not matter to it. */
  function Moved(w: Protocol.Producer, a: Act): Option<Protocol.Producer>
  {
    var e := Protocol.ProducerMove(Protocol.START.(store := a.store, producers := map[0 := w]), 0, a.action);
    if e.None? then None else Some(e.value.producer)
  }

  function MovedAll(w: Protocol.Producer, acts: seq<Act>): Option<Protocol.Producer>
  {
    if acts == [] then Some(w)
    else
      var front := MovedAll(w, acts[..|acts| - 1]);
      if front.None? then None else Moved(front.value, acts[|acts| - 1])
  }

  lemma MovedInState(s: Protocol.State, p: nat, a: Protocol.ProducerAction)
    requires p in s.producers && !a.Produce?
    ensures var e, m := Protocol.ProducerMove(s, p, a), Moved(s.producers[p], ActOf(a, s.store));
            (e.Some? <==> m.Some?) && (e.Some? ==> e.value.producer == m.value)
  {
  }

  lemma {:induction false} MovedConcat(w: Protocol.Producer, xs: seq<Act>, ys: seq<Act>)
    ensures MovedAll(w, xs + ys) ==
            if MovedAll(w, xs).None? then None else MovedAll(MovedAll(w, xs).value, ys)
  {
    hide Moved;
    if ys == [] {
      assert xs + ys == xs;
    } else {
      var n := |ys| - 1;
      assert (xs + ys)[..|xs| + n] == xs + ys[..n];
      MovedConcat(w, xs, ys[..n]);
    }
  }

  lemma MovedTwo(w: Protocol.Producer, a: Act, b: Act)
    ensures MovedAll(w, [a, b]) == if Moved(w, a).None? then None else Moved(Moved(w, a).value, b)
  {
    hide Moved;
    MovedOne(w, a);
    assert [a, b][..|[a, b]| - 1] == [a];
  }

  lemma MovedOne(w: Protocol.Producer, a: Act)
    ensures MovedAll(w, [a]) == Moved(w, a)
  {
    hide Moved;
    assert [a][..0] == [];
  }

  /** A call that has stored its file and takes these turns ends in the phase they lead to. */
  lemma {:induction false} TurnsMove(w: Protocol.Producer, turns: seq<Turn>)
    requires w.phase.Stored? && MovedAll(w, TurnActs(turns)).Some?
    ensures MovedAll(w, TurnActs(turns)).value == w.(phase := TurnsPhase(turns))
  {
    hide MovedAll;
    var acts := TurnActs(turns);
    if |acts| == 1 {
      MovedOne(w, acts[0]);
    } else if turns[0].write.WriteConflict? {
      var rest := TurnActs(turns[1..]);
      MovedConcat(w, acts[..2], rest);
      assert acts == acts[..2] + rest && acts[..2] == [acts[0], acts[1]];
      MovedTwo(w, acts[0], acts[1]);
      TurnsMove(w, turns[1..]);
    } else {
      MovedTwo(w, acts[0], acts[1]);
    }
  }

  /** The code's write is the protocol's call: taking the write's steps, the call ends in the
      phase that goes with what the write returns. */
  lemma WriteIsCall(w: Protocol.Producer, io: WriteIo)
    requires w.phase.Writing? && w.location == io.location
    requires MovedAll(w, Acts(io, w.metadata)).Some?
    ensures MovedAll(w, Acts(io, w.metadata)).value == w.(phase := EndPhase(io, w.metadata))
  {
    hide TurnActs, TurnsPhase, Moved;
    var acts := Acts(io, w.metadata);
    var first, rest := acts[0], acts[1..];
    MovedConcat(w, [first], rest);
    assert acts == [first] + rest;
    MovedOne(w, first);
    PutMoves(w, io.put);
    if io.put.PutOk? {
      var w' := w.(phase := Protocol.Stored);
      if Enqueueable(io.location, w.metadata) {
        TurnsMove(w', io.turns);
      } else {
        MovedOne(w', rest[0]);
        AbandonMoves(w');
      }
    }
  }

  lemma PutMoves(w: Protocol.Producer, put: PutResult)
    requires w.phase.Writing?
    ensures Moved(w, ActOf(Protocol.PutFile(put.PutOk?, put.PutOk? || put.applied), None)) ==
            Some(w.(phase := if put.PutOk? then Protocol.Stored else Protocol.Failed))
  {
  }

  lemma AbandonMoves(w: Protocol.Producer)
    requires w.phase.Stored?
    ensures Moved(w, ActOf(Protocol.AbandonProduce, None)) == Some(w.(phase := Protocol.Failed))
  {
  }

  /** Some turn, after others that lost the race, had its write go in, whatever it reported. */
  ghost predicate WentIn(turns: seq<Turn>)
  {
    exists n: nat :: WentInAt(turns, n)
  }

  ghost predicate WentInAt(turns: seq<Turn>, n: nat)
  {
    && Settled(turns, n, Any()) && |turns[n].Manifest().entries| < U32_MAX
    && (forall i :: 0 <= i < n ==> |turns[i].Manifest().entries| < U32_MAX)
    && (turns[n].write.WriteOk? || (turns[n].write.WriteFatal? && turns[n].write.applied))
  }

  ghost predicate Appends(acts: seq<Act>)
  {
    exists i :: 0 <= i < |acts| && acts[i].action.Append?
  }

  lemma WentInStep(turns: seq<Turn>)
    requires turns != [] && turns[0].Tried? && |turns[0].Manifest().entries| < U32_MAX
    requires turns[0].write.WriteConflict?
    ensures WentIn(turns) <==> WentIn(turns[1..])
  {
    if WentIn(turns) {
      var n: nat :| WentInAt(turns, n);
      assert n > 0 && WentInAt(turns[1..], n - 1);
    }
    if WentIn(turns[1..]) {
      var n: nat :| WentInAt(turns[1..], n);
      forall i | 0 <= i < n + 1
        ensures turns[i].Tried? && turns[i].write.WriteConflict? && |turns[i].Manifest().entries| < U32_MAX
      {
        assert i > 0 ==> turns[i] == turns[1..][i - 1];
      }
      assert turns[n + 1] == turns[1..][n];
      assert WentInAt(turns, n + 1);
    }
  }

  /** The steps of an enqueue change the manifest exactly when a write of it went in. */
  lemma {:induction false} TurnsAppend(turns: seq<Turn>)
    ensures Appends(TurnActs(turns)) <==> WentIn(turns)
  {
    var acts := TurnActs(turns);
    if turns == [] || turns[0].Unread? || |turns[0].Manifest().entries| >= U32_MAX {
      assert forall n: nat :: WentInAt(turns, n) ==> n == 0 || (turns != [] && turns[0].Tried?);
    } else if turns[0].write.WriteConflict? {
      TurnsAppend(turns[1..]);
      WentInStep(turns);
      var rest := TurnActs(turns[1..]);
      if Appends(rest) {
        var i :| 0 <= i < |rest| && rest[i].action.Append?;
        assert acts[i + 2] == rest[i];
      }
      if Appends(acts) {
        var i :| 0 <= i < |acts| && acts[i].action.Append?;
        assert i >= 2 && rest[i - 2] == acts[i];
      }
    } else {
      var goes := turns[0].write.WriteOk? || turns[0].write.applied;
      assert acts[1].action.Append? <==> goes;
      assert goes ==> WentInAt(turns, 0);
    }
  }

  // ----- consumers -----

  datatype ConsumedBatch = ConsumedBatch(entries: seq<Bytes>, sequence: u64, location: Bytes, metadata: seq<Metadata>)

  class Consumer {
    var epoch: u64
    var ackCount: nat
    var lastAcked: Option<u64>
    var lastFetched: Option<u64>

    /** The object's fields are those of the protocol's consumer `k`. */
    ghost predicate Is(k: Protocol.Consumer)
      reads this
    {
      epoch == k.epoch && ackCount == k.ackCount && lastAcked == k.lastAcked && lastFetched == k.lastFetched
    }

    constructor (resume: Option<u64>)
      ensures epoch == Protocol.UNINITIALIZED && ackCount == 0 && lastAcked == resume && lastFetched == resume
    {
      epoch, ackCount, lastAcked, lastFetched := Protocol.UNINITIALIZED, 0, resume, resume;
    }

    /** Takes the next epoch of the manifest it wins the race on. */
    method Initialize(turns: seq<Turn>) returns (r: Result<()>, put: Option<ManifestRec>, n: nat)
      modifies `epoch
      ensures put.Some? ==>
                && Settled(turns, n, Any()) && !turns[n].write.WriteConflict?
                && put.value == turns[n].Manifest().(epoch := Protocol.NextEpoch(turns[n].Manifest().epoch))
      ensures r.Ok? <==> put.Some? && turns[n].write.WriteOk?
      ensures put.None? ==> Lost(turns, n, Any()) && (n == |turns| || turns[n].Unread?)
      ensures epoch == if r.Ok? then put.value.epoch else old(epoch)
      ensures r.Ok? ==> epoch != Protocol.UNINITIALIZED
    {
      n, put := 0, None;
      while n < |turns|
        invariant Lost(turns, n, Any()) && epoch == old(epoch)
      {
        var turn := turns[n];
        if turn.Unread? {
          return Err(Error.Storage), None, n;
        }
        var newEpoch := (turn.Manifest().epoch + 1) % TWO_64;
        if newEpoch == Protocol.UNINITIALIZED {
          newEpoch := (newEpoch + 1) % TWO_64;
        }
        var manifest := turn.Manifest().(epoch := newEpoch);
        match turn.write
        case WriteOk =>
          epoch := newEpoch;
          return Ok(()), Some(manifest), n;
        case WriteFatal(_) =>
          return Err(Error.Storage), Some(manifest), n;
        case WriteConflict =>
          n := n + 1;
      }
      return Err(Error.Storage), None, n;
    }

    /** Removes entries only from a manifest with the consumer's own epoch, and returns them. */
    method Dequeue(through: u64, turns: seq<Turn>)
      returns (r: Result<seq<QueueEntry>>, put: Option<ManifestRec>, n: nat)
      ensures DequeueEnds(epoch, through, turns, if r.Ok? then None else Some(r.error), put, n)
      ensures r.Ok? ==> r.value == Removed(turns[n].Manifest().entries, through)
      ensures r.Ok? && Ascending(turns[n].Manifest().entries) ==>
                r.value + put.value.entries == turns[n].Manifest().entries
    {
      n, put := 0, None;
      while n < |turns|
        invariant Lost(turns, n, WithEpoch(epoch))
      {
        var turn := turns[n];
        if turn.Unread? {
          return Err(Error.Storage), None, n;
        }
        if turn.Manifest().epoch != epoch {
          return Err(Fenced), None, n;
        }
        var removed := Removed(turn.Manifest().entries, through);
        var manifest := DequeueRec(turn.Manifest(), through);
        match turn.write
        case WriteOk =>
          RemovedAndKept(turn.Manifest().entries, through);
          return Ok(removed), Some(manifest), n;
        case WriteFatal(_) =>
          return Err(Error.Storage), Some(manifest), n;
        case WriteConflict =>
          n := n + 1;
      }
      return Err(Error.Storage), None, n;
    }

    /** The entry after the last one fetched. The cursor moves only when its file was read
        and decoded; a manifest with another epoch yields nothing. */
    method NextBatch(read: Option<ManifestRec>, file: Bytes -> Result<seq<Bytes>>, ghost k: Protocol.Consumer)
      returns (r: Result<Option<ConsumedBatch>>, ghost n: nat)
      requires Is(k)
      modifies `lastFetched
      ensures read.None? ==> r == Err(Error.Storage)
      ensures read.Some? && read.value.epoch != epoch ==> r == Err(Fenced)
      ensures r == Ok(None) <==>
                && read.Some? && read.value.epoch == epoch
                && if old(lastFetched).None? then read.value.entries == []
                   else forall i :: 0 <= i < |read.value.entries| ==>
                          read.value.entries[i].sequence != (old(lastFetched).value + 1) % TWO_64
      ensures read.Some? && read.value.epoch == epoch && r != Ok(None) ==>
                && n < |read.value.entries|
                && (if old(lastFetched).None? then n == 0
                    else FirstWith(read.value.entries, (old(lastFetched).value + 1) % TWO_64, n))
                && var e := read.value.entries[n];
                && Protocol.NextEntry(k, read.value) == Some(e)
                && (r.Ok? <==> file(e.location).Ok?) && (r.Err? ==> r.error == file(e.location).error)
                && (r.Ok? ==>
                      && r.value == Some(ConsumedBatch(file(e.location).value, e.sequence, e.location, e.metadata))
                      && lastFetched == Some(e.sequence))
      ensures r.Err? || r.value.None? ==> lastFetched == old(lastFetched)
    {
      n := 0;
      if read.None? {
        return Err(Error.Storage), 0;
      }
      if read.value.epoch != epoch {
        return Err(Fenced), 0;
      }
      var entry: Option<QueueEntry>;
      if lastFetched.None? {
        entry := if read.value.entries == [] then None else Some(read.value.entries[0]);
      } else {
        var sequence := (lastFetched.value + 1) % TWO_64;
        FindIs(read.value.entries, sequence);
        entry := Find(read.value.entries, sequence);
        if entry.Some? {
          n :| FirstWith(read.value.entries, sequence, n) && read.value.entries[n] == entry.value;
        }
      }
      if entry.None? {
        return Ok(None), 0;
      }
      var batch := file(entry.value.location);
      if batch.Err? {
        return Err(batch.error), n;
      }
      lastFetched := Some(entry.value.sequence);
      return Ok(Some(ConsumedBatch(batch.value, entry.value.sequence, entry.value.location, entry.value.metadata))), n;
    }

    /** Acknowledgements are accepted in order only; every hundredth one dequeues. */
    method Ack(sequence: u64, turns: seq<Turn>, ghost k: Protocol.Consumer)
      returns (r: Result<()>, put: Option<ManifestRec>, n: nat)
      requires Is(k)
      modifies `ackCount, `lastAcked
      ensures Is(Protocol.Acked(k, sequence))
      ensures k.phase.Ready? ==>
                var next := Protocol.Acked(k, sequence).phase;
                if ackCount > old(ackCount) && ackCount % 100 == 0 then next == Protocol.Dequeuing(sequence)
                else next == k.phase
      ensures var refused := old(lastAcked).Some? && sequence != old(lastAcked).value + 1;
              && (refused ==> r == Err(OutOfOrder) && put.None? && unchanged(this))
              && (!refused ==> lastAcked == Some(sequence) && ackCount == old(ackCount) + 1)
              && (!refused && ackCount % 100 != 0 ==> r == Ok(()) && put.None?)
              && (!refused && ackCount % 100 == 0 ==>
                    DequeueEnds(epoch, sequence, turns, if r.Ok? then None else Some(r.error), put, n))
    {
      if lastAcked.Some? && sequence != lastAcked.value + 1 {
        return Err(OutOfOrder), None, 0;
      }
      lastAcked := Some(sequence);
      ackCount := ackCount + 1;
      r, put, n := Ok(()), None, 0;
      if ackCount % Protocol.DEQUEUE_INTERVAL == 0 {
        var removed;
        removed, put, n := Dequeue(sequence, turns);
        r := if removed.Ok? then Ok(()) else Err(removed.error);
      }
    }

    /** Dequeues through the last acknowledged sequence, if there is one. */
    method Flush(turns: seq<Turn>) returns (r: Result<()>, put: Option<ManifestRec>, n: nat)
      ensures lastAcked.None? ==> r == Ok(()) && put.None?
      ensures lastAcked.Some? ==>
                DequeueEnds(epoch, lastAcked.value, turns, if r.Ok? then None else Some(r.error), put, n)
    {
      r, put, n := Ok(()), None, 0;
      if lastAcked.Some? {
        var removed;
        removed, put, n := Dequeue(lastAcked.value, turns);
        r := if removed.Ok? then Ok(()) else Err(removed.error);
      }
    }
  }

  /** The leading entries at or below the bound. */
  function Removed(es: seq<QueueEntry>, through: u64): seq<QueueEntry>
  {
    es[..CountThrough(es, through)]
  }

  lemma RemovedAndKept(es: seq<QueueEntry>, through: u64)
    ensures Ascending(es) ==> Removed(es, through) + Keep(es, through) == es
  {
    if Ascending(es) {
      DropIsFilter(es, through);
    }
  }

  /** How a dequeue of a consumer with epoch `e` ends: turn `n` is the first that did not lose
      the race on a manifest of that epoch. It writes there, or is fenced, or fails. */
  ghost predicate DequeueEnds(e: u64, through: u64, turns: seq<Turn>, error: Option<Error>,
                              put: Option<ManifestRec>, n: nat)
  {
    && Lost(turns, n, WithEpoch(e))
    && (n < |turns| && turns[n].Tried? && turns[n].Manifest().epoch == e ==>
          && !turns[n].write.WriteConflict?
          && put == Some(DequeueRec(turns[n].Manifest(), through))
          && error == if turns[n].write.WriteOk? then None else Some(Error.Storage))
    && (n < |turns| && turns[n].Tried? && turns[n].Manifest().epoch != e ==> put.None? && error == Some(Fenced))
    && (n == |turns| || turns[n].Unread? ==> put.None? && error == Some(Error.Storage))
  }
}
