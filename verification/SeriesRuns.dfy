/** A time bucket over its whole life: deltas are filled, frozen and merged into the bucket's
    indexes, and the dictionary goes on (timeseries/src/delta.rs, timeseries/src/index.rs). */
module SeriesRuns {
  import opened ByteStrings
  import opened LabelIndexes
  import opened SeriesDeltas

  /** The open delta, what the frozen ones were merged into, and the accepted samples. */
  datatype State = State(
    delta: Delta, forward: Forward, postings: Postings, flushed: map<nat, seq<Sample>>, history: seq<Item>)

  function FlushedOf(m: map<nat, seq<Sample>>, id: nat): seq<Sample>
  {
    if id in m then m[id] else []
  }

  function PointsOf(m: map<nat, SeriesSamples>, id: nat): seq<Sample>
  {
    if id in m then m[id].points else []
  }

  // ----- the bucket as a whole: frozen and open parts together -----

  function Dict(d: Delta): map<nat, nat>
  {
    d.base + d.overlay
  }

  function Specs(s: State): Forward
  {
    s.forward + s.delta.forward
  }

  function ListedUnder(s: State, l: Label): set<nat>
  {
    PostingsOf(s.postings, l) + PostingsOf(s.delta.postings, l)
  }

  function Points(s: State, id: nat): seq<Sample>
  {
    FlushedOf(s.flushed, id) + PointsOf(s.delta.samples, id)
  }

  // ----- steps -----

  datatype Step = Apply(write: seq<Series>) | Freeze

  function Merged(flushed: map<nat, seq<Sample>>, samples: map<nat, SeriesSamples>): map<nat, seq<Sample>>
  {
    map id | id in flushed.Keys + samples.Keys :: FlushedOf(flushed, id) + PointsOf(samples, id)
  }

  ghost predicate Next(h: Hash, s: State, step: Step, s': State)
  {
    match step
    case Apply(write) =>
      var items := Accepted(s.delta.bucketStart, AllItems(write));
      s' == s.(delta := PutAll(h, s.delta, items), history := s.history + items)
    case Freeze =>
      && IsMerge(s.postings, s.delta.postings, s'.postings)
      && s'.forward == s.forward + s.delta.forward
      && s'.flushed == Merged(s.flushed, s.delta.samples)
      && s'.delta == Empty(s.delta.bucketStart, Dict(s.delta), s.delta.next)
      && s'.history == s.history
  }

  function Start(bucketStart: nat): State
  {
    State(Empty(bucketStart, map[], 0), map[], map[], map[], [])
  }

  ghost predicate Run(h: Hash, start: nat, states: seq<State>, steps: seq<Step>)
  {
    && |states| == |steps| + 1
    && states[0] == Start(start)
    && forall i {:trigger StepAt(h, states, steps, i)} :: 0 <= i < |steps| ==> StepAt(h, states, steps, i)
  }

  ghost predicate StepAt(h: Hash, states: seq<State>, steps: seq<Step>, i: nat)
    requires i < |steps| && |states| == |steps| + 1
  {
    Next(h, states[i], steps[i], states[i + 1])
  }

  // ----- what the parts say about the accepted samples -----

  function Print(h: Hash, item: Item): nat
  {
    Fingerprint(h, item.spec.labels)
  }

  /** The accepted samples of a fingerprint, in arrival order. */
  function SamplesOf(h: Hash, history: seq<Item>, f: nat): seq<Sample>
  {
    if history == [] then []
    else
      var n := |history| - 1;
      SamplesOf(h, history[..n], f) + if Print(h, history[n]) == f then [history[n].sample] else []
  }

  ghost predicate Seen(h: Hash, history: seq<Item>, f: nat)
  {
    exists i :: 0 <= i < |history| && Print(h, history[i]) == f
  }

  /** The description is the one of the first accepted sample with the fingerprint. */
  ghost predicate IsFirst(h: Hash, history: seq<Item>, f: nat, spec: SeriesSpec)
  {
    exists i :: 0 <= i < |history| && Print(h, history[i]) == f && history[i].spec == spec &&
                forall j :: 0 <= j < i ==> Print(h, history[j]) != f
  }

  /** One id per fingerprint seen, each below the next one. */
  ghost predicate DictInv(h: Hash, history: seq<Item>, dict: map<nat, nat>, next: nat)
  {
    && (forall f :: f in dict <==> Seen(h, history, f))
    && (forall f :: f in dict ==> dict[f] < next)
    && forall f, g :: f in dict && g in dict && f != g ==> dict[f] != dict[g]
  }

  ghost predicate HasId(dict: map<nat, nat>, id: nat)
  {
    exists f :: f in dict && dict[f] == id
  }

  /** Exactly the assigned ids are described, each by its first sample. */
  ghost predicate SpecInv(h: Hash, history: seq<Item>, dict: map<nat, nat>, specs: Forward)
  {
    && (forall id :: id in specs <==> HasId(dict, id))
    && forall f :: f in dict ==> dict[f] in specs && IsFirst(h, history, f, specs[dict[f]])
  }

  /** The inverted index lists a series under exactly the labels of its description. */
  ghost predicate IndexInv(specs: Forward, s: State)
  {
    forall l, id :: id in ListedUnder(s, l) <==> id in specs && l in specs[id].labels
  }

  /** Under its id a fingerprint has its accepted samples, in order, and nothing else. */
  ghost predicate PointInv(h: Hash, history: seq<Item>, dict: map<nat, nat>, s: State)
  {
    && (forall f :: f in dict ==> Points(s, dict[f]) == SamplesOf(h, history, f))
    && forall id :: !HasId(dict, id) ==> Points(s, id) == []
  }

  ghost predicate Inv(h: Hash, s: State)
  {
    && DictInv(h, s.history, Dict(s.delta), s.delta.next)
    && SpecInv(h, s.history, Dict(s.delta), Specs(s))
    && IndexInv(Specs(s), s)
    && PointInv(h, s.history, Dict(s.delta), s)
  }

  // ----- one accepted sample -----

  lemma {:induction false} AddPostingsOf(p: Postings, labels: seq<Label>, id: nat)
    ensures forall l :: PostingsOf(AddPostings(p, labels, id), l) == PostingsOf(p, l) + if l in labels then {id} else {}
  {
    if labels != [] {
      var n := |labels| - 1;
      AddPostingsOf(p, labels[..n], id);
      var q := AddPostings(p, labels[..n], id);
      forall l
        ensures PostingsOf(AddPostings(p, labels, id), l) == PostingsOf(p, l) + if l in labels then {id} else {}
      {
        assert PostingsOf(q, l) == PostingsOf(p, l) + if l in labels[..n] then {id} else {};
        assert l in labels <==> l in labels[..n] || l == labels[n];
      }
    }
  }

  lemma SeenMore(h: Hash, history: seq<Item>, item: Item, f: nat)
    ensures Seen(h, history + [item], f) <==> Seen(h, history, f) || Print(h, item) == f
  {
    var more := history + [item];
    if Seen(h, history, f) {
      var i :| 0 <= i < |history| && Print(h, history[i]) == f;
      assert more[i] == history[i];
    }
    assert more[|history|] == item;
  }

  lemma FirstStays(h: Hash, history: seq<Item>, item: Item, f: nat, spec: SeriesSpec)
    requires IsFirst(h, history, f, spec)
    ensures IsFirst(h, history + [item], f, spec)
  {
    var more := history + [item];
    var i :| 0 <= i < |history| && Print(h, history[i]) == f && history[i].spec == spec &&
             forall j :: 0 <= j < i ==> Print(h, history[j]) != f;
    assert more[i] == history[i];
  }

  lemma FirstIsNew(h: Hash, history: seq<Item>, item: Item)
    requires !Seen(h, history, Print(h, item))
    ensures IsFirst(h, history + [item], Print(h, item), item.spec)
  {
    var more := history + [item];
    assert more[|history|] == item;
    forall j | 0 <= j < |history|
      ensures Print(h, more[j]) != Print(h, item)
    {
      assert more[j] == history[j];
    }
  }

  lemma SamplesMore(h: Hash, history: seq<Item>, item: Item, f: nat)
    ensures SamplesOf(h, history + [item], f)
         == SamplesOf(h, history, f) + if Print(h, item) == f then [item.sample] else []
  {
  }

  lemma {:induction false} NoSamples(h: Hash, history: seq<Item>, f: nat)
    requires !Seen(h, history, f)
    ensures SamplesOf(h, history, f) == []
  {
    if history != [] {
      var n := |history| - 1;
      forall i | 0 <= i < n
        ensures Print(h, history[..n][i]) != f
      {
        assert history[..n][i] == history[i];
      }
      NoSamples(h, history[..n], f);
    }
  }

  function Added(h: Hash, s: State, item: Item): State
  {
    s.(delta := Put(h, s.delta, item), history := s.history + [item])
  }

  /** What one sample does to the bucket, for a series that has an id. */
  lemma KnownPut(h: Hash, s: State, item: Item)
    requires Print(h, item) in Dict(s.delta)
    ensures var s', id := Added(h, s, item), Dict(s.delta)[Print(h, item)];
            && Dict(s'.delta) == Dict(s.delta) && s'.delta.next == s.delta.next && Specs(s') == Specs(s)
            && (forall l :: ListedUnder(s', l) == ListedUnder(s, l))
            && forall i :: Points(s', i) == Points(s, i) + if i == id then [item.sample] else []
  {
    var s', id := Added(h, s, item), Dict(s.delta)[Print(h, item)];
    forall i
      ensures Points(s', i) == Points(s, i) + if i == id then [item.sample] else []
    {
    }
  }

  lemma NewPutLists(h: Hash, s: State, item: Item)
    requires Print(h, item) !in Dict(s.delta)
    ensures forall l :: ListedUnder(Added(h, s, item), l)
                     == ListedUnder(s, l) + if l in item.spec.labels then {s.delta.next} else {}
  {
    hide AddPostings, Fingerprint, MetricName;
    var s', id := Added(h, s, item), s.delta.next;
    AddPostingsOf(s.delta.postings, item.spec.labels, id);
    assert s'.delta.postings == AddPostings(s.delta.postings, item.spec.labels, id);
  }

  lemma NewPutPoints(h: Hash, s: State, item: Item)
    requires Print(h, item) !in Dict(s.delta)
    ensures forall i :: Points(Added(h, s, item), i) == Points(s, i) + if i == s.delta.next then [item.sample] else []
  {
  }

  /** And for a new series: it gets the next id. */
  lemma NewPut(h: Hash, s: State, item: Item)
    requires Print(h, item) !in Dict(s.delta)
    ensures var s', id := Added(h, s, item), s.delta.next;
            && Dict(s'.delta) == Dict(s.delta)[Print(h, item) := id] && s'.delta.next == id + 1
            && Specs(s') == Specs(s)[id := item.spec]
            && (forall l :: ListedUnder(s', l) == ListedUnder(s, l) + if l in item.spec.labels then {id} else {})
            && forall i :: Points(s', i) == Points(s, i) + if i == id then [item.sample] else []
  {
    hide Put, Dict, Specs, ListedUnder, Points;
    NewPutNames(h, s, item);
    NewPutLists(h, s, item);
    NewPutPoints(h, s, item);
  }

  lemma NewPutNames(h: Hash, s: State, item: Item)
    requires Print(h, item) !in Dict(s.delta)
    ensures var s', id := Added(h, s, item), s.delta.next;
            && Dict(s'.delta) == Dict(s.delta)[Print(h, item) := id] && s'.delta.next == id + 1
            && Specs(s') == Specs(s)[id := item.spec]
  {
    hide AddPostings, Fingerprint, MetricName;
    var d := s.delta;
    PlusUpdate(d.base, d.overlay, Print(h, item), d.next);
    PlusUpdate(s.forward, d.forward, d.next, item.spec);
  }

  lemma PlusUpdate<V>(a: map<nat, V>, b: map<nat, V>, k: nat, v: V)
    ensures a + b[k := v] == (a + b)[k := v]
  {
  }

  lemma DictKnown(h: Hash, history: seq<Item>, dict: map<nat, nat>, next: nat, item: Item)
    requires DictInv(h, history, dict, next) && Print(h, item) in dict
    ensures DictInv(h, history + [item], dict, next)
  {
    forall f
      ensures Seen(h, history + [item], f) <==> Seen(h, history, f) || Print(h, item) == f
    {
      SeenMore(h, history, item, f);
    }
  }

  lemma DictNew(h: Hash, history: seq<Item>, dict: map<nat, nat>, next: nat, item: Item)
    requires DictInv(h, history, dict, next) && Print(h, item) !in dict
    ensures DictInv(h, history + [item], dict[Print(h, item) := next], next + 1)
  {
    forall f
      ensures Seen(h, history + [item], f) <==> Seen(h, history, f) || Print(h, item) == f
    {
      SeenMore(h, history, item, f);
    }
  }

  lemma SpecKnown(h: Hash, history: seq<Item>, dict: map<nat, nat>, specs: Forward, item: Item)
    requires SpecInv(h, history, dict, specs)
    ensures SpecInv(h, history + [item], dict, specs)
  {
    forall f | f in dict
      ensures IsFirst(h, history + [item], f, specs[dict[f]])
    {
      FirstStays(h, history, item, f, specs[dict[f]]);
    }
  }

  lemma SpecNew(h: Hash, history: seq<Item>, dict: map<nat, nat>, next: nat, specs: Forward, item: Item)
    requires DictInv(h, history, dict, next) && SpecInv(h, history, dict, specs) && Print(h, item) !in dict
    ensures SpecInv(h, history + [item], dict[Print(h, item) := next], specs[next := item.spec])
  {
    hide IsFirst;
    var f0, dict', specs' := Print(h, item), dict[Print(h, item) := next], specs[next := item.spec];
    FirstIsNew(h, history, item);
    forall f | f in dict
      ensures IsFirst(h, history + [item], f, specs'[dict[f]])
    {
      FirstStays(h, history, item, f, specs[dict[f]]);
    }
    forall id
      ensures HasId(dict', id) <==> HasId(dict, id) || id == next
    {
      HasIdMore(dict, f0, next, id);
    }
  }

  lemma HasIdMore(dict: map<nat, nat>, f: nat, next: nat, id: nat)
    requires f !in dict
    ensures HasId(dict[f := next], id) <==> HasId(dict, id) || id == next
  {
    var dict' := dict[f := next];
    if HasId(dict, id) {
      var g :| g in dict && dict[g] == id;
      assert g in dict' && dict'[g] == id;
    }
    assert f in dict' && dict'[f] == next;
  }

  lemma PointKnown(h: Hash, s: State, s': State, dict: map<nat, nat>, next: nat, item: Item)
    requires DictInv(h, s.history, dict, next) && PointInv(h, s.history, dict, s) && Print(h, item) in dict
    requires forall i :: Points(s', i) == Points(s, i) + if i == dict[Print(h, item)] then [item.sample] else []
    ensures PointInv(h, s.history + [item], dict, s')
  {
    hide Seen, SamplesOf, Points;
    forall f | f in dict
      ensures Points(s', dict[f]) == SamplesOf(h, s.history + [item], f)
    {
      SamplesMore(h, s.history, item, f);
    }
  }

  lemma PointNew(h: Hash, s: State, s': State, dict: map<nat, nat>, next: nat, item: Item)
    requires DictInv(h, s.history, dict, next) && PointInv(h, s.history, dict, s) && Print(h, item) !in dict
    requires forall i :: Points(s', i) == Points(s, i) + if i == next then [item.sample] else []
    ensures PointInv(h, s.history + [item], dict[Print(h, item) := next], s')
  {
    hide Seen, SamplesOf, Points;
    var f0 := Print(h, item);
    var dict' := dict[f0 := next];
    assert !HasId(dict, next);
    NoSamples(h, s.history, f0);
    forall f | f in dict'
      ensures Points(s', dict'[f]) == SamplesOf(h, s.history + [item], f)
    {
      SamplesMore(h, s.history, item, f);
    }
    forall id | !HasId(dict', id)
      ensures Points(s', id) == []
    {
      HasIdMore(dict, f0, next, id);
    }
  }

  lemma AddKeeps(h: Hash, s: State, item: Item)
    requires Inv(h, s)
    ensures Inv(h, Added(h, s, item))
  {
    hide DictInv, SpecInv, PointInv, Points, Specs, Dict, ListedUnder, Put;
    var s', dict, next := Added(h, s, item), Dict(s.delta), s.delta.next;
    if Print(h, item) in dict {
      KnownPut(h, s, item);
      DictKnown(h, s.history, dict, next, item);
      SpecKnown(h, s.history, dict, Specs(s), item);
      PointKnown(h, s, s', dict, next, item);
    } else {
      NewPut(h, s, item);
      DictNew(h, s.history, dict, next, item);
      SpecNew(h, s.history, dict, next, Specs(s), item);
      PointNew(h, s, s', dict, next, item);
      FreshId(h, s);
    }
  }

  lemma FreshId(h: Hash, s: State)
    requires Inv(h, s)
    ensures s.delta.next !in Specs(s)
  {
    hide Specs, Dict, IsFirst, Seen;
  }

  // ----- whole runs -----

  lemma {:induction false} ApplyKeeps(h: Hash, s: State, items: seq<Item>)
    requires Inv(h, s)
    ensures Inv(h, s.(delta := PutAll(h, s.delta, items), history := s.history + items))
  {
    hide Inv, Put;
    if items == [] {
      assert s.history + items == s.history;
    } else {
      var n := |items| - 1;
      var front := s.(delta := PutAll(h, s.delta, items[..n]), history := s.history + items[..n]);
      ApplyKeeps(h, s, items[..n]);
      AddKeeps(h, front, items[n]);
      assert s.history + items == front.history + [items[n]];
    }
  }

  /** A freeze moves the parts and changes nothing about the bucket as a whole. */
  lemma FreezeTotals(h: Hash, s: State, s': State)
    requires Next(h, s, Freeze, s')
    ensures Dict(s'.delta) == Dict(s.delta) && s'.delta.next == s.delta.next && Specs(s') == Specs(s)
    ensures forall l :: ListedUnder(s', l) == ListedUnder(s, l)
    ensures forall id :: Points(s', id) == Points(s, id)
  {
  }

  lemma StepKeeps(h: Hash, s: State, step: Step, s': State)
    requires Inv(h, s) && Next(h, s, step, s')
    ensures Inv(h, s')
  {
    match step
    case Apply(write) => ApplyKeeps(h, s, Accepted(s.delta.bucketStart, AllItems(write)));
    case Freeze => FreezeKeeps(h, s, s');
  }

  lemma FreezeKeeps(h: Hash, s: State, s': State)
    requires Inv(h, s) && Next(h, s, Freeze, s')
    ensures Inv(h, s')
  {
    hide Points, Specs, Dict, ListedUnder, IsFirst, Seen;
    FreezeTotals(h, s, s');
  }

  lemma {:induction false} InvAlong(h: Hash, start: nat, states: seq<State>, steps: seq<Step>, n: nat)
    requires Run(h, start, states, steps) && n < |states|
    ensures Inv(h, states[n])
    decreases n
  {
    hide Next;
    if n > 0 {
      InvAlong(h, start, states, steps, n - 1);
      assert StepAt(h, states, steps, n - 1);
      StepKeeps(h, states[n - 1], steps[n - 1], states[n]);
    }
  }

  /** The id under which an accepted sample is stored. */
  function IdOf(h: Hash, s: State, i: nat): nat
    requires i < |s.history| && Print(h, s.history[i]) in Dict(s.delta)
  {
    Dict(s.delta)[Print(h, s.history[i])]
  }

  /** After any applies and freezes, every accepted sample has an id, and under it are the
      samples of its fingerprint, each once and in arrival order. */
  lemma SamplesInOrder(h: Hash, start: nat, states: seq<State>, steps: seq<Step>, n: nat, i: nat)
    requires Run(h, start, states, steps) && n < |states| && i < |states[n].history|
    ensures Print(h, states[n].history[i]) in Dict(states[n].delta)
    ensures Points(states[n], IdOf(h, states[n], i)) == SamplesOf(h, states[n].history, Print(h, states[n].history[i]))
  {
    hide Points, Specs, Dict, ListedUnder, IsFirst, SamplesOf;
    InvAlong(h, start, states, steps, n);
    assert Seen(h, states[n].history, Print(h, states[n].history[i]));
  }

  /** On the merged indexes, the series under all of some terms are exactly those whose
      description carries every term. */
  lemma IntersectAgrees(
      h: Hash, start: nat, states: seq<State>, steps: seq<Step>, n: nat, all: Postings, terms: seq<Label>)
    requires Run(h, start, states, steps) && n < |states| && terms != []
    requires IsMerge(states[n].postings, states[n].delta.postings, all)
    ensures forall id :: UnderAll(all, terms, id) <==>
              id in Specs(states[n]) && forall i :: 0 <= i < |terms| ==> terms[i] in Specs(states[n])[id].labels
  {
    hide Specs, DictInv, SpecInv, PointInv;
    InvAlong(h, start, states, steps, n);
    var s := states[n];
    forall l
      ensures PostingsOf(all, l) == ListedUnder(s, l)
    {
    }
    forall id
      ensures UnderAll(all, terms, id) <==>
              id in Specs(s) && forall i :: 0 <= i < |terms| ==> terms[i] in Specs(s)[id].labels
    {
      assert id in PostingsOf(all, terms[0]) <==> id in Specs(s) && terms[0] in Specs(s)[id].labels;
    }
  }

  /** Two accepted samples share an id exactly when their labels have the same fingerprint,
      whatever the hash. */
  lemma SameSeriesIff(h: Hash, start: nat, states: seq<State>, steps: seq<Step>, n: nat, i: nat, j: nat)
    requires Run(h, start, states, steps) && n < |states|
    requires i < |states[n].history| && j < |states[n].history|
    ensures var s := states[n];
            && Print(h, s.history[i]) in Dict(s.delta) && Print(h, s.history[j]) in Dict(s.delta)
            && (IdOf(h, s, i) == IdOf(h, s, j) <==> Print(h, s.history[i]) == Print(h, s.history[j]))
  {
    hide Dict, SpecInv, PointInv, Print;
    SamplesInOrder(h, start, states, steps, n, i);
    SamplesInOrder(h, start, states, steps, n, j);
    InvAlong(h, start, states, steps, n);
  }

  /** No two accepted label lists that differ have the same fingerprint. */
  ghost predicate PrintsDiffer(h: Hash, history: seq<Item>)
  {
    forall i, j :: 0 <= i < |history| && 0 <= j < |history| ==>
      (Print(h, history[i]) == Print(h, history[j]) ==> history[i].spec.labels == history[j].spec.labels)
  }

  /** Every accepted sample is stored under a series with its own labels. */
  ghost predicate OwnLabels(h: Hash, s: State)
  {
    forall i :: 0 <= i < |s.history| ==>
      && Print(h, s.history[i]) in Dict(s.delta)
      && IdOf(h, s, i) in Specs(s)
      && Specs(s)[IdOf(h, s, i)].labels == s.history[i].spec.labels
  }

  lemma StoredFirst(h: Hash, start: nat, states: seq<State>, steps: seq<Step>, n: nat, i: nat) returns (k: nat)
    requires Run(h, start, states, steps) && n < |states| && i < |states[n].history|
    ensures var s := states[n];
            && Print(h, s.history[i]) in Dict(s.delta) && IdOf(h, s, i) in Specs(s)
            && k < |s.history| && Print(h, s.history[k]) == Print(h, s.history[i])
            && s.history[k].spec == Specs(s)[IdOf(h, s, i)]
  {
    hide Dict, Specs, PointInv, Print;
    SamplesInOrder(h, start, states, steps, n, i);
    InvAlong(h, start, states, steps, n);
    var s := states[n];
    var f := Print(h, s.history[i]);
    assert IsFirst(h, s.history, f, Specs(s)[Dict(s.delta)[f]]);
    k :| 0 <= k < |s.history| && Print(h, s.history[k]) == f && s.history[k].spec == Specs(s)[Dict(s.delta)[f]];
  }

  /** Every sample is stored under its own labels exactly when no two accepted label lists
      that differ have the same fingerprint, whatever the hash. */
  lemma OwnLabelsIff(h: Hash, start: nat, states: seq<State>, steps: seq<Step>, n: nat)
    requires Run(h, start, states, steps) && n < |states|
    ensures OwnLabels(h, states[n]) <==> PrintsDiffer(h, states[n].history)
  {
    hide Run, Dict, Specs, Print;
    var s := states[n];
    if PrintsDiffer(h, s.history) {
      forall i | 0 <= i < |s.history|
        ensures Print(h, s.history[i]) in Dict(s.delta) && IdOf(h, s, i) in Specs(s)
        ensures Specs(s)[IdOf(h, s, i)].labels == s.history[i].spec.labels
      {
        var k := StoredFirst(h, start, states, steps, n, i);
      }
    }
    if OwnLabels(h, s) {
      forall i, j | 0 <= i < |s.history| && 0 <= j < |s.history| && Print(h, s.history[i]) == Print(h, s.history[j])
        ensures s.history[i].spec.labels == s.history[j].spec.labels
      {
        assert Specs(s)[IdOf(h, s, i)].labels == s.history[i].spec.labels;
        assert Specs(s)[IdOf(h, s, j)].labels == s.history[j].spec.labels;
      }
    }
  }

  /** Then a label list has one id, and different lists have different ids. */
  lemma OneIdPerLabels(h: Hash, start: nat, states: seq<State>, steps: seq<Step>, n: nat, i: nat, j: nat)
    requires Run(h, start, states, steps) && n < |states| && PrintsDiffer(h, states[n].history)
    requires i < |states[n].history| && j < |states[n].history|
    ensures var s := states[n];
            && Print(h, s.history[i]) in Dict(s.delta) && Print(h, s.history[j]) in Dict(s.delta)
            && (IdOf(h, s, i) == IdOf(h, s, j) <==> s.history[i].spec.labels == s.history[j].spec.labels)
  {
    hide Run, Dict;
    SameSeriesIff(h, start, states, steps, n, i, j);
  }

  // ----- fingerprints without separators -----

  /** The hash tells apart the byte strings it was given. */
  ghost predicate InjectiveOn(h: Hash, history: seq<Item>)
  {
    forall i, j :: 0 <= i < |history| && 0 <= j < |history| && Print(h, history[i]) == Print(h, history[j]) ==>
      Joined(history[i].spec.labels) == Joined(history[j].spec.labels)
  }

  /** No two accepted label lists that differ are written the same. */
  ghost predicate WritingsDiffer(history: seq<Item>)
  {
    forall i, j :: 0 <= i < |history| && 0 <= j < |history| ==>
      (Joined(history[i].spec.labels) == Joined(history[j].spec.labels) ==>
       history[i].spec.labels == history[j].spec.labels)
  }

  /** Where the hash itself does not collide, what decides is whether label lists that differ
      are written the same: only then is a sample stored under labels not its own. */
  lemma OwnLabelsIffWritingsDiffer(h: Hash, start: nat, states: seq<State>, steps: seq<Step>, n: nat)
    requires Run(h, start, states, steps) && n < |states| && InjectiveOn(h, states[n].history)
    ensures OwnLabels(h, states[n]) <==> WritingsDiffer(states[n].history)
  {
    hide Run, OwnLabels, Joined;
    OwnLabelsIff(h, start, states, steps, n);
  }

  /** Accepted label lists of the same shape that differ are different series, as long as the
      hash tells apart what it was given. */
  lemma SameShapeDifferentIds(h: Hash, start: nat, states: seq<State>, steps: seq<Step>, n: nat, i: nat, j: nat)
    requires Run(h, start, states, steps) && n < |states| && InjectiveOn(h, states[n].history)
    requires i < |states[n].history| && j < |states[n].history|
    requires SameShape(states[n].history[i].spec.labels, states[n].history[j].spec.labels)
    ensures var s := states[n];
            && Print(h, s.history[i]) in Dict(s.delta) && Print(h, s.history[j]) in Dict(s.delta)
            && (IdOf(h, s, i) == IdOf(h, s, j) <==> s.history[i].spec.labels == s.history[j].spec.labels)
  {
    hide Run, Dict, Joined;
    SameSeriesIff(h, start, states, steps, n, i, j);
    JoinedSameShape(states[n].history[i].spec.labels, states[n].history[j].spec.labels);
  }

  /** Two writes with the same labels in any order, of distinct names, go to one series. */
  lemma OneIdInAnyOrder(h: Hash, start: nat, states: seq<State>, steps: seq<Step>, n: nat, i: nat, j: nat,
                        a: seq<Label>, b: seq<Label>)
    requires Run(h, start, states, steps) && n < |states|
    requires i < |states[n].history| && j < |states[n].history|
    requires states[n].history[i].spec.labels == SortByName(a) && states[n].history[j].spec.labels == SortByName(b)
    requires DistinctNames(a) && DistinctNames(b) && forall l :: l in a <==> l in b
    ensures var s := states[n];
            && Print(h, s.history[i]) in Dict(s.delta) && Print(h, s.history[j]) in Dict(s.delta)
            && IdOf(h, s, i) == IdOf(h, s, j)
  {
    hide Run, Dict, SortByName;
    SameSeriesIff(h, start, states, steps, n, i, j);
    OrderIsForgotten(a, b);
  }

  // ----- the metric name of a series -----

  /** The name stored with an id is the metric name of an accepted sample with that id. */
  ghost predicate NamedBy(h: Hash, s: State, id: nat, k: int)
    requires id in s.delta.samples
  {
    && 0 <= k < |s.history| && Print(h, s.history[k]) in Dict(s.delta) && Dict(s.delta)[Print(h, s.history[k])] == id
    && IsMetricName(s.history[k].spec.labels, s.delta.samples[id].metricName)
  }

  ghost predicate NameInv(h: Hash, s: State)
  {
    forall id :: id in s.delta.samples ==> exists k :: NamedBy(h, s, id, k)
  }

  lemma AddNames(h: Hash, s: State, item: Item)
    requires Inv(h, s) && NameInv(h, s)
    ensures NameInv(h, Added(h, s, item))
  {
    hide DictInv, SpecInv, PointInv, IndexInv, IsMetricName, AddPostings, MetricName;
    var s' := Added(h, s, item);
    MetricNameIs(item.spec.labels);
    DictGrows(h, s, item);
    forall id | id in s'.delta.samples
      ensures exists k :: NamedBy(h, s', id, k)
    {
      if id in s.delta.samples {
        var k :| NamedBy(h, s, id, k);
        assert s'.history[k] == s.history[k];
        assert NamedBy(h, s', id, k);
      } else {
        assert s'.history[|s.history|] == item;
        assert NamedBy(h, s', id, |s.history|);
      }
    }
  }

  /** Ids stay, and the sample's own id is the one it is stored under. */
  lemma DictGrows(h: Hash, s: State, item: Item)
    ensures var s' := Added(h, s, item);
            && (forall f :: f in Dict(s.delta) ==> f in Dict(s'.delta) && Dict(s'.delta)[f] == Dict(s.delta)[f])
            && Print(h, item) in Dict(s'.delta)
            && forall id :: id in s'.delta.samples ==>
                 if id in s.delta.samples then s'.delta.samples[id].metricName == s.delta.samples[id].metricName
                 else id == Dict(s'.delta)[Print(h, item)]
                      && s'.delta.samples[id].metricName == MetricName(item.spec.labels)
  {
    hide AddPostings, MetricName, Fingerprint;
  }

  lemma {:induction false} ApplyNames(h: Hash, s: State, items: seq<Item>)
    requires Inv(h, s) && NameInv(h, s)
    ensures NameInv(h, s.(delta := PutAll(h, s.delta, items), history := s.history + items))
  {
    hide Inv, Put, NameInv;
    if items == [] {
      assert s.history + items == s.history;
    } else {
      var n := |items| - 1;
      var front := s.(delta := PutAll(h, s.delta, items[..n]), history := s.history + items[..n]);
      ApplyKeeps(h, s, items[..n]);
      ApplyNames(h, s, items[..n]);
      AddNames(h, front, items[n]);
      assert s.history + items == front.history + [items[n]];
    }
  }

  lemma {:induction false} NamesAlong(h: Hash, start: nat, states: seq<State>, steps: seq<Step>, n: nat)
    requires Run(h, start, states, steps) && n < |states|
    ensures NameInv(h, states[n])
    decreases n
  {
    hide Inv, PutAll, Accepted;
    if n > 0 {
      NamesAlong(h, start, states, steps, n - 1);
      InvAlong(h, start, states, steps, n - 1);
      assert StepAt(h, states, steps, n - 1);
      var s, step := states[n - 1], steps[n - 1];
      if step.Apply? {
        ApplyNames(h, s, Accepted(s.delta.bucketStart, AllItems(step.write)));
      }
    }
  }

  /** Where label lists that differ have different fingerprints, the name stored with a
      series is the value of the first `__name__` label of its description. */
  lemma StoredMetricName(h: Hash, start: nat, states: seq<State>, steps: seq<Step>, n: nat, id: nat)
    requires Run(h, start, states, steps) && n < |states| && PrintsDiffer(h, states[n].history)
    requires id in states[n].delta.samples
    ensures id in Specs(states[n])
    ensures IsMetricName(Specs(states[n])[id].labels, states[n].delta.samples[id].metricName)
  {
    hide Run, Dict, Specs, IsMetricName, Print;
    NamesAlong(h, start, states, steps, n);
    var k :| NamedBy(h, states[n], id, k);
    var i := StoredFirst(h, start, states, steps, n, k);
  }

  /** Such lists exist: a=bc and ab=c, as ASCII bytes. */
  const SHORT_NAME: seq<Label> := [Label([0x61], [0x62, 0x63])]
  const LONG_NAME: seq<Label> := [Label([0x61, 0x62], [0x63])]

  lemma WrittenTheSame()
    ensures SHORT_NAME != LONG_NAME && Joined(SHORT_NAME) == Joined(LONG_NAME)
  {
  }

  /** A bucket that accepts a sample of each answers a query for ab=c with nothing, whatever
      the hash. */
  lemma CollisionHidesSeries(h: Hash, start: nat, a: Sample, b: Sample)
    requires InBucket(start, a.timestampMs) && InBucket(start, b.timestampMs)
    ensures var items := [Item(SeriesSpec(None, None, SHORT_NAME), a), Item(SeriesSpec(None, None, LONG_NAME), b)];
            var d := PutAll(h, Empty(start, map[], 0), items);
            && d.next == 1 && PointsOf(d.samples, 0) == [a, b]
            && PostingsOf(d.postings, LONG_NAME[0]) == {}
  {
    WrittenTheSame();
    var x, y := Item(SeriesSpec(None, None, SHORT_NAME), a), Item(SeriesSpec(None, None, LONG_NAME), b);
    var d0 := Empty(start, map[], 0);
    PutOneMore(h, d0, [x], y);
    PutOneMore(h, d0, [], x);
    assert [x] + [y] == [x, y] && [] + [x] == [x];
    var d1 := Put(h, d0, x);
    AddPostingsOf(map[], SHORT_NAME, 0);
    assert Fingerprint(h, LONG_NAME) in d1.overlay;
  }
}
