/** The write side of a time bucket: a series dictionary carried across freezes, the label
    indexes and the samples of a delta (timeseries/src/delta.rs). */
module SeriesDeltas {
  import opened ByteStrings
  import opened LabelIndexes

  /** A point; the value is kept as its bit pattern. */
  datatype Sample = Sample(timestampMs: i64, value: nat)

  datatype Series = Series(labels: seq<Label>, unit: Option<Bytes>, metricType: Option<nat>, samples: seq<Sample>)

  /** The hash behind fingerprints, whose code is not part of this model. */
  type Hash = Bytes -> nat

  // ----- labels in order of their names -----

  function InsertByName(sorted: seq<Label>, l: Label): seq<Label>
  {
    if sorted == [] || !Less(l.name, sorted[|sorted| - 1].name) then sorted + [l]
    else InsertByName(sorted[..|sorted| - 1], l) + [sorted[|sorted| - 1]]
  }

  /** The stable sort by name. */
  function SortByName(ls: seq<Label>): seq<Label>
  {
    if ls == [] then [] else InsertByName(SortByName(ls[..|ls| - 1]), ls[|ls| - 1])
  }

  ghost predicate ByName(ls: seq<Label>)
  {
    forall i, j :: 0 <= i < j < |ls| ==> AtMost(ls[i].name, ls[j].name)
  }

  function Named(ls: seq<Label>, name: Bytes): seq<Label>
  {
    if ls == [] then []
    else Named(ls[..|ls| - 1], name) + if ls[|ls| - 1].name == name then [ls[|ls| - 1]] else []
  }

  lemma {:induction false} InsertByNameOk(sorted: seq<Label>, l: Label)
    requires ByName(sorted)
    ensures ByName(InsertByName(sorted, l))
    ensures forall x :: x in InsertByName(sorted, l) ==> x in sorted || x == l
  {
    if sorted != [] {
      var n := |sorted| - 1;
      if Less(l.name, sorted[n].name) {
        InsertByNameOk(sorted[..n], l);
        var front := InsertByName(sorted[..n], l);
        forall i | 0 <= i < |front|
          ensures AtMost(front[i].name, sorted[n].name)
        {
          assert front[i] in front;
          LessAsymmetric(l.name, sorted[n].name);
        }
      } else {
        forall i | 0 <= i < n
          ensures AtMost(sorted[i].name, l.name)
        {
          AtMostTransitive(sorted[i].name, sorted[n].name, l.name);
        }
      }
    }
  }

  lemma NamedLast(ls: seq<Label>, l: Label, name: Bytes)
    ensures Named(ls + [l], name) == Named(ls, name) + if l.name == name then [l] else []
  {
    assert (ls + [l])[..|ls|] == ls;
  }

  lemma {:induction false} InsertByNameStable(sorted: seq<Label>, l: Label, name: Bytes)
    requires ByName(sorted)
    ensures Named(InsertByName(sorted, l), name) == Named(sorted, name) + if l.name == name then [l] else []
  {
    hide Less, AtMost, Named;
    if sorted == [] || !Less(l.name, sorted[|sorted| - 1].name) {
      NamedLast(sorted, l, name);
    } else {
      var n := |sorted| - 1;
      InsertByNameStable(sorted[..n], l, name);
      NamedLast(InsertByName(sorted[..n], l), sorted[n], name);
      NamedLast(sorted[..n], sorted[n], name);
      assert sorted[..n] + [sorted[n]] == sorted;
      LessIrreflexive(l.name);
    }
  }

  /** The sort orders the names and keeps labels of the same name in their order, so it
      neither loses nor adds a label. */
  lemma {:induction false} SortByNameOk(ls: seq<Label>, name: Bytes)
    ensures ByName(SortByName(ls))
    ensures Named(SortByName(ls), name) == Named(ls, name)
  {
    if ls != [] {
      var n := |ls| - 1;
      SortByNameOk(ls[..n], name);
      InsertByNameOk(SortByName(ls[..n]), ls[n]);
      InsertByNameStable(SortByName(ls[..n]), ls[n], name);
    }
  }

  /** A name that some label has is the name of a label that the sort keeps. */
  lemma {:induction false} NamedMembers(ls: seq<Label>, name: Bytes)
    ensures forall l :: l in Named(ls, name) <==> l in ls && l.name == name
  {
    if ls != [] {
      var n := |ls| - 1;
      NamedMembers(ls[..n], name);
      assert ls == ls[..n] + [ls[n]];
    }
  }

  /** Lists in name order are equal when they have the same labels of each name. */
  lemma {:induction false} ByNameUnique(xs: seq<Label>, ys: seq<Label>)
    requires ByName(xs) && ByName(ys) && SameNamed(xs, ys)
    ensures xs == ys
    decreases |xs|
  {
    hide Named;
    NoneNamed();
    if xs == [] || ys == [] {
      LastIsNamed(xs + ys);
      assert xs == [] ==> xs + ys == ys;
      assert ys == [] ==> xs + ys == xs;
    } else {
      LastNamesAgree(xs, ys);
      var m, n := |xs| - 1, |ys| - 1;
      forall name
        ensures Named(xs[..m], name) == Named(ys[..n], name)
      {
        DropLast(xs, ys, name);
      }
      DropLast(xs, ys, xs[m].name);
      ByNameUnique(xs[..m], ys[..n]);
      assert xs == xs[..m] + [xs[m]] && ys == ys[..n] + [ys[n]];
    }
  }

  lemma NoneNamed()
    ensures forall name :: Named([], name) == []
  {
  }

  lemma LastIsNamed(ls: seq<Label>)
    ensures ls != [] ==> Named(ls, ls[|ls| - 1].name) != []
  {
  }

  lemma AllUpToLast(ls: seq<Label>, l: Label)
    requires ByName(ls) && l in ls
    ensures AtMost(l.name, ls[|ls| - 1].name)
  {
    hide Less;
    LessIrreflexive(l.name);
    var i :| 0 <= i < |ls| && ls[i] == l;
  }

  /** The last names of both are the greatest of the same names. */
  lemma LastNamesAgree(xs: seq<Label>, ys: seq<Label>)
    requires xs != [] && ys != [] && ByName(xs) && ByName(ys) && SameNamed(xs, ys)
    ensures xs[|xs| - 1].name == ys[|ys| - 1].name
  {
    hide Named, ByName, Less;
    var x, y := xs[|xs| - 1], ys[|ys| - 1];
    NamedMembers(xs, x.name);
    NamedMembers(ys, x.name);
    NamedMembers(xs, y.name);
    NamedMembers(ys, y.name);
    assert x in Named(ys, x.name) && y in Named(xs, y.name);
    AllUpToLast(ys, x);
    AllUpToLast(xs, y);
    LessTotal(x.name, y.name);
  }

  lemma NamedEnds(ls: seq<Label>, name: Bytes)
    requires ls != []
    ensures var n := |ls| - 1;
            Named(ls, name) == if ls[n].name == name then Named(ls[..n], name) + [ls[n]] else Named(ls[..n], name)
  {
  }

  lemma DropLast(xs: seq<Label>, ys: seq<Label>, name: Bytes)
    requires xs != [] && ys != [] && xs[|xs| - 1].name == ys[|ys| - 1].name && Named(xs, name) == Named(ys, name)
    ensures Named(xs[..|xs| - 1], name) == Named(ys[..|ys| - 1], name)
    ensures xs[|xs| - 1].name == name ==> xs[|xs| - 1] == ys[|ys| - 1]
  {
    hide Named;
    var m, n := |xs| - 1, |ys| - 1;
    NamedEnds(xs, name);
    NamedEnds(ys, name);
    if xs[m].name == name {
      SameEnds(Named(xs[..m], name), xs[m], Named(ys[..n], name), ys[n]);
    }
  }

  lemma SameEnds(a: seq<Label>, x: Label, b: seq<Label>, y: Label)
    requires a + [x] == b + [y]
    ensures a == b && x == y
  {
    assert (a + [x])[|a|] == x && (b + [y])[|b|] == y && |a| + 1 == |a + [x]| == |b + [y]| == |b| + 1;
    assert (a + [x])[..|a|] == a && (b + [y])[..|b|] == b;
  }

  ghost predicate SameNamed(a: seq<Label>, b: seq<Label>)
  {
    forall name :: Named(a, name) == Named(b, name)
  }

  lemma SortKeepsNamed(ls: seq<Label>)
    ensures ByName(SortByName(ls)) && SameNamed(SortByName(ls), ls)
  {
    hide SortByName, Named, ByName;
    SortByNameOk(ls, []);
    forall name
      ensures Named(SortByName(ls), name) == Named(ls, name)
    {
      SortByNameOk(ls, name);
    }
  }

  lemma SameNamedTwice(a: seq<Label>, b: seq<Label>, c: seq<Label>)
    requires SameNamed(a, b) && (SameNamed(b, c) || SameNamed(c, b))
    ensures SameNamed(a, c) && SameNamed(b, a)
  {
    hide Named;
    forall name
      ensures Named(a, name) == Named(c, name)
    {
      assert Named(a, name) == Named(b, name) && Named(b, name) == Named(c, name);
    }
  }

  /** Two label lists are sorted into the same one exactly when they have the same labels of
      each name, in the same order. */
  lemma SortedSameIff(a: seq<Label>, b: seq<Label>)
    ensures SortByName(a) == SortByName(b) <==> SameNamed(a, b)
  {
    hide SortByName, SameNamed, ByName;
    SortKeepsNamed(a);
    SortKeepsNamed(b);
    if SortByName(a) == SortByName(b) {
      SameNamedTwice(SortByName(a), a, SortByName(a));
      SameNamedTwice(a, SortByName(a), b);
    }
    if SameNamed(a, b) {
      SameNamedTwice(SortByName(a), a, b);
      SameNamedTwice(SortByName(a), b, SortByName(b));
      ByNameUnique(SortByName(a), SortByName(b));
    }
  }

  predicate DistinctNames(ls: seq<Label>)
  {
    forall i, j :: 0 <= i < j < |ls| ==> ls[i].name != ls[j].name
  }

  lemma {:induction false} AtMostOneNamed(ls: seq<Label>, name: Bytes)
    requires DistinctNames(ls)
    ensures |Named(ls, name)| <= 1
  {
    if ls != [] {
      var n := |ls| - 1;
      AtMostOneNamed(ls[..n], name);
      NamedMembers(ls[..n], name);
      if Named(ls[..n], name) != [] {
        assert Named(ls[..n], name)[0] in ls[..n];
      }
    }
  }

  /** Where names are distinct the order in which labels were given does not matter. */
  lemma OrderIsForgotten(a: seq<Label>, b: seq<Label>)
    requires DistinctNames(a) && DistinctNames(b) && forall l :: l in a <==> l in b
    ensures SortByName(a) == SortByName(b)
  {
    hide SortByName, Named;
    forall name
      ensures Named(a, name) == Named(b, name)
    {
      AtMostOneNamed(a, name);
      AtMostOneNamed(b, name);
      NamedMembers(a, name);
      NamedMembers(b, name);
      SameSingletons(Named(a, name), Named(b, name));
    }
    SortedSameIff(a, b);
  }

  lemma SameSingletons(xs: seq<Label>, ys: seq<Label>)
    requires |xs| <= 1 && |ys| <= 1 && forall l :: l in xs <==> l in ys
    ensures xs == ys
  {
    if xs != [] {
      assert xs[0] in ys;
    }
    if ys != [] {
      assert ys[0] in xs;
    }
  }

  // ----- fingerprints -----

  /** What is hashed: names and values one after the other, without separators. */
  function Joined(labels: seq<Label>): Bytes
  {
    if labels == [] then []
    else Joined(labels[..|labels| - 1]) + labels[|labels| - 1].name + labels[|labels| - 1].value
  }

  function Fingerprint(h: Hash, labels: seq<Label>): nat
  {
    h(Joined(labels))
  }

  /** The bytes of all names and values together. */
  function Size(labels: seq<Label>): nat
  {
    if labels == [] then 0
    else Size(labels[..|labels| - 1]) + |labels[|labels| - 1].name| + |labels[|labels| - 1].value|
  }

  /** What is hashed has every label's name and value in their places, and nothing else. */
  lemma {:induction false} JoinedAt(labels: seq<Label>, i: nat)
    requires i < |labels|
    ensures |Joined(labels)| == Size(labels)
    ensures var at := Size(labels[..i]);
            && at + |labels[i].name| + |labels[i].value| <= Size(labels)
            && Joined(labels)[at..at + |labels[i].name| + |labels[i].value|] == labels[i].name + labels[i].value
    decreases |labels|
  {
    var n := |labels| - 1;
    JoinedSize(labels[..n]);
    if i < n {
      JoinedAt(labels[..n], i);
      assert labels[..n][..i] == labels[..i];
    }
  }

  lemma {:induction false} JoinedSize(labels: seq<Label>)
    ensures |Joined(labels)| == Size(labels)
  {
    if labels != [] {
      JoinedSize(labels[..|labels| - 1]);
    }
  }

  /** As many labels, with names and values of the same lengths in turn. */
  predicate SameShape(a: seq<Label>, b: seq<Label>)
  {
    && |a| == |b|
    && forall i :: 0 <= i < |a| ==> |a[i].name| == |b[i].name| && |a[i].value| == |b[i].value|
  }

  lemma {:induction false} SameShapeSize(a: seq<Label>, b: seq<Label>)
    requires SameShape(a, b)
    ensures Size(a) == Size(b)
  {
    if a != [] {
      SameShapeSize(a[..|a| - 1], b[..|b| - 1]);
    }
  }

  /** Lists of the same shape are hashed alike only if they are equal. */
  lemma JoinedSameShape(a: seq<Label>, b: seq<Label>)
    requires SameShape(a, b)
    ensures Joined(a) == Joined(b) <==> a == b
  {
    hide Joined, Size;
    if Joined(a) == Joined(b) {
      forall i | 0 <= i < |a|
        ensures a[i] == b[i]
      {
        JoinedAt(a, i);
        JoinedAt(b, i);
        SameShapeSize(a[..i], b[..i]);
        SplitSame(a[i], b[i]);
      }
    }
  }

  lemma SplitSame(x: Label, y: Label)
    requires x.name + x.value == y.name + y.value && |x.name| == |y.name|
    ensures x == y
  {
    assert x.name == (x.name + x.value)[..|x.name|] && y.name == (y.name + y.value)[..|y.name|];
    assert x.value == (x.name + x.value)[|x.name|..] && y.value == (y.name + y.value)[|y.name|..];
  }

  const METRIC_NAME: Bytes := [0x5F, 0x5F, 0x6E, 0x61, 0x6D, 0x65, 0x5F, 0x5F]

  function MetricName(labels: seq<Label>): Bytes
  {
    if labels == [] then []
    else if labels[0].name == METRIC_NAME then labels[0].value
    else MetricName(labels[1..])
  }

  /** The value of the first `__name__` label, or nothing. */
  ghost predicate IsMetricName(labels: seq<Label>, name: Bytes)
  {
    if forall i :: 0 <= i < |labels| ==> labels[i].name != METRIC_NAME then name == []
    else exists i :: FirstNamed(labels, METRIC_NAME, i) && labels[i].value == name
  }

  predicate FirstNamed(labels: seq<Label>, name: Bytes, i: int)
  {
    0 <= i < |labels| && labels[i].name == name && forall j :: 0 <= j < i ==> labels[j].name != name
  }

  lemma {:induction false} MetricNameIs(labels: seq<Label>)
    ensures IsMetricName(labels, MetricName(labels))
  {
    if labels != [] {
      MetricNameIs(labels[1..]);
      assert forall i :: 1 <= i < |labels| ==> labels[i] == labels[1..][i - 1];
      if labels[0].name == METRIC_NAME {
        assert FirstNamed(labels, METRIC_NAME, 0);
      } else if exists i :: 0 <= i < |labels[1..]| && labels[1..][i].name == METRIC_NAME {
        var i :| FirstNamed(labels[1..], METRIC_NAME, i) && labels[1..][i].value == MetricName(labels);
        assert labels[i + 1] == labels[1..][i];
        assert FirstNamed(labels, METRIC_NAME, i + 1);
      }
    }
  }

  // ----- a delta as a value -----

  datatype SeriesSamples = SeriesSamples(metricName: Bytes, points: seq<Sample>)

  /** `base` is the dictionary the delta started with, `overlay` what it added. */
  datatype Delta = Delta(
    bucketStart: nat, base: map<nat, nat>, overlay: map<nat, nat>, forward: Forward, postings: Postings,
    samples: map<nat, SeriesSamples>, next: nat)

  function Empty(bucketStart: nat, dict: map<nat, nat>, next: nat): Delta
  {
    Delta(bucketStart, dict, map[], map[], map[], map[], next)
  }

  /** A sample with the description its series is registered under. */
  datatype Item = Item(spec: SeriesSpec, sample: Sample)

  /** Hour buckets: the start counts minutes, timestamps milliseconds. */
  predicate InBucket(start: nat, t: int)
  {
    start * 60 * 1000 <= t < (start + 60) * 60 * 1000
  }

  function Lookup(d: Delta, f: nat): Option<nat>
  {
    if f in d.overlay then Some(d.overlay[f]) else if f in d.base then Some(d.base[f]) else None
  }

  function AddPostings(p: Postings, labels: seq<Label>, id: nat): Postings
  {
    if labels == [] then p
    else InsertInto(AddPostings(p, labels[..|labels| - 1], id), labels[|labels| - 1], {id})
  }

  function Registered(d: Delta, f: nat, spec: SeriesSpec): Delta
  {
    d.(overlay := d.overlay[f := d.next], forward := d.forward[d.next := spec],
       postings := AddPostings(d.postings, spec.labels, d.next), next := d.next + 1)
  }

  function Pushed(d: Delta, id: nat, name: Bytes, sample: Sample): Delta
  {
    var s := if id in d.samples then d.samples[id] else SeriesSamples(name, []);
    d.(samples := d.samples[id := s.(points := s.points + [sample])])
  }

  /** One accepted sample. */
  function Put(h: Hash, d: Delta, item: Item): Delta
  {
    var f, name := Fingerprint(h, item.spec.labels), MetricName(item.spec.labels);
    var id := Lookup(d, f);
    if id.Some? then Pushed(d, id.value, name, item.sample)
    else Pushed(Registered(d, f, item.spec), d.next, name, item.sample)
  }

  function PutAll(h: Hash, d: Delta, items: seq<Item>): Delta
  {
    if items == [] then d else Put(h, PutAll(h, d, items[..|items| - 1]), items[|items| - 1])
  }

  /** The samples of a series, one item each, under its labels in order. */
  function ItemsOf(s: Series): seq<Item>
  {
    seq(|s.samples|, i requires 0 <= i < |s.samples| =>
          Item(SeriesSpec(s.unit, s.metricType, SortByName(s.labels)), s.samples[i]))
  }

  function AllItems(write: seq<Series>): seq<Item>
  {
    if write == [] then [] else AllItems(write[..|write| - 1]) + ItemsOf(write[|write| - 1])
  }

  /** Everything before the first sample outside the bucket. */
  function Accepted(start: nat, items: seq<Item>): (r: seq<Item>)
    ensures r <= items
    ensures forall i :: 0 <= i < |r| ==> InBucket(start, r[i].sample.timestampMs)
    ensures r != items ==> !InBucket(start, items[|r|].sample.timestampMs)
  {
    if items == [] then []
    else
      var n := |items| - 1;
      var front := Accepted(start, items[..n]);
      if front == items[..n] && InBucket(start, items[n].sample.timestampMs) then items else front
  }

  lemma PutOneMore(h: Hash, d: Delta, items: seq<Item>, item: Item)
    ensures PutAll(h, d, items + [item]) == Put(h, PutAll(h, d, items), item)
  {
  }

  /** What is accepted is determined by its two ends. */
  lemma AcceptedIs(start: nat, items: seq<Item>, n: nat)
    requires n <= |items| && forall i :: 0 <= i < n ==> InBucket(start, items[i].sample.timestampMs)
    requires n < |items| ==> !InBucket(start, items[n].sample.timestampMs)
    ensures Accepted(start, items) == items[..n]
  {
  }

  lemma {:induction false} PutConcat(h: Hash, d: Delta, xs: seq<Item>, ys: seq<Item>)
    ensures PutAll(h, d, xs + ys) == PutAll(h, PutAll(h, d, xs), ys)
  {
    hide Put;
    if ys == [] {
      assert xs + ys == xs;
    } else {
      var n := |ys| - 1;
      PutConcat(h, d, xs, ys[..n]);
      PutOneMore(h, d, xs + ys[..n], ys[n]);
      assert xs + ys == (xs + ys[..n]) + [ys[n]];
    }
  }

  /** When everything before is accepted, acceptance goes on with what follows. */
  lemma AcceptedConcat(start: nat, xs: seq<Item>, ys: seq<Item>)
    requires Accepted(start, xs) == xs
    ensures Accepted(start, xs + ys) == xs + Accepted(start, ys)
  {
    var n := |Accepted(start, ys)|;
    AcceptedIs(start, xs + ys, |xs| + n);
    assert (xs + ys)[..|xs| + n] == xs + ys[..n];
  }

  // ----- the delta of the write coordinator -----

  datatype Context = Context(bucketStart: nat, dict: map<nat, nat>, next: nat)

  datatype Frozen = Frozen(
    forward: Forward, postings: Postings, overlay: map<nat, nat>, samples: map<nat, SeriesSamples>)

  class TsdbWriteDelta {
    const hash: Hash
    const bucketStart: nat
    const base: map<nat, nat>
    var overlay: map<nat, nat>
    var forward: Forward
    var postings: Postings
    var samples: map<nat, SeriesSamples>
    var next: nat

    function Value(): Delta
      reads this
    {
      Delta(bucketStart, base, overlay, forward, postings, samples, next)
    }

    constructor Init(h: Hash, c: Context)
      ensures hash == h && Value() == Empty(c.bucketStart, c.dict, c.next)
    {
      hash, bucketStart, base, next := h, c.bucketStart, c.dict, c.next;
      overlay, forward, postings, samples := map[], map[], map[], map[];
    }

    /** Registers a series that has no id yet. */
    method Register(f: nat, spec: SeriesSpec) returns (id: nat)
      modifies `overlay, `forward, `postings, `next
      ensures id == old(next) && Value() == Registered(old(Value()), f, spec)
    {
      id := next;
      next := next + 1;
      overlay := overlay[f := id];
      forward := forward[id := spec];
      for i := 0 to |spec.labels|
        invariant postings == AddPostings(old(postings), spec.labels[..i], id)
        invariant Value() == Registered(old(Value()), f, spec).(postings := postings)
      {
        assert spec.labels[..i + 1][..i] == spec.labels[..i];
        var l := spec.labels[i];
        postings := postings[l := (if l in postings then postings[l] else {}) + {id}];
      }
      assert spec.labels[..|spec.labels|] == spec.labels;
    }

    /** A sample outside the bucket is refused and changes nothing. */
    method IngestSample(spec: SeriesSpec, sample: Sample) returns (ok: bool)
      modifies this
      ensures ok <==> InBucket(bucketStart, sample.timestampMs)
      ensures Value() == if ok then Put(hash, old(Value()), Item(spec, sample)) else old(Value())
    {
      if sample.timestampMs < bucketStart * 60 * 1000 || sample.timestampMs >= (bucketStart + 60) * 60 * 1000 {
        return false;
      }
      var f, name := Fingerprint(hash, spec.labels), MetricName(spec.labels);
      var id;
      if f in overlay {
        id := overlay[f];
      } else if f in base {
        id := base[f];
      } else {
        id := Register(f, spec);
      }
      if id !in samples {
        samples := samples[id := SeriesSamples(name, [])];
      }
      samples := samples[id := samples[id].(points := samples[id].points + [sample])];
      ok := true;
    }

    method Ingest(series: Series) returns (ok: bool)
      modifies this
      ensures var items := ItemsOf(series);
              && (ok <==> Accepted(bucketStart, items) == items)
              && Value() == PutAll(hash, old(Value()), Accepted(bucketStart, items))
    {
      hide Put;
      var spec := SeriesSpec(series.unit, series.metricType, SortByName(series.labels));
      ghost var items := ItemsOf(series);
      for i := 0 to |series.samples|
        invariant Value() == PutAll(hash, old(Value()), items[..i])
        invariant forall j :: 0 <= j < i ==> InBucket(bucketStart, items[j].sample.timestampMs)
      {
        var stored := IngestSample(spec, series.samples[i]);
        if !stored {
          AcceptedIs(bucketStart, items, i);
          return false;
        }
        PutOneMore(hash, old(Value()), items[..i], items[i]);
        assert items[..i + 1] == items[..i] + [items[i]];
      }
      AcceptedIs(bucketStart, items, |items|);
      assert items[..|items|] == items;
      ok := true;
    }

    /** Stores every sample before the first one outside the bucket, and says whether that
        was all of them. */
    method Apply(write: seq<Series>) returns (ok: bool)
      modifies this
      ensures var items := AllItems(write);
              && (ok <==> Accepted(bucketStart, items) == items)
              && Value() == PutAll(hash, old(Value()), Accepted(bucketStart, items))
    {
      hide PutAll, Accepted;
      ghost var items := AllItems(write);
      AcceptedIs(bucketStart, [], 0);
      PutNothing(hash, Value());
      for i := 0 to |write|
        invariant Accepted(bucketStart, AllItems(write[..i])) == AllItems(write[..i])
        invariant Value() == PutAll(hash, old(Value()), AllItems(write[..i]))
      {
        ghost var front, series := AllItems(write[..i]), ItemsOf(write[i]);
        assert write[..i + 1][..i] == write[..i];
        AcceptedConcat(bucketStart, front, series);
        PutConcat(hash, old(Value()), front, Accepted(bucketStart, series));
        var stored := Ingest(write[i]);
        if !stored {
          StopsThere(bucketStart, write, i);
          return false;
        }
      }
      assert write[..|write|] == write;
      ok := true;
    }

    /** The frozen delta, and the context that carries the whole dictionary on. */
    method Freeze() returns (frozen: Frozen, context: Context)
      ensures frozen == Frozen(forward, postings, overlay, samples)
      ensures context == Context(bucketStart, base + overlay, next)
    {
      var merged := base;
      if overlay != map[] {
        var todo := overlay.Keys;
        while todo != {}
          invariant todo <= overlay.Keys
          invariant merged == base + (map f | f in overlay && f !in todo :: overlay[f])
          decreases |todo|
        {
          var f :| f in todo;
          merged := merged[f := overlay[f]];
          todo := todo - {f};
        }
      }
      frozen := Frozen(forward, postings, overlay, samples);
      context := Context(bucketStart, merged, next);
    }
  }

  lemma PutNothing(h: Hash, d: Delta)
    ensures PutAll(h, d, []) == d && AllItems([]) == []
  {
  }

  lemma {:induction false} AllItemsFrom(write: seq<Series>, i: nat)
    requires i <= |write|
    ensures AllItems(write[..i]) <= AllItems(write)
  {
    if i < |write| {
      var n := |write| - 1;
      assert write[..n][..i] == write[..i];
      AllItemsFrom(write[..n], i);
    } else {
      assert write[..i] == write;
    }
  }

  /** A series that is not stored to its end is where the write stops. */
  lemma StopsThere(start: nat, write: seq<Series>, i: nat)
    requires i < |write| && Accepted(start, AllItems(write[..i])) == AllItems(write[..i])
    requires Accepted(start, ItemsOf(write[i])) != ItemsOf(write[i])
    ensures Accepted(start, AllItems(write)) == AllItems(write[..i]) + Accepted(start, ItemsOf(write[i]))
    ensures Accepted(start, AllItems(write)) != AllItems(write)
  {
    var front, series, all := AllItems(write[..i]), ItemsOf(write[i]), AllItems(write);
    assert write[..i + 1][..i] == write[..i];
    AllItemsFrom(write, i + 1);
    assert front + series <= all;
    var n := |Accepted(start, series)|;
    AcceptedConcat(start, front, series);
    AcceptedIs(start, all, |front| + n);
    assert all[..|front| + n] == (front + series)[..|front| + n];
  }
}
