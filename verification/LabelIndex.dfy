/** The label index of a time bucket (timeseries/src/index.rs). */
module LabelIndexes {
  import opened ByteStrings

  datatype Label = Label(name: Bytes, value: Bytes)

  type Postings = map<Label, set<nat>>

  datatype SeriesSpec = SeriesSpec(unit: Option<Bytes>, metricType: Option<nat>, labels: seq<Label>)

  type Forward = map<nat, SeriesSpec>

  function PostingsOf(p: Postings, l: Label): set<nat>
  {
    if l in p then p[l] else {}
  }

  /** The series listed under every one of the terms. */
  ghost predicate UnderAll(p: Postings, terms: seq<Label>, id: nat)
  {
    forall i :: 0 <= i < |terms| ==> id in PostingsOf(p, terms[i])
  }

  // ----- sorting posting lists by size -----

  function InsertBySize(sorted: seq<set<nat>>, b: set<nat>): seq<set<nat>>
  {
    if sorted == [] || |sorted[|sorted| - 1]| <= |b| then sorted + [b]
    else InsertBySize(sorted[..|sorted| - 1], b) + [sorted[|sorted| - 1]]
  }

  ghost predicate BySize(bs: seq<set<nat>>)
  {
    forall i, j :: 0 <= i < j < |bs| ==> |bs[i]| <= |bs[j]|
  }

  lemma {:induction false} InsertBySizeKeeps(sorted: seq<set<nat>>, b: set<nat>)
    ensures multiset(InsertBySize(sorted, b)) == multiset(sorted) + multiset{b}
  {
    if sorted != [] && |sorted[|sorted| - 1]| > |b| {
      var n := |sorted| - 1;
      InsertBySizeKeeps(sorted[..n], b);
      assert sorted == sorted[..n] + [sorted[n]];
    }
  }

  lemma {:induction false} InsertBySizeSorts(sorted: seq<set<nat>>, b: set<nat>)
    requires BySize(sorted)
    ensures BySize(InsertBySize(sorted, b))
    ensures forall x :: x in InsertBySize(sorted, b) ==> x in sorted || x == b
  {
    if sorted != [] && |sorted[|sorted| - 1]| > |b| {
      var n := |sorted| - 1;
      InsertBySizeSorts(sorted[..n], b);
      var front := InsertBySize(sorted[..n], b);
      forall i | 0 <= i < |front|
        ensures |front[i]| <= |sorted[n]|
      {
        assert front[i] in front;
      }
    }
  }

  method SortBySize(bs: seq<set<nat>>) returns (r: seq<set<nat>>)
    ensures BySize(r) && multiset(r) == multiset(bs)
  {
    r := [];
    for i := 0 to |bs|
      invariant BySize(r) && multiset(r) == multiset(bs[..i])
    {
      assert bs[..i + 1] == bs[..i] + [bs[i]];
      InsertBySizeKeeps(r, bs[i]);
      InsertBySizeSorts(r, bs[i]);
      r := InsertBySize(r, bs[i]);
    }
    assert bs[..|bs|] == bs;
  }

  // ----- the inverted index -----

  function InsertInto(p: Postings, term: Label, ids: set<nat>): Postings
  {
    p[term := PostingsOf(p, term) + ids]
  }

  /** Two inverted indexes merged: each term lists the series of both. */
  ghost predicate IsMerge(p: Postings, q: Postings, r: Postings)
  {
    forall l :: PostingsOf(r, l) == PostingsOf(p, l) + PostingsOf(q, l)
  }

  /** As a merge, except for the terms still to do. */
  ghost predicate Merged(p: Postings, q: Postings, todo: set<Label>, r: Postings)
  {
    forall l :: PostingsOf(r, l) == PostingsOf(p, l) + (if l in todo then {} else PostingsOf(q, l))
  }

  lemma MergeStep(p: Postings, q: Postings, todo: set<Label>, r: Postings, l: Label)
    requires Merged(p, q, todo, r) && l in todo && l in q
    ensures Merged(p, q, todo - {l}, InsertInto(r, l, q[l]))
  {
  }

  class InvertedIndex {
    var postings: Postings

    constructor (p: Postings)
      ensures postings == p
    {
      postings := p;
    }

    /** The series that carry all terms; no terms match nothing. */
    method Intersect(terms: seq<Label>) returns (r: set<nat>)
      ensures terms == [] ==> r == {}
      ensures terms != [] ==> forall id :: id in r <==> UnderAll(postings, terms, id)
    {
      if terms == [] {
        return {};
      }
      var bitmaps: seq<set<nat>> := [];
      for i := 0 to |terms|
        invariant |bitmaps| == i
        invariant forall j :: 0 <= j < i ==> terms[j] in postings && bitmaps[j] == postings[terms[j]]
      {
        if terms[i] !in postings {
          Missing(postings, terms, i);
          return {};
        }
        bitmaps := bitmaps + [postings[terms[i]]];
      }
      var sorted := SortBySize(bitmaps);
      SameElements(bitmaps, sorted);
      r := sorted[0];
      for i := 1 to |sorted|
        invariant forall id :: id in r <==> InAll(sorted[..i], id)
      {
        InAllStep(sorted, i);
        r := r * sorted[i];
      }
      assert sorted[..|sorted|] == sorted;
      forall id
        ensures InAll(sorted, id) <==> UnderAll(postings, terms, id)
      {
        InAllSame(bitmaps, sorted, id);
        assert InAll(bitmaps, id) <==> UnderAll(postings, terms, id) by {
          assert forall j :: 0 <= j < |terms| ==> bitmaps[j] == PostingsOf(postings, terms[j]);
        }
      }
    }

    /** The series that carry some term. */
    method Union(terms: seq<Label>) returns (r: set<nat>)
      ensures forall id :: id in r <==> exists i :: 0 <= i < |terms| && id in PostingsOf(postings, terms[i])
    {
      r := {};
      for i := 0 to |terms|
        invariant forall id :: id in r <==> exists j :: 0 <= j < i && id in PostingsOf(postings, terms[j])
      {
        if terms[i] in postings {
          r := r + postings[terms[i]];
        }
      }
    }

    method Insert(term: Label, ids: set<nat>)
      modifies this
      ensures postings == InsertInto(old(postings), term, ids)
    {
      if term !in postings {
        postings := postings[term := {}];
      }
      postings := postings[term := postings[term] + ids];
    }

    method Merge(other: Postings)
      modifies this
      ensures IsMerge(old(postings), other, postings)
    {
      var todo := other.Keys;
      while todo != {}
        invariant todo <= other.Keys
        invariant Merged(old(postings), other, todo, postings)
        decreases |todo|
      {
        var l :| l in todo;
        MergeStep(old(postings), other, todo, postings, l);
        Insert(l, other[l]);
        todo := todo - {l};
      }
    }
  }

  ghost predicate InAll(bs: seq<set<nat>>, id: nat)
  {
    forall i :: 0 <= i < |bs| ==> id in bs[i]
  }

  lemma InAllStep(bs: seq<set<nat>>, i: nat)
    requires i < |bs|
    ensures forall id :: InAll(bs[..i + 1], id) <==> InAll(bs[..i], id) && id in bs[i]
  {
  }

  lemma SameElements(xs: seq<set<nat>>, ys: seq<set<nat>>)
    requires multiset(xs) == multiset(ys)
    ensures |xs| == |ys| && forall b :: b in xs <==> b in ys
  {
    assert |xs| == |multiset(xs)| && |ys| == |multiset(ys)|;
    forall b
      ensures b in xs <==> b in ys
    {
      assert b in xs <==> b in multiset(xs);
      assert b in ys <==> b in multiset(ys);
    }
  }

  lemma InAllSame(xs: seq<set<nat>>, ys: seq<set<nat>>, id: nat)
    requires forall b :: b in xs <==> b in ys
    ensures InAll(xs, id) <==> InAll(ys, id)
  {
    if InAll(xs, id) {
      forall i | 0 <= i < |ys|
        ensures id in ys[i]
      {
        assert ys[i] in xs;
      }
    }
    if InAll(ys, id) {
      forall i | 0 <= i < |xs|
        ensures id in xs[i]
      {
        assert xs[i] in ys;
      }
    }
  }

  lemma Missing(p: Postings, terms: seq<Label>, i: nat)
    requires i < |terms| && terms[i] !in p
    ensures forall id :: !UnderAll(p, terms, id)
  {
  }

  /** A later forward index replaces the entries of an earlier one. */
  method MergeForward(f: Forward, other: Forward) returns (r: Forward)
    ensures r == f + other
  {
    r := f;
    var todo := other.Keys;
    while todo != {}
      invariant todo <= other.Keys
      invariant r == f + (map id | id in other && id !in todo :: other[id])
      decreases |todo|
    {
      var id :| id in todo;
      r := r[id := other[id]];
      todo := todo - {id};
    }
  }
}
