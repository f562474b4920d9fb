/** The writer's cache of keys already listed in a segment (log/src/listing.rs). */
module Listings {
  import opened ByteStrings
  import opened LogTables

  datatype ListingState = ListingState(current: Option<u32>, keys: set<Bytes>) {
    /** The keys known for a segment: a change of segment forgets all. */
    function KnownIn(id: u32): set<Bytes>
    {
      if current == Some(id) then keys else {}
    }
  }

  /** The keys not known yet, each at its first occurrence. */
  function NewKeys(known: set<Bytes>, keys: seq<Bytes>): seq<Bytes>
  {
    if keys == [] then []
    else
      var n := |keys| - 1;
      NewKeys(known, keys[..n]) + if keys[n] in known || keys[n] in keys[..n] then [] else [keys[n]]
  }

  /** Every key that was not known is listed, once, and nothing else is. */
  lemma {:induction false} NewKeysExact(known: set<Bytes>, keys: seq<Bytes>)
    ensures forall k :: k in NewKeys(known, keys) <==> k in keys && k !in known
    ensures forall i, j :: 0 <= i < j < |NewKeys(known, keys)| ==> NewKeys(known, keys)[i] != NewKeys(known, keys)[j]
  {
    if keys != [] {
      var n := |keys| - 1;
      NewKeysExact(known, keys[..n]);
      assert keys == keys[..n] + [keys[n]];
    }
  }

  function ListingRecords(id: u32, keys: seq<Bytes>): (r: seq<Record>)
    ensures |r| == |keys|
  {
    seq(|keys|, i requires 0 <= i < |keys| => ListingRecord(Listed(id, keys[i])))
  }

  class ListingCache {
    var currentSegmentId: Option<u32>
    var keys: set<Bytes>

    function Value(): ListingState
      reads this
    {
      ListingState(currentSegmentId, keys)
    }

    constructor ()
      ensures Value() == ListingState(None, {})
    {
      currentSegmentId, keys := None, {};
    }

    method AssignNewKeys(id: u32, batch: seq<Bytes>, records: seq<Record>)
      returns (newKeys: seq<Bytes>, out: seq<Record>)
      modifies this
      ensures newKeys == NewKeys(old(Value()).KnownIn(id), batch)
      ensures out == records + ListingRecords(id, newKeys)
      ensures Value() == ListingState(Some(id), old(Value()).KnownIn(id) + (set k | k in batch))
    {
      if currentSegmentId != Some(id) {
        keys := {};
        currentSegmentId := Some(id);
      }
      ghost var known := keys;
      newKeys, out := [], records;
      for i := 0 to |batch|
        invariant currentSegmentId == Some(id)
        invariant keys == known + (set k | k in batch[..i])
        invariant newKeys == NewKeys(known, batch[..i])
        invariant out == records + ListingRecords(id, newKeys)
      {
        assert batch[..i + 1][..i] == batch[..i] && batch[..i + 1] == batch[..i] + [batch[i]];
        if batch[i] in keys {
          continue;
        }
        out := out + [ListingRecord(Listed(id, batch[i]))];
        keys := keys + {batch[i]};
        newKeys := newKeys + [batch[i]];
      }
      assert batch[..|batch|] == batch;
    }
  }
}
