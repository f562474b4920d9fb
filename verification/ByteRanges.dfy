/** Key ranges over byte strings (common/src/bytes.rs). */
module ByteRanges {
  import opened ByteStrings

  datatype Bound = Included(key: Bytes) | Excluded(key: Bytes) | Unbounded

  datatype BytesRange = BytesRange(start: Bound, end: Bound) {
    predicate Contains(k: Bytes)
    {
      && (match start
          case Included(s) => AtMost(s, k)
          case Excluded(s) => Less(s, k)
          case Unbounded => true)
      && (match end
          case Included(e) => AtMost(k, e)
          case Excluded(e) => Less(k, e)
          case Unbounded => true)
    }
  }

  /** Drop trailing 0xFF bytes, then add one to the last byte that is left. */
  function Successor(data: Bytes): Option<Bytes>
  {
    if data == [] then None
    else
      var n := |data| - 1;
      if data[n] < 255 then Some(data[..n] + [data[n] + 1]) else Successor(data[..n])
  }

  /** `u` lies above every string that starts with `p`. */
  ghost predicate AboveExtensions(p: Bytes, u: Bytes)
  {
    forall x: Bytes :: Less(p + x, u)
  }

  method LexIncrement(data: Bytes) returns (r: Option<Bytes>)
    ensures r == Successor(data)
  {
    if data == [] {
      return None;
    }
    var result := data;
    while result != []
      invariant Successor(data) == Successor(result)
      decreases |result|
    {
      var n := |result| - 1;
      if result[n] < 255 {
        return Some(result[..n] + [result[n] + 1]);
      }
      result := result[..n];
    }
    return None;
  }

  function PrefixRange(prefix: Bytes): (r: BytesRange)
  {
    if prefix == [] then BytesRange(Unbounded, Unbounded)
    else
      match Successor(prefix)
      case Some(end) => BytesRange(Included(prefix), Excluded(end))
      case None => BytesRange(Included(prefix), Unbounded)
  }

  /** Exactly the strings at or above `p` and below its successor start with `p`. */
  lemma {:induction false} BelowSuccessorIffPrefixed(p: Bytes, k: Bytes)
    requires AtMost(p, k)
    ensures Successor(p).Some? ==> (Less(k, Successor(p).value) <==> p <= k)
    ensures Successor(p).None? && p != [] ==> p <= k
  {
    if p != [] {
      var n := |p| - 1;
      var q := p[..n];
      assert p == q + [p[n]];
      PrefixAtMost(q, [p[n]]);
      if Less(k, q) {
        LessTransitive(k, q, p);
      }
      if q <= k {
        var t := k[n..];
        assert k == q + t;
        LessCommonPrefix(q, t, [p[n]]);
        if t != [] {
          assert [p[n]] <= t <==> p <= k;
        }
      }
      if p[n] < 255 {
        if Less(k, q + [p[n] + 1]) {
          LessTotal(k, q + [p[n] + 1]);
          BetweenSharesPrefix(q, [p[n]], [p[n] + 1], k);
          LessCommonPrefix(q, k[n..], [p[n] + 1]);
        } else if p <= k {
          LessCommonPrefix(q, k[n..], [p[n] + 1]);
        }
      } else {
        BelowSuccessorIffPrefixed(q, k);
        if q == [] {
          assert q <= k;
        }
      }
    }
  }

  /** A prefix range holds a key exactly when the key starts with the prefix. */
  lemma PrefixRangeExact(p: Bytes, k: Bytes)
    ensures PrefixRange(p).Contains(k) <==> p <= k
  {
    if p <= k {
      PrefixAtMost(p, k[|p|..]);
      assert k == p + k[|p|..];
    }
    if AtMost(p, k) {
      BelowSuccessorIffPrefixed(p, k);
    }
  }

  /** The successor is the least string above all extensions of `p`. */
  lemma SuccessorIsLeast(p: Bytes, u: Bytes)
    requires Successor(p).Some?
    ensures AboveExtensions(p, Successor(p).value)
    ensures AboveExtensions(p, u) ==> AtMost(Successor(p).value, u)
  {
    var s := Successor(p).value;
    forall x: Bytes
      ensures Less(p + x, s)
    {
      PrefixAtMost(p, x);
      BelowSuccessorIffPrefixed(p, p + x);
    }
    if AboveExtensions(p, u) && Less(u, s) {
      assert p + [] == p;
      assert Less(p + [], u);
      LessTotal(p, u);
      BelowSuccessorIffPrefixed(p, u);
      assert p + u[|p|..] == u;
      LessIrreflexive(u);
    }
  }

  /** A string has a successor exactly when something lies above all its extensions. */
  lemma SuccessorExists(p: Bytes)
    ensures Successor(p).Some? <==> exists u: Bytes :: AboveExtensions(p, u)
    ensures Successor(p).None? <==> forall i :: 0 <= i < |p| ==> p[i] == 255
  {
    if Successor(p).Some? {
      SuccessorIsLeast(p, []);
    } else {
      forall u: Bytes
        ensures !AboveExtensions(p, u)
      {
        if AboveExtensions(p, u) {
          assert p + [] == p;
          assert Less(p + [], u);
          LessTotal(p, u);
          if p != [] {
            BelowSuccessorIffPrefixed(p, u);
          }
          assert p + u[|p|..] == u;
          LessIrreflexive(u);
        }
      }
    }
    SuccessorNoneIffAllFF(p);
  }

  lemma {:induction false} SuccessorNoneIffAllFF(p: Bytes)
    ensures Successor(p).None? <==> forall i :: 0 <= i < |p| ==> p[i] == 255
  {
    if p != [] {
      var n := |p| - 1;
      SuccessorNoneIffAllFF(p[..n]);
      if Successor(p[..n]).None? {
        assert forall i :: 0 <= i < n ==> p[..n][i] == p[i];
      } else {
        var i :| 0 <= i < n && p[..n][i] != 255;
        assert p[i] != 255;
      }
    }
  }
}

/** Key encoding of the key-value database (keyvalue/src/serde.rs). */
module KeyValueKeys {
  import opened ByteStrings
  import opened ByteRanges

  const PREFIX: Bytes := [0x04, 0x01, 0x10]
  const NEXT_PREFIX: Bytes := [0x04, 0x01, 0x11]

  function EncodeKey(userKey: Bytes): Bytes
  {
    PREFIX + userKey
  }

  function DecodeKey(storageKey: Bytes): Result<Bytes>
  {
    if |storageKey| < 3 then Err(Encoding)
    else if storageKey[0] != 0x04 then Err(Encoding)
    else if storageKey[1] != 0x01 then Err(Encoding)
    else if storageKey[2] != 0x10 then Err(Encoding)
    else Ok(storageKey[3..])
  }

  function EncodeKeyRange(user: BytesRange): BytesRange
  {
    BytesRange(
      match user.start
      case Included(k) => Included(EncodeKey(k))
      case Excluded(k) => Excluded(EncodeKey(k))
      case Unbounded => Included(PREFIX),
      match user.end
      case Included(k) => Included(EncodeKey(k))
      case Excluded(k) => Excluded(EncodeKey(k))
      case Unbounded => Excluded(NEXT_PREFIX))
  }

  /** Decoding succeeds on exactly the encoded keys, and inverts encoding. */
  lemma DecodeInvertsEncode(userKey: Bytes, storageKey: Bytes)
    ensures DecodeKey(EncodeKey(userKey)) == Ok(userKey)
    ensures DecodeKey(storageKey).Ok? <==> PREFIX <= storageKey
    ensures DecodeKey(storageKey).Ok? ==> EncodeKey(DecodeKey(storageKey).value) == storageKey
  {
  }

  /** An encoded range holds exactly the encodings of the keys of the user's range,
      and nothing that fails to decode. */
  lemma EncodedRangeExact(user: BytesRange, sk: Bytes)
    ensures EncodeKeyRange(user).Contains(sk) <==>
            DecodeKey(sk).Ok? && user.Contains(DecodeKey(sk).value)
  {
    var r := EncodeKeyRange(user);
    DecodeInvertsEncode([], sk);
    if r.Contains(sk) {
      InsideIsPrefixed(user, sk);
    }
    if PREFIX <= sk {
      var u := sk[3..];
      assert sk == PREFIX + u;
      if !user.start.Unbounded? {
        LessCommonPrefix(PREFIX, u, user.start.key);
        LessCommonPrefix(PREFIX, user.start.key, u);
      } else {
        PrefixAtMost(PREFIX, u);
      }
      if !user.end.Unbounded? {
        LessCommonPrefix(PREFIX, u, user.end.key);
        LessCommonPrefix(PREFIX, user.end.key, u);
      } else {
        LessAtDifference([0x04, 0x01], 0x10, 0x11, u, []);
        assert sk == [0x04, 0x01] + [0x10] + u;
        assert NEXT_PREFIX == [0x04, 0x01] + [0x11] + [];
      }
    }
  }

  lemma InsideIsPrefixed(user: BytesRange, sk: Bytes)
    requires EncodeKeyRange(user).Contains(sk)
    ensures PREFIX <= sk
  {
    var r := EncodeKeyRange(user);
    var a := if user.start.Unbounded? then [] else user.start.key;
    assert PREFIX + [] == PREFIX;
    LessTotal(PREFIX + a, sk);
    assert AtMost(PREFIX + a, sk);
    if user.end.Unbounded? {
      if PREFIX <= sk {
      } else {
        PrefixAtMost(PREFIX, a);
        if Less(sk, PREFIX) {
          if PREFIX + a != PREFIX { LessTransitive(sk, PREFIX, PREFIX + a); }
        }
        assert PREFIX[..2] + [0x11] == NEXT_PREFIX;
        BelowSuccessorIffPrefixed(PREFIX, sk);
      }
    } else {
      LessTotal(sk, PREFIX + user.end.key);
      BetweenSharesPrefix(PREFIX, a, user.end.key, sk);
    }
  }
}
