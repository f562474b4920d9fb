/** Escaped, zero-terminated byte strings (common/src/serde/terminated_bytes.rs). */
module TerminatedBytes {
  import opened ByteStrings
  import opened ByteRanges

  function EscapeByte(b: byte): (r: Bytes)
    ensures r != [] && r[0] != 0
  {
    if b == 0 then [1, 1] else if b == 1 then [1, 2] else [b]
  }

  function Terminated(data: Bytes): (r: Bytes)
    ensures r != []
  {
    if data == [] then [0] else EscapeByte(data[0]) + Terminated(data[1..])
  }

  function Unescape(next: byte): Option<byte>
  {
    if next == 1 then Some(0) else if next == 2 then Some(1) else None
  }

  /** The decoded string and the bytes left after the terminator. */
  function Parse(buf: Bytes): (r: Result<(Bytes, Bytes)>)
    decreases |buf|
  {
    if buf == [] then Err(Encoding)
    else if buf[0] == 0 then Ok(([], buf[1..]))
    else if buf[0] == 1 then
      if |buf| < 2 || Unescape(buf[1]).None? then Err(Encoding)
      else
        var rest := Parse(buf[2..]);
        if rest.Err? then rest else Ok(([Unescape(buf[1]).value] + rest.value.0, rest.value.1))
    else
      var rest := Parse(buf[1..]);
      if rest.Err? then rest else Ok(([buf[0]] + rest.value.0, rest.value.1))
  }

  method Serialize(data: Bytes, buf: Bytes) returns (r: Bytes)
    ensures r == buf + Terminated(data)
  {
    r := buf;
    for i := 0 to |data|
      invariant r + Terminated(data[i..]) == buf + Terminated(data)
    {
      ghost var before := r;
      assert data[i..][0] == data[i] && data[i..][1..] == data[i + 1..];
      if data[i] == 0 {
        r := r + [1];
        r := r + [1];
      } else if data[i] == 1 {
        r := r + [1];
        r := r + [2];
      } else {
        r := r + [data[i]];
      }
      assert r == before + EscapeByte(data[i]);
      AppendAssociates(before, EscapeByte(data[i]), Terminated(data[i + 1..]));
    }
    assert data[|data|..] == [];
    r := r + [0];
  }

  lemma AppendAssociates(a: Bytes, b: Bytes, c: Bytes)
    ensures (a + b) + c == a + (b + c)
  {
  }

  method Deserialize(buf: Bytes) returns (r: Result<(Bytes, Bytes)>)
    ensures r == Parse(buf)
  {
    var result: Bytes := [];
    var i := 0;
    assert buf[0..] == buf;
    assert Parse(buf).Ok? ==> result + Parse(buf).value.0 == Parse(buf).value.0;
    while i < |buf|
      invariant 0 <= i <= |buf|
      invariant Parse(buf) == Prepend(result, Parse(buf[i..]))
    {
      var b := buf[i];
      if b == 0 {
        assert buf[i..][1..] == buf[i + 1..] && result + [] == result;
        return Ok((result, buf[i + 1..]));
      }
      if b == 1 {
        if i + 1 >= |buf| {
          return Err(Encoding);
        }
        var next := buf[i + 1];
        assert buf[i..][1] == next && buf[i..][2..] == buf[i + 2..];
        var decoded: byte;
        if next == 1 {
          decoded := 0;
        } else if next == 2 {
          decoded := 1;
        } else {
          return Err(Encoding);
        }
        PrependStep(result, decoded, Parse(buf[i + 2..]));
        result := result + [decoded];
        i := i + 2;
      } else {
        assert buf[i..][1..] == buf[i + 1..];
        PrependStep(result, b, Parse(buf[i + 1..]));
        result := result + [b];
        i := i + 1;
      }
    }
    return Err(Encoding);
  }

  ghost function Prepend(head: Bytes, r: Result<(Bytes, Bytes)>): Result<(Bytes, Bytes)>
  {
    if r.Err? then r else Ok((head + r.value.0, r.value.1))
  }

  lemma PrependStep(head: Bytes, b: byte, r: Result<(Bytes, Bytes)>)
    ensures Prepend(head, Prepend([b], r)) == Prepend(head + [b], r)
  {
    if r.Ok? {
      assert head + ([b] + r.value.0) == head + [b] + r.value.0;
    }
  }

  /** Parsing inverts encoding and stops exactly at the terminator. */
  lemma {:induction false} ParseTerminated(data: Bytes, rest: Bytes)
    ensures Parse(Terminated(data) + rest) == Ok((data, rest))
  {
    var buf := Terminated(data) + rest;
    if data != [] {
      var e, t := EscapeByte(data[0]), Terminated(data[1..]) + rest;
      assert buf == e + t;
      ParseTerminated(data[1..], rest);
      assert data == [data[0]] + data[1..];
      assert buf[|e|..] == t;
    }
  }

  /** Only encodings parse: what was read, encoded again, is what was there. */
  lemma {:induction false} ParseIsCanonical(buf: Bytes)
    requires Parse(buf).Ok?
    ensures buf == Terminated(Parse(buf).value.0) + Parse(buf).value.1
    decreases |buf|
  {
    if buf[0] == 0 {
    } else if buf[0] == 1 {
      ParseIsCanonical(buf[2..]);
      var k := Parse(buf).value.0;
      assert k[1..] == Parse(buf[2..]).value.0;
      assert buf == EscapeByte(k[0]) + buf[2..];
    } else {
      ParseIsCanonical(buf[1..]);
      var k := Parse(buf).value.0;
      assert k[1..] == Parse(buf[1..]).value.0;
      assert buf == EscapeByte(k[0]) + buf[1..];
    }
  }

  /** Different strings keep their order once encoded, whatever is appended to them;
      in particular no encoding is a prefix of another. */
  lemma {:induction false} TerminatedOrder(a: Bytes, b: Bytes, x: Bytes, y: Bytes)
    requires a != b
    ensures Less(Terminated(a) + x, Terminated(b) + y) <==> Less(a, b)
  {
    var ta, tb := Terminated(a) + x, Terminated(b) + y;
    if a == [] || b == [] {
      if a != [] { assert ta[0] == EscapeByte(a[0])[0]; }
      if b != [] { assert tb[0] == EscapeByte(b[0])[0]; }
    } else {
      var ra, rb := Terminated(a[1..]) + x, Terminated(b[1..]) + y;
      assert ta == EscapeByte(a[0]) + ra && tb == EscapeByte(b[0]) + rb;
      if a[0] == b[0] {
        assert a == [a[0]] + a[1..] && b == [b[0]] + b[1..];
        LessCommonPrefix(EscapeByte(a[0]), ra, rb);
        TerminatedOrder(a[1..], b[1..], x, y);
      } else {
        EscapeByteOrder(a[0], b[0], ra, rb);
      }
    }
  }

  lemma EscapeByteOrder(a: byte, b: byte, x: Bytes, y: Bytes)
    requires a != b
    ensures Less(EscapeByte(a) + x, EscapeByte(b) + y) <==> a < b
  {
  }

  function TerminatedPrefixRange(prefix: Bytes): (r: BytesRange)
  {
    if prefix == [] then BytesRange(Unbounded, Unbounded)
    else
      match Successor(prefix)
      case Some(end) => BytesRange(Included(Terminated(prefix)), Excluded(Terminated(end)))
      case None => BytesRange(Included(Terminated(prefix)), Unbounded)
  }

  /** The range for a logical prefix holds exactly the encodings of keys with that prefix. */
  lemma TerminatedPrefixRangeExact(prefix: Bytes, k: Bytes)
    ensures TerminatedPrefixRange(prefix).Contains(Terminated(k)) <==> prefix <= k
  {
    PrefixRangeExact(prefix, k);
    TerminatedAtMost(prefix, k);
    if prefix != [] && Successor(prefix).Some? {
      TerminatedAtMost(Successor(prefix).value, k);
    }
  }

  lemma TerminatedAtMost(a: Bytes, b: Bytes)
    ensures AtMost(Terminated(a), Terminated(b)) <==> AtMost(a, b)
  {
    LessIrreflexive(a);
    LessIrreflexive(Terminated(a));
    if a != b {
      TerminatedOrder(b, a, [], []);
      assert Terminated(a) + [] == Terminated(a) && Terminated(b) + [] == Terminated(b);
    }
  }
}

/** Order-preserving variable-length integers (common/src/serde/varint.rs, var_u64). */
module VarInt {
  import opened ByteStrings

  const MAX_LEN_CODE: nat := 8

  const THRESHOLDS: seq<nat> := [
    0x10, 0x1000, 0x10_0000, 0x1000_0000, 0x10_0000_0000, 0x1000_0000_0000,
    0x10_0000_0000_0000, 0x1000_0000_0000_0000, 0xFFFF_FFFF_FFFF_FFFF]

  /** The smallest length code whose data bits hold the value. */
  function LengthCode(v: nat): (r: nat)
    requires v <= U64_MAX
    ensures r <= MAX_LEN_CODE && v < 16 * Pow256(r)
  {
    CodeFrom(v, 0)
  }

  function CodeFrom(v: nat, i: nat): (r: nat)
    requires i <= 8 && v <= U64_MAX
    ensures i <= r <= MAX_LEN_CODE
    ensures v < 16 * Pow256(r)
    ensures i < r ==> 16 * Pow256(r - 1) <= v
    decreases 8 - i
  {
    ThresholdIs(i);
    if i == 8 || v < THRESHOLDS[i] then i else CodeFrom(v, i + 1)
  }

  lemma ThresholdIs(i: nat)
    requires i <= 8
    ensures i < 8 ==> THRESHOLDS[i] == 16 * Pow256(i)
    ensures i == 8 ==> U64_MAX < 16 * Pow256(i)
  {
  }

  /** `v` shifted right by `j` bytes. */
  function Shr(v: nat, j: nat): nat
    decreases j
  {
    if j == 0 then v else Shr(v / 256, j - 1)
  }

  /** The length code in the high four bits, then the value's own bits. */
  function Encode(v: nat): (r: Bytes)
    requires v <= U64_MAX
    ensures |r| == LengthCode(v) + 1
  {
    WithCode(LengthCode(v), v)
  }

  function WithCode(len: nat, v: nat): (r: Bytes)
    requires len <= MAX_LEN_CODE && v < 16 * Pow256(len)
    ensures |r| == len + 1
  {
    var bytes := BE(len + 1, v);
    FirstByteSmall(len, v);
    [len * 16 + bytes[0]] + bytes[1..]
  }

  lemma {:induction false} FirstByteSmall(len: nat, v: nat)
    requires v < 16 * Pow256(len)
    ensures BE(len + 1, v)[0] < 16
  {
    if len > 0 {
      FirstByteSmall(len - 1, v / 256);
    } else {
      assert BE(1, v) == BE(0, v / 256) + [v % 256];
    }
  }

  /** The decoder's loop over the remaining bytes, in 64-bit arithmetic. */
  function Fold(acc: nat, s: Bytes): nat
    decreases |s|
  {
    if s == [] then acc else Fold((acc * 256) % TWO_64 + s[0], s[1..])
  }

  function Parse(buf: Bytes): Result<(nat, Bytes)>
  {
    if buf == [] then Err(Encoding)
    else
      var len := buf[0] / 16;
      if len > MAX_LEN_CODE then Err(Encoding)
      else if |buf| < len + 1 then Err(Encoding)
      else Ok((Fold(buf[0] % 16, buf[1..len + 1]), buf[len + 1..]))
  }

  lemma CodeStep(v: nat, i: nat)
    requires i <= 8 && v <= U64_MAX
    ensures CodeFrom(v, i) == if i == 8 || v < THRESHOLDS[i] then i else CodeFrom(v, i + 1)
  {
  }

  method LengthCodeOf(v: nat) returns (r: nat)
    requires v <= U64_MAX
    ensures r == LengthCode(v)
  {
    hide CodeFrom;
    for i := 0 to 9
      invariant i <= 8 ==> LengthCode(v) == CodeFrom(v, i)
      invariant i == 9 ==> LengthCode(v) == MAX_LEN_CODE
    {
      CodeStep(v, i);
      if v < THRESHOLDS[i] {
        return i;
      }
    }
    return MAX_LEN_CODE;
  }

  method Serialize(v: nat, buf: Bytes) returns (r: Bytes)
    requires v <= U64_MAX
    ensures r == buf + Encode(v)
  {
    hide LengthCode, Encode, Shr;
    var len := LengthCodeOf(v);
    var total := len + 1;
    var shift := 8 * (total - 1);
    var first := if shift >= 64 then 0 else Shr(v, total - 1) % 16;
    EncodeAt(v);
    var bytes: Bytes := [len * 16 + first];
    for i := 1 to total
      invariant bytes == Encode(v)[..i]
    {
      bytes := bytes + [Shr(v, total - 1 - i) % 256];
    }
    r := buf + bytes;
  }

  lemma {:induction false} BEAt(n: nat, v: nat, i: nat)
    requires i < n
    ensures BE(n, v)[i] == Shr(v, n - 1 - i) % 256
  {
    if i < n - 1 {
      BEAt(n - 1, v / 256, i);
    }
  }

  lemma {:induction false} ShrToZero(v: nat, j: nat)
    requires v < Pow256(j)
    ensures Shr(v, j) == 0
  {
    if j > 0 {
      ShrToZero(v / 256, j - 1);
    }
  }

  lemma ShrEight(v: nat)
    requires v <= U64_MAX
    ensures Shr(v, 8) == 0
  {
  }

  lemma NibbleMod(x: nat)
    ensures x % 256 < 16 ==> x % 16 == x % 256
  {
  }

  /** The value's bits in the first byte; a shift by 64 bits leaves none. */
  function FirstBits(v: nat): nat
    requires v <= U64_MAX
  {
    if 8 * LengthCode(v) >= 64 then 0 else Shr(v, LengthCode(v)) % 16
  }

  lemma FirstDataBits(v: nat)
    requires v <= U64_MAX
    ensures FirstBits(v) == BE(LengthCode(v) + 1, v)[0]
  {
    var len := LengthCode(v);
    FirstByteSmall(len, v);
    BEAt(len + 1, v, 0);
    NibbleMod(Shr(v, len));
    ShrEight(v);
  }

  /** The bytes of an encoding, one by one. */
  lemma EncodeAt(v: nat)
    requires v <= U64_MAX
    ensures Encode(v)[..1] == [LengthCode(v) * 16 + FirstBits(v)]
    ensures forall i :: 1 <= i <= LengthCode(v) ==> Encode(v)[i] == Shr(v, LengthCode(v) - i) % 256
  {
    hide LengthCode, BE, Shr, FirstBits;
    var len := LengthCode(v);
    FirstDataBits(v);
    forall i | 1 <= i <= len
      ensures Encode(v)[i] == Shr(v, len - i) % 256
    {
      BEAt(len + 1, v, i);
    }
  }

  method Deserialize(buf: Bytes) returns (r: Result<(nat, Bytes)>)
    ensures r == Parse(buf)
  {
    if buf == [] {
      return Err(Encoding);
    }
    var len := buf[0] / 16;
    if len > MAX_LEN_CODE {
      return Err(Encoding);
    }
    var total := len + 1;
    if |buf| < total {
      return Err(Encoding);
    }
    var value: nat := buf[0] % 16;
    ghost var s := buf[1..total];
    for i := 1 to total
      invariant Fold(buf[0] % 16, s) == Fold(value, s[i - 1..])
    {
      assert s[i - 1..][0] == buf[i] && s[i - 1..][1..] == s[i..];
      value := (value * 256) % TWO_64 + buf[i];
    }
    return Ok((value, buf[total..]));
  }

  lemma {:induction false} FromBEGrows(p: Bytes, t: Bytes)
    ensures FromBE(p) <= FromBE(p + t)
  {
    if t == [] {
      assert p + t == p;
    } else {
      var n := |t| - 1;
      assert (p + t)[..|p + t| - 1] == p + t[..n];
      FromBEGrows(p, t[..n]);
    }
  }

  lemma SmallMod(x: nat)
    ensures x < TWO_64 ==> x % TWO_64 == x
  {
  }

  /** Folding rebuilds the big-endian number, when it fits 64 bits. */
  lemma {:induction false} FoldIsFromBE(p: Bytes, s: Bytes)
    requires FromBE(p + s) < TWO_64
    ensures Fold(FromBE(p), s) == FromBE(p + s)
    decreases |s|
  {
    if s == [] {
      assert p + s == p;
    } else {
      var q := p + [s[0]];
      assert q + s[1..] == p + s && q[..|q| - 1] == p;
      FromBEGrows(q, s[1..]);
      SmallMod(FromBE(p) * 256);
      FoldIsFromBE(q, s[1..]);
    }
  }

  /** Parsing inverts encoding and consumes exactly the bytes written. */
  lemma ParseEncode(v: nat, rest: Bytes)
    requires v <= U64_MAX
    ensures Parse(Encode(v) + rest) == Ok((v, rest))
  {
    hide LengthCode, BE, Fold;
    var len := LengthCode(v);
    var b := BE(len + 1, v);
    var buf := Encode(v) + rest;
    FirstByteSmall(len, v);
    assert buf[0] / 16 == len && buf[0] % 16 == b[0];
    assert buf[1..len + 1] == b[1..] && buf[len + 1..] == rest;
    assert v < Pow256(len + 1);
    BERoundTrip(len + 1, v);
    assert [b[0]] + b[1..] == b;
    assert FromBE([b[0]]) == b[0];
    FoldIsFromBE([b[0]], b[1..]);
  }

  /** Encodings sort as the numbers do, whatever is appended to them. */
  lemma EncodeOrder(v: nat, w: nat, x: Bytes, y: Bytes)
    requires v < w <= U64_MAX
    ensures Less(Encode(v) + x, Encode(w) + y)
  {
    CodeMonotone(v, w, 0);
    if LengthCode(v) == LengthCode(w) {
      SameCodeOrder(LengthCode(v), v, w, x, y);
    } else {
      FirstByteSmall(LengthCode(v), v);
      assert (Encode(v) + x)[0] == Encode(v)[0] && (Encode(w) + y)[0] == Encode(w)[0];
    }
  }

  lemma SameCodeOrder(len: nat, v: nat, w: nat, x: Bytes, y: Bytes)
    requires len <= MAX_LEN_CODE && v < w < 16 * Pow256(len)
    ensures Less(WithCode(len, v) + x, WithCode(len, w) + y)
  {
    hide BE;
    var a, b := BE(len + 1, v), BE(len + 1, w);
    FirstByteSmall(len, v);
    FirstByteSmall(len, w);
    BEOrder(len + 1, v, w, x, y);
    ShiftedHead(len * 16, a[0], b[0], a[1..] + x, b[1..] + y) by {
      assert [a[0]] + (a[1..] + x) == a + x && [b[0]] + (b[1..] + y) == b + y;
    }
    assert WithCode(len, v) + x == [len * 16 + a[0]] + (a[1..] + x);
    assert WithCode(len, w) + y == [len * 16 + b[0]] + (b[1..] + y);
  }

  lemma ShiftedHead(c: nat, a: byte, b: byte, x: Bytes, y: Bytes)
    requires c + a < 256 && c + b < 256
    requires Less([a] + x, [b] + y)
    ensures Less([c + a] + x, [c + b] + y)
  {
  }

  lemma {:induction false} CodeMonotone(v: nat, w: nat, i: nat)
    requires v < w <= U64_MAX && i <= 8
    ensures CodeFrom(v, i) <= CodeFrom(w, i)
    decreases 8 - i
  {
    if i < 8 {
      CodeMonotone(v, w, i + 1);
    }
  }
}
