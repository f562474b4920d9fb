/** Byte strings, the lexicographic order the storage engine sorts keys by,
    and the fixed-width integer encodings every format of the repository uses. */
module ByteStrings {

  type byte = x: int | 0 <= x < 256
  type Bytes = seq<byte>

  const U16_MAX: int := 0xFFFF
  const U32_MAX: int := 0xFFFF_FFFF
  const U64_MAX: int := 0xFFFF_FFFF_FFFF_FFFF
  const TWO_32: int := 0x1_0000_0000
  const TWO_64: int := 0x1_0000_0000_0000_0000

  type u32 = x: int | 0 <= x <= 0xFFFF_FFFF
  type u64 = x: int | 0 <= x <= 0xFFFF_FFFF_FFFF_FFFF
  type i64 = x: int | -0x8000_0000_0000_0000 <= x < 0x8000_0000_0000_0000

  datatype Option<+T> = None | Some(value: T)

  datatype Error = Serialization | InvalidInput | Encoding | Storage | Fenced | OutOfOrder | Overflow

  datatype Result<+T> = Ok(value: T) | Err(error: Error)

  /** What was decoded so far, in front of the rest. */
  ghost function Onto<T>(done: seq<T>, rest: Result<seq<T>>): Result<seq<T>>
  {
    if rest.Err? then rest else Ok(done + rest.value)
  }

  lemma OntoStep<T>(done: seq<T>, e: T, rest: Result<seq<T>>)
    ensures Onto(done, Onto([e], rest)) == Onto(done + [e], rest)
  {
    if rest.Ok? {
      assert done + ([e] + rest.value) == done + [e] + rest.value;
    }
  }

  // ----- lexicographic order -----

  /** Strict lexicographic order on byte strings. */
  predicate Less(a: Bytes, b: Bytes)
  {
    b != [] && (a == [] || a[0] < b[0] || (a[0] == b[0] && Less(a[1..], b[1..])))
  }

  predicate AtMost(a: Bytes, b: Bytes)
  {
    !Less(b, a)
  }

  lemma {:induction false} LessIrreflexive(a: Bytes)
    ensures !Less(a, a)
  {
    if a != [] {
      LessIrreflexive(a[1..]);
    }
  }

  lemma {:induction false} LessTotal(a: Bytes, b: Bytes)
    ensures Less(a, b) || Less(b, a) || a == b
    ensures !(Less(a, b) && Less(b, a))
  {
    if a != [] && b != [] {
      LessTotal(a[1..], b[1..]);
      if a[0] == b[0] && a[1..] == b[1..] {
        assert a == [a[0]] + a[1..] == b;
      }
    }
  }

  lemma {:induction false} LessTransitive(a: Bytes, b: Bytes, c: Bytes)
    requires Less(a, b) && Less(b, c)
    ensures Less(a, c)
  {
    if a != [] && a[0] == b[0] == c[0] {
      LessTransitive(a[1..], b[1..], c[1..]);
    }
  }

  lemma LessAsymmetric(a: Bytes, b: Bytes)
    requires Less(a, b)
    ensures !Less(b, a)
  {
  }

  lemma AtMostTransitive(a: Bytes, b: Bytes, c: Bytes)
    requires AtMost(a, b) && AtMost(b, c)
    ensures AtMost(a, c)
  {
    LessTotal(a, b);
    LessTotal(b, c);
    if a != b && b != c {
      LessTransitive(a, b, c);
      LessAsymmetric(a, c);
    }
  }

  /** A common prefix does not change the order. */
  lemma {:induction false} LessCommonPrefix(p: Bytes, a: Bytes, b: Bytes)
    ensures Less(p + a, p + b) <==> Less(a, b)
  {
    if p == [] {
      assert p + a == a && p + b == b;
    } else {
      assert (p + a)[1..] == p[1..] + a && (p + b)[1..] == p[1..] + b;
      LessCommonPrefix(p[1..], a, b);
    }
  }

  /** Once two strings differ, what follows does not matter. */
  lemma {:induction false} LessAtDifference(p: Bytes, x: byte, y: byte, a: Bytes, b: Bytes)
    requires x != y
    ensures Less(p + [x] + a, p + [y] + b) <==> x < y
  {
    assert p + [x] + a == p + ([x] + a) && p + [y] + b == p + ([y] + b);
    LessCommonPrefix(p, [x] + a, [y] + b);
  }

  /** A string is never below one of its prefixes. */
  lemma PrefixAtMost(p: Bytes, a: Bytes)
    ensures AtMost(p, p + a)
    ensures a != [] ==> Less(p, p + a)
  {
    assert p + [] == p;
    LessCommonPrefix(p, a, []);
    LessCommonPrefix(p, [], a);
  }

  /** A string between two others that share a prefix has that prefix too. */
  lemma {:induction false} BetweenSharesPrefix(p: Bytes, a: Bytes, b: Bytes, k: Bytes)
    requires AtMost(p + a, k) && AtMost(k, p + b)
    ensures p <= k
  {
    if p != [] {
      assert (p + a)[1..] == p[1..] + a && (p + b)[1..] == p[1..] + b;
      assert (p + a)[0] == p[0] == (p + b)[0];
      BetweenSharesPrefix(p[1..], a, b, k[1..]);
      assert k == [k[0]] + k[1..];
      assert p == [p[0]] + p[1..];
    }
  }

  // ----- fixed-width integers -----

  function Pow256(n: nat): (r: nat)
    ensures r >= 1
  {
    if n == 0 then 1 else 256 * Pow256(n - 1)
  }

  lemma Pow256Values()
    ensures Pow256(2) == U16_MAX + 1
    ensures Pow256(4) == TWO_32
    ensures Pow256(8) == TWO_64
  {
  }

  /** The low `n` bytes of `v`, least significant first. */
  function LE(n: nat, v: nat): (r: Bytes)
    ensures |r| == n
  {
    if n == 0 then [] else [v % 256] + LE(n - 1, v / 256)
  }

  function FromLE(s: Bytes): nat
  {
    if s == [] then 0 else s[0] + 256 * FromLE(s[1..])
  }

  /** The low `n` bytes of `v`, most significant first. */
  function BE(n: nat, v: nat): (r: Bytes)
    ensures |r| == n
  {
    if n == 0 then [] else BE(n - 1, v / 256) + [v % 256]
  }

  function FromBE(s: Bytes): nat
  {
    if s == [] then 0 else FromBE(s[..|s| - 1]) * 256 + s[|s| - 1]
  }

  lemma {:induction false} FromLEBound(s: Bytes)
    ensures FromLE(s) < Pow256(|s|)
  {
    if s != [] {
      FromLEBound(s[1..]);
    }
  }

  lemma {:induction false} LERoundTrip(n: nat, v: nat)
    requires v < Pow256(n)
    ensures FromLE(LE(n, v)) == v
  {
    if n > 0 {
      assert LE(n, v)[1..] == LE(n - 1, v / 256);
      LERoundTrip(n - 1, v / 256);
    }
  }

  lemma {:induction false} LEOfFromLE(s: Bytes)
    ensures LE(|s|, FromLE(s)) == s
  {
    if s != [] {
      LEOfFromLE(s[1..]);
      assert FromLE(s) % 256 == s[0] && FromLE(s) / 256 == FromLE(s[1..]);
    }
  }

  lemma {:induction false} BERoundTrip(n: nat, v: nat)
    requires v < Pow256(n)
    ensures FromBE(BE(n, v)) == v
  {
    if n > 0 {
      assert BE(n, v)[..n - 1] == BE(n - 1, v / 256);
      BERoundTrip(n - 1, v / 256);
    }
  }

  lemma {:induction false} FromBEBound(s: Bytes)
    ensures FromBE(s) < Pow256(|s|)
  {
    if s != [] {
      FromBEBound(s[..|s| - 1]);
    }
  }

  /** Big-endian bytes of the same width sort as the numbers do. */
  lemma {:induction false} BEOrder(n: nat, v: nat, w: nat, x: Bytes, y: Bytes)
    requires v < w < Pow256(n)
    ensures Less(BE(n, v) + x, BE(n, w) + y)
  {
    assert n > 0;
    var p, q := BE(n - 1, v / 256), BE(n - 1, w / 256);
    assert BE(n, v) + x == p + ([v % 256] + x);
    assert BE(n, w) + y == q + ([w % 256] + y);
    if v / 256 == w / 256 {
      LessCommonPrefix(p, [v % 256] + x, [w % 256] + y);
    } else {
      BEOrder(n - 1, v / 256, w / 256, [v % 256] + x, [w % 256] + y);
    }
  }

  // ----- signed 64-bit values -----

  /** Two's complement of a signed 64-bit value. */
  function Unsigned(v: i64): (r: nat)
    ensures r < TWO_64
  {
    if v < 0 then v + TWO_64 else v
  }

  function Signed(v: nat): (r: i64)
    requires v < TWO_64
    ensures Unsigned(r) == v
  {
    if v >= 0x8000_0000_0000_0000 then v - TWO_64 else v
  }
}
