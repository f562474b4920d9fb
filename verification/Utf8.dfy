/** UTF-8, which the locations of queue entries have to be (buffer/src/queue.rs), against the
    encoding of Unicode scalar values. */
module Utf8 {
  import opened ByteStrings

  // ----- the decoder's rule -----

  /** Well-formed UTF-8. */
  predicate ValidUtf8(s: Bytes)
  {
    Utf8From(s, 0)
  }

  predicate Utf8From(s: Bytes, i: nat)
    requires i <= |s|
    decreases |s| - i
  {
    i == |s| || (Utf8Length(s, i) > 0 && Utf8From(s, i + Utf8Length(s, i)))
  }

  /** The length of the character at `i`, or 0, as the Unicode standard tabulates it. */
  function Utf8Length(s: Bytes, i: nat): (n: nat)
    requires i < |s|
    ensures i + n <= |s|
  {
    var lead := s[i];
    if lead < 0x80 then 1
    else if 0xC2 <= lead <= 0xDF && i + 2 <= |s| && Trail(s, i + 1, 1) then 2
    else if 0xE0 <= lead <= 0xEF && i + 3 <= |s| && Second3(lead, s[i + 1]) && Trail(s, i + 2, 1) then 3
    else if 0xF0 <= lead <= 0xF4 && i + 4 <= |s| && Second4(lead, s[i + 1]) && Trail(s, i + 2, 2) then 4
    else 0
  }

  predicate Trail(s: Bytes, i: nat, n: nat)
    requires i + n <= |s|
  {
    forall k :: i <= k < i + n ==> 0x80 <= s[k] <= 0xBF
  }

  predicate Second3(lead: byte, b: byte)
  {
    (if lead == 0xE0 then 0xA0 else 0x80) <= b <= (if lead == 0xED then 0x9F else 0xBF)
  }

  predicate Second4(lead: byte, b: byte)
  {
    (if lead == 0xF0 then 0x90 else 0x80) <= b <= (if lead == 0xF4 then 0x8F else 0xBF)
  }

  // ----- what UTF-8 is -----

  /** A Unicode code point that is no surrogate. */
  type Scalar = c: int | 0 <= c < 0xD800 || 0xE000 <= c <= 0x10FFFF

  /** The bytes of one character: six bits in each byte after the first. */
  function CharBytes(c: Scalar): Bytes
  {
    if c < 0x80 then [c]
    else if c < 0x800 then [0xC0 + c / 64, 0x80 + c % 64]
    else if c < 0x1_0000 then [0xE0 + c / 4096, 0x80 + c / 64 % 64, 0x80 + c % 64]
    else [0xF0 + c / 262144, 0x80 + c / 4096 % 64, 0x80 + c / 64 % 64, 0x80 + c % 64]
  }

  function TextBytes(text: seq<Scalar>): Bytes
  {
    if text == [] then [] else CharBytes(text[0]) + TextBytes(text[1..])
  }

  // ----- every text is accepted -----

  lemma CharLength(c: Scalar, s: Bytes, i: nat)
    requires i + |CharBytes(c)| <= |s| && s[i..i + |CharBytes(c)|] == CharBytes(c)
    ensures Utf8Length(s, i) == |CharBytes(c)|
  {
    var b := CharBytes(c);
    assert s[i] == s[i..i + |b|][0];
    assert |b| > 1 ==> s[i + 1] == s[i..i + |b|][1];
    assert |b| > 2 ==> s[i + 2] == s[i..i + |b|][2];
    assert |b| > 3 ==> s[i + 3] == s[i..i + |b|][3];
    Leads(c);
  }

  /** The first two bytes of a character say how long it is. */
  lemma Leads(c: Scalar)
    ensures var b := CharBytes(c);
            && 1 <= |b| <= 4
            && (|b| == 1 ==> b[0] < 0x80)
            && (|b| == 2 ==> 0xC2 <= b[0] <= 0xDF)
            && (|b| == 3 ==> 0xE0 <= b[0] <= 0xEF && Second3(b[0], b[1]))
            && (|b| == 4 ==> 0xF0 <= b[0] <= 0xF4 && Second4(b[0], b[1]))
            && forall k :: 1 <= k < |b| ==> 0x80 <= b[k] <= 0xBF
  {
  }

  lemma HeadAt(text: seq<Scalar>, s: Bytes, i: nat)
    requires i <= |s| && s[i..] == TextBytes(text) && text != []
    ensures var n := |CharBytes(text[0])|;
            i + n <= |s| && s[i..i + n] == CharBytes(text[0]) && s[i + n..] == TextBytes(text[1..])
  {
    hide CharBytes;
    var b := CharBytes(text[0]);
    assert |s| - i == |b| + |TextBytes(text[1..])|;
    assert s[i..i + |b|] == s[i..][..|b|] && s[i + |b|..] == s[i..][|b|..];
  }

  lemma {:induction false} TextFrom(text: seq<Scalar>, s: Bytes, i: nat)
    requires i <= |s| && s[i..] == TextBytes(text)
    ensures Utf8From(s, i)
    decreases |text|
  {
    if text == [] {
      assert |s| - i == 0;
    } else {
      hide Utf8Length, CharBytes, TextBytes;
      HeadAt(text, s, i);
      CharLength(text[0], s, i);
      Leads(text[0]);
      TextFrom(text[1..], s, i + |CharBytes(text[0])|);
    }
  }

  // ----- everything accepted is a text -----

  /** A number from six bits in each byte after the first. */
  function Sixes(a: int, x: int, y: int, z: int): int
  {
    a * 262144 + (x - 0x80) * 4096 + (y - 0x80) * 64 + (z - 0x80)
  }

  lemma SixesApart(a: nat, x: int, y: int, z: int)
    requires 0x80 <= x <= 0xBF && 0x80 <= y <= 0xBF && 0x80 <= z <= 0xBF
    ensures var c := Sixes(a, x, y, z);
            && c / 262144 == a && c / 4096 == a * 64 + (x - 0x80)
            && c / 64 == a * 4096 + (x - 0x80) * 64 + (y - 0x80)
            && c / 4096 % 64 == x - 0x80 && c / 64 % 64 == y - 0x80 && c % 64 == z - 0x80
  {
  }

  lemma TwoBytes(b: Bytes) returns (c: Scalar)
    requires |b| == 2 && 0xC2 <= b[0] <= 0xDF && Trail(b, 1, 1)
    ensures CharBytes(c) == b
  {
    var lead: int := b[0];
    SixesApart(0, 0x80, lead - 0x40, b[1]);
    c := Sixes(0, 0x80, lead - 0x40, b[1]);
  }

  lemma ThreeBytes(b: Bytes) returns (c: Scalar)
    requires |b| == 3 && 0xE0 <= b[0] <= 0xEF && Second3(b[0], b[1]) && Trail(b, 2, 1)
    ensures CharBytes(c) == b
  {
    var lead: int := b[0];
    SixesApart(0, lead - 0x60, b[1], b[2]);
    c := Sixes(0, lead - 0x60, b[1], b[2]);
  }

  lemma FourBytes(b: Bytes) returns (c: Scalar)
    requires |b| == 4 && 0xF0 <= b[0] <= 0xF4 && Second4(b[0], b[1]) && Trail(b, 2, 2)
    ensures CharBytes(c) == b
  {
    hide Sixes;
    var lead: int := b[0];
    SixesApart(lead - 0xF0, b[1], b[2], b[3]);
    c := Sixes(lead - 0xF0, b[1], b[2], b[3]);
  }

  /** The character whose bytes stand at `i`. */
  lemma CharAt(s: Bytes, i: nat) returns (c: Scalar)
    requires i < |s| && Utf8Length(s, i) > 0
    ensures CharBytes(c) == s[i..i + Utf8Length(s, i)]
  {
    hide CharBytes;
    var n := Utf8Length(s, i);
    var b := s[i..i + n];
    if n == 1 {
      OneByte(s[i]);
      c := s[i];
    } else if n == 2 {
      c := TwoBytes(b);
    } else if n == 3 {
      c := ThreeBytes(b);
    } else {
      c := FourBytes(b);
    }
  }

  lemma OneByte(b: byte)
    requires b < 0x80
    ensures CharBytes(b) == [b]
  {
  }

  lemma {:induction false} FromText(s: Bytes, i: nat) returns (text: seq<Scalar>)
    requires i <= |s| && Utf8From(s, i)
    ensures TextBytes(text) == s[i..]
    decreases |s| - i
  {
    if i == |s| {
      text := [];
    } else {
      hide Utf8Length, CharBytes;
      var n := Utf8Length(s, i);
      var c := CharAt(s, i);
      var rest := FromText(s, i + n);
      text := [c] + rest;
      assert text[1..] == rest && s[i..] == s[i..i + n] + s[i + n..];
    }
  }

  /** The rule accepts exactly the encodings of texts. */
  lemma ValidIffText(s: Bytes)
    ensures ValidUtf8(s) <==> exists text :: TextBytes(text) == s
  {
    assert s[0..] == s;
    if ValidUtf8(s) {
      var text := FromText(s, 0);
    }
    if text: seq<Scalar> :| TextBytes(text) == s {
      TextFrom(text, s, 0);
    }
  }

  lemma TextOneMore(c: Scalar, rest: seq<Scalar>)
    ensures TextBytes([c] + rest) == CharBytes(c) + TextBytes(rest)
  {
    hide CharBytes;
    assert ([c] + rest)[1..] == rest;
  }

  lemma NoText()
    ensures TextBytes([]) == []
  {
  }

  lemma {:induction false} TextConcat(a: seq<Scalar>, b: seq<Scalar>)
    ensures TextBytes(a + b) == TextBytes(a) + TextBytes(b)
  {
    hide TextBytes, CharBytes;
    if a == [] {
      NoText();
      assert a + b == b;
    } else {
      TextConcat(a[1..], b);
      TextOneMore(a[0], a[1..]);
      TextOneMore(a[0], a[1..] + b);
      assert [a[0]] + a[1..] == a && [a[0]] + (a[1..] + b) == a + b;
    }
  }

  /** Texts can be put together. */
  lemma ValidConcat(a: Bytes, b: Bytes)
    requires ValidUtf8(a) && ValidUtf8(b)
    ensures ValidUtf8(a + b)
  {
    hide ValidUtf8;
    ValidIffText(a);
    ValidIffText(b);
    var x :| TextBytes(x) == a;
    var y :| TextBytes(y) == b;
    TextConcat(x, y);
    ValidIffText(a + b);
  }

  predicate IsAscii(s: Bytes)
  {
    forall i :: 0 <= i < |s| ==> s[i] < 0x80
  }

  lemma {:induction false} AsciiFrom(s: Bytes, i: nat)
    requires IsAscii(s) && i <= |s|
    ensures Utf8From(s, i)
    decreases |s| - i
  {
    if i < |s| {
      AsciiFrom(s, i + 1);
    }
  }

  /** Every ASCII string is a text. */
  lemma AsciiValid(s: Bytes)
    requires IsAscii(s)
    ensures ValidUtf8(s)
  {
    AsciiFrom(s, 0);
  }
}
