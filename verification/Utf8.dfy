/** Java strings on the wire: new String(bytes, UTF_8) and getBytes(UTF_8), as BlockHandler.java uses
    them between packets and blocks. */
module Utf8 {
  import opened GoText
  import opened Codec
  import opened ByteSeq

  /** Unicode scalar values; a Java string without lone surrogates is a sequence of them. */
  type Scalar = n: int | 0 <= n <= 0x10FFFF && !(0xD800 <= n <= 0xDFFF)
  type JString = seq<Scalar>

  const REPLACEMENT: Scalar := 0xFFFD

  /** The Java runtime: how many bytes of malformed input one replacement character stands for. */
  datatype Java = Java(malformed: (Bytes, nat) -> nat)

  // ----- getBytes -----

  function Width(c: Scalar): (n: nat)
    ensures 1 <= n <= 4
  {
    if c < 0x80 then 1 else if c < 0x800 then 2 else if c < 0x10000 then 3 else 4
  }

  /** The low six bits of c / unit, in a continuation byte. */
  function Continuation(c: nat, unit: nat): byte
    requires unit > 0
  {
    0x80 + c / unit % 64
  }

  function EncodeScalar(c: Scalar): (bs: Bytes)
    ensures |bs| == Width(c)
  {
    if c < 0x80 then [c]
    else if c < 0x800 then [0xC0 + c / 64, Continuation(c, 1)]
    else if c < 0x10000 then [0xE0 + c / 4096, Continuation(c, 64), Continuation(c, 1)]
    else [0xF0 + c / 262144, Continuation(c, 4096), Continuation(c, 64), Continuation(c, 1)]
  }

  function Parts(s: JString): (parts: seq<Bytes>)
    ensures |parts| == |s|
  {
    seq(|s|, i requires 0 <= i < |s| => EncodeScalar(s[i]))
  }

  function GetBytes(s: JString): Bytes {
    Body(Parts(s), |s|)
  }

  // ----- new String -----

  predicate IsContinuation(bs: Bytes, i: nat) {
    i < |bs| && 0x80 <= bs[i] < 0xC0
  }

  /** The six bits a continuation byte carries. */
  function Low(bs: Bytes, i: nat): nat
    requires IsContinuation(bs, i)
  {
    bs[i] - 0x80
  }

  predicate IsScalar(n: int) {
    0 <= n <= 0x10FFFF && !(0xD800 <= n <= 0xDFFF)
  }

  /** The scalar whose encoding begins at i; overlong forms, surrogates and cut sequences are none. */
  function ScalarAt(bs: Bytes, i: nat): (r: Option<Scalar>)
    requires i < |bs|
  {
    var b := bs[i];
    if b < 0x80 then Some(b)
    else if 0xC2 <= b < 0xE0 && IsContinuation(bs, i + 1) then Some((b - 0xC0) * 64 + Low(bs, i + 1))
    else if 0xE0 <= b < 0xF0 && IsContinuation(bs, i + 1) && IsContinuation(bs, i + 2) then
      var c := (b - 0xE0) * 4096 + Low(bs, i + 1) * 64 + Low(bs, i + 2);
      if c >= 0x800 && IsScalar(c) then Some(c) else None
    else if 0xF0 <= b && IsContinuation(bs, i + 1) && IsContinuation(bs, i + 2) && IsContinuation(bs, i + 3) then
      var c := (b - 0xF0) * 262144 + Low(bs, i + 1) * 4096 + Low(bs, i + 2) * 64 + Low(bs, i + 3);
      if c >= 0x10000 && IsScalar(c) then Some(c) else None
    else None
  }

  /** How far a replacement moves on: at least one byte, never past the end. */
  function Skip(java: Java, bs: Bytes, i: nat): (n: nat)
    requires i < |bs|
    ensures 1 <= n <= |bs| - i
  {
    var n := java.malformed(bs, i);
    if n == 0 then 1 else if n > |bs| - i then |bs| - i else n
  }

  lemma {:induction false} ScalarFits(bs: Bytes, i: nat)
    requires i < |bs| && ScalarAt(bs, i).Some?
    ensures i + Width(ScalarAt(bs, i).value) <= |bs|
  {
  }

  function Decode(java: Java, bs: Bytes, i: nat): (s: JString)
    requires i <= |bs|
    decreases |bs| - i
  {
    if i == |bs| then []
    else
      var c := ScalarAt(bs, i);
      if c.Some? then
        ScalarFits(bs, i);
        [c.value] + Decode(java, bs, i + Width(c.value))
      else [REPLACEMENT] + Decode(java, bs, i + Skip(java, bs, i))
  }

  function NewString(java: Java, bs: Bytes): JString {
    Decode(java, bs, 0)
  }

  /** Well-formed UTF-8 from byte i on. */
  predicate WellFormedFrom(bs: Bytes, i: nat)
    requires i <= |bs|
    decreases |bs| - i
  {
    i == |bs|
    || (ScalarAt(bs, i).Some?
        && (ScalarFits(bs, i); WellFormedFrom(bs, i + Width(ScalarAt(bs, i).value))))
  }

  predicate WellFormed(bs: Bytes) {
    WellFormedFrom(bs, 0)
  }

  // ----- one scalar -----

  lemma {:induction false} SixBits(q: nat, r: nat)
    requires r < 64
    ensures (q * 64 + r) / 64 == q && (q * 64 + r) % 64 == r
  {
  }

  /** A number by its groups of six bits. */
  lemma {:induction false} Groups(c: nat)
    ensures c == c / 64 * 64 + c % 64 && c / 4096 == c / 64 / 64 && c / 262144 == c / 4096 / 64
    ensures c == c / 4096 * 4096 + c / 64 % 64 * 64 + c % 64
    ensures c == c / 262144 * 262144 + c / 4096 % 64 * 4096 + c / 64 % 64 * 64 + c % 64
  {
  }

  lemma {:induction false} ByteOf(bs: Bytes, i: nat, e: Bytes, k: nat)
    requires HasAt(bs, i, e) && k < |e|
    ensures bs[i + k] == e[k]
  {
    assert bs[i..i + |e|][k] == e[k];
  }

  lemma {:induction false} ReadTwo(bs: Bytes, i: nat, c: Scalar)
    requires i + 1 < |bs| && 0x80 <= c < 0x800 && bs[i] == 0xC0 + c / 64 && bs[i + 1] == 0x80 + c % 64
    ensures ScalarAt(bs, i) == Some(c)
  {
    Groups(c);
  }

  lemma {:induction false} ReadThree(bs: Bytes, i: nat, c: Scalar)
    requires i + 2 < |bs| && 0x800 <= c < 0x10000
    requires bs[i] == 0xE0 + c / 4096 && bs[i + 1] == 0x80 + c / 64 % 64 && bs[i + 2] == 0x80 + c % 64
    ensures ScalarAt(bs, i) == Some(c)
  {
    Groups(c);
    assert IsContinuation(bs, i + 1) && IsContinuation(bs, i + 2);
  }

  lemma {:induction false} ReadFour(bs: Bytes, i: nat, c: Scalar)
    requires i + 3 < |bs| && 0x10000 <= c
    requires bs[i] == 0xF0 + c / 262144 && bs[i + 1] == 0x80 + c / 4096 % 64
    requires bs[i + 2] == 0x80 + c / 64 % 64 && bs[i + 3] == 0x80 + c % 64
    ensures ScalarAt(bs, i) == Some(c)
  {
    Groups(c);
    assert IsContinuation(bs, i + 1) && IsContinuation(bs, i + 2) && IsContinuation(bs, i + 3);
  }

  /** Reading undoes writing, for one scalar anywhere. */
  lemma {:induction false} ScalarRead(bs: Bytes, i: nat, c: Scalar)
    requires HasAt(bs, i, EncodeScalar(c))
    ensures i < |bs| && ScalarAt(bs, i) == Some(c)
  {
    var e := EncodeScalar(c);
    ByteOf(bs, i, e, 0);
    if c >= 0x80 {
      ByteOf(bs, i, e, 1);
      if c < 0x800 {
        ReadTwo(bs, i, c);
      } else {
        ByteOf(bs, i, e, 2);
        if c < 0x10000 {
          ReadThree(bs, i, c);
        } else {
          ByteOf(bs, i, e, 3);
          ReadFour(bs, i, c);
        }
      }
    }
  }

  lemma {:induction false} WrittenTwo(bs: Bytes, i: nat, b: nat, l: nat)
    requires i + 1 < |bs| && 2 <= b < 32 && l < 64 && bs[i] == 0xC0 + b && bs[i + 1] == 0x80 + l
    ensures HasAt(bs, i, EncodeScalar(b * 64 + l))
  {
    SixBits(b, l);
    assert bs[i..i + 2] == [bs[i], bs[i + 1]];
  }

  lemma {:induction false} WrittenThree(bs: Bytes, i: nat, b: nat, l: nat, m: nat)
    requires i + 2 < |bs| && b < 16 && l < 64 && m < 64
    requires bs[i] == 0xE0 + b && bs[i + 1] == 0x80 + l && bs[i + 2] == 0x80 + m
    requires var c := b * 4096 + l * 64 + m; c >= 0x800 && IsScalar(c)
    ensures HasAt(bs, i, EncodeScalar(b * 4096 + l * 64 + m))
  {
    var c := b * 4096 + l * 64 + m;
    assert c == (b * 64 + l) * 64 + m;
    SixBits(b * 64 + l, m);
    SixBits(b, l);
    Groups(c);
    assert bs[i..i + 3] == [bs[i], bs[i + 1], bs[i + 2]];
  }

  lemma {:induction false} WrittenFour(bs: Bytes, i: nat, b: nat, l: nat, m: nat, r: nat)
    requires i + 3 < |bs| && b < 16 && l < 64 && m < 64 && r < 64
    requires bs[i] == 0xF0 + b && bs[i + 1] == 0x80 + l && bs[i + 2] == 0x80 + m && bs[i + 3] == 0x80 + r
    requires var c := b * 262144 + l * 4096 + m * 64 + r; c >= 0x10000 && IsScalar(c)
    ensures HasAt(bs, i, EncodeScalar(b * 262144 + l * 4096 + m * 64 + r))
  {
    var c := b * 262144 + l * 4096 + m * 64 + r;
    assert c == (b * 4096 + l * 64 + m) * 64 + r && b * 4096 + l * 64 + m == (b * 64 + l) * 64 + m;
    SixBits(b * 4096 + l * 64 + m, r);
    SixBits(b * 64 + l, m);
    SixBits(b, l);
    Groups(c);
    assert bs[i..i + 4] == [bs[i], bs[i + 1], bs[i + 2], bs[i + 3]];
  }

  /** And writing undoes reading. */
  lemma {:induction false} ScalarWritten(bs: Bytes, i: nat)
    requires i < |bs| && ScalarAt(bs, i).Some?
    ensures HasAt(bs, i, EncodeScalar(ScalarAt(bs, i).value))
  {
    if bs[i] < 0x80 {
      assert bs[i..i + 1] == [bs[i]];
    } else if bs[i] < 0xE0 {
      WrittenTwo(bs, i, bs[i] - 0xC0, Low(bs, i + 1));
    } else if bs[i] < 0xF0 {
      WrittenThree(bs, i, bs[i] - 0xE0, Low(bs, i + 1), Low(bs, i + 2));
    } else {
      WrittenFour(bs, i, bs[i] - 0xF0, Low(bs, i + 1), Low(bs, i + 2), Low(bs, i + 3));
    }
  }

  // ----- whole strings -----

  lemma {:induction false} GetBytesAppend(s: JString, c: Scalar)
    ensures GetBytes(s + [c]) == GetBytes(s) + EncodeScalar(c)
  {
    BodySame(Parts(s + [c]), Parts(s), |s|);
  }

  lemma {:induction false} BodySame(parts: seq<Bytes>, parts': seq<Bytes>, n: nat)
    requires n <= |parts| && n <= |parts'| && forall k | 0 <= k < n :: parts[k] == parts'[k]
    ensures Body(parts, n) == Body(parts', n)
  {
    if n > 0 {
      BodySame(parts, parts', n - 1);
    }
  }

  lemma {:induction false} GetBytesCons(c: Scalar, s: JString)
    ensures GetBytes([c] + s) == EncodeScalar(c) + GetBytes(s)
    decreases |s|
  {
    if s == [] {
      assert [c] + s == [] + [c];
      GetBytesAppend([], c);
    } else {
      var init, last := s[..|s| - 1], s[|s| - 1];
      assert s == init + [last] && [c] + s == ([c] + init) + [last];
      GetBytesCons(c, init);
      GetBytesAppend(init, last);
      GetBytesAppend([c] + init, last);
      ConcatAssociative(EncodeScalar(c), GetBytes(init), EncodeScalar(last));
    }
  }

  lemma {:induction false} DecodedFrom(java: Java, bs: Bytes, i: nat)
    requires i <= |bs| && WellFormedFrom(bs, i)
    ensures GetBytes(Decode(java, bs, i)) == bs[i..]
    decreases |bs| - i
  {
    if i < |bs| {
      var c := ScalarAt(bs, i).value;
      ScalarFits(bs, i);
      ScalarWritten(bs, i);
      DecodedFrom(java, bs, i + Width(c));
      GetBytesCons(c, Decode(java, bs, i + Width(c)));
      assert bs[i..] == bs[i..i + Width(c)] + bs[i + Width(c)..];
    }
  }

  lemma {:induction false} EncodedFrom(s: JString, k: nat)
    requires k <= |s|
    ensures |Body(Parts(s), k)| <= |GetBytes(s)|
    ensures WellFormedFrom(GetBytes(s), |Body(Parts(s), k)|)
    decreases |s| - k
  {
    if k < |s| {
      EncodedFrom(s, k + 1);
      BodyPrefix(Parts(s), k, |s|);
      BodyNext(Parts(s), k);
      ScalarRead(GetBytes(s), |Body(Parts(s), k)|, s[k]);
    }
  }

  /** What a string encodes to is well-formed. */
  lemma {:induction false} EncodedIsWellFormed(s: JString)
    ensures WellFormed(GetBytes(s))
  {
    EncodedFrom(s, 0);
  }

  /** Bytes survive a Java string exactly when they are well-formed UTF-8, whatever the runtime does
      with those that are not. */
  lemma {:induction false} ThroughString(java: Java, bs: Bytes)
    ensures GetBytes(NewString(java, bs)) == bs <==> WellFormed(bs)
    ensures NewString(java, bs) == [] <==> bs == []
  {
    EncodedIsWellFormed(NewString(java, bs));
    if WellFormed(bs) {
      DecodedFrom(java, bs, 0);
    }
  }

  // ----- what is well-formed -----

  predicate Ascii(bs: Bytes) {
    forall i | 0 <= i < |bs| :: bs[i] < 0x80
  }

  lemma {:induction false} AsciiFrom(bs: Bytes, i: nat)
    requires Ascii(bs) && i <= |bs|
    ensures WellFormedFrom(bs, i)
    decreases |bs| - i
  {
    if i < |bs| {
      AsciiFrom(bs, i + 1);
    }
  }

  lemma {:induction false} AsciiIsWellFormed(bs: Bytes)
    requires Ascii(bs)
    ensures WellFormed(bs)
  {
    AsciiFrom(bs, 0);
  }

  /** ASCII bytes are their own characters. */
  lemma {:induction false} AsciiDecodes(java: Java, bs: Bytes, i: nat)
    requires Ascii(bs) && i <= |bs|
    ensures |Decode(java, bs, i)| == |bs| - i
    ensures forall k | 0 <= k < |bs| - i :: Decode(java, bs, i)[k] == bs[i + k]
    decreases |bs| - i
  {
    if i < |bs| {
      AsciiDecodes(java, bs, i + 1);
    }
  }

  /** No encoding reaches over an ASCII byte. */
  lemma {:induction false} StopsAtAscii(bs: Bytes, i: nat, k: nat)
    requires i < k < |bs| && bs[k] < 0x80 && ScalarAt(bs, i).Some?
    ensures i + Width(ScalarAt(bs, i).value) <= k
  {
  }

  /** A scalar is read from its own bytes only. */
  lemma {:induction false} ScalarInside(t: Bytes, a: Bytes, d: nat, i: nat)
    requires i < |a| && HasAt(t, d, a)
    requires ScalarAt(t, d + i).Some? ==> i + Width(ScalarAt(t, d + i).value) <= |a|
    ensures ScalarAt(a, i) == ScalarAt(t, d + i)
  {
    forall k | 0 <= k < |a| ensures t[d + k] == a[k] {
      ByteOf(t, d, a, k);
    }
    assert t[d + i] == a[i];
    assert i + 1 < |a| ==> t[d + (i + 1)] == a[i + 1];
    assert i + 2 < |a| ==> t[d + (i + 2)] == a[i + 2];
    assert i + 3 < |a| ==> t[d + (i + 3)] == a[i + 3];
  }

  lemma {:induction false} BeforeAscii(a: Bytes, c: byte, b: Bytes, i: nat)
    requires c < 0x80 && i <= |a|
    ensures WellFormedFrom(a + [c] + b, i) <==> WellFormedFrom(a, i) && WellFormedFrom(a + [c] + b, |a|)
    decreases |a| - i
  {
    var t := a + [c] + b;
    if i < |a| {
      if ScalarAt(t, i).Some? {
        StopsAtAscii(t, i, |a|);
      }
      assert t[0..0 + |a|] == a;
      ScalarInside(t, a, 0, i);
      if ScalarAt(t, i).Some? {
        BeforeAscii(a, c, b, i + Width(ScalarAt(t, i).value));
      }
    }
  }

  lemma {:induction false} ScalarBehind(p: Bytes, b: Bytes, j: nat, t: Bytes)
    requires j < |b| && t == p + b
    ensures ScalarAt(t, |p| + j) == ScalarAt(b, j)
  {
    if ScalarAt(t, |p| + j).Some? {
      ScalarFits(t, |p| + j);
    }
    assert t[|p|..|p| + |b|] == b;
    ScalarInside(t, b, |p|, j);
  }

  lemma {:induction false} AfterPrefix(p: Bytes, b: Bytes, j: nat, t: Bytes, i: nat)
    requires j <= |b| && t == p + b && i == |p| + j
    ensures WellFormedFrom(t, i) <==> WellFormedFrom(b, j)
    decreases |b| - j
  {
    if j < |b| {
      ScalarBehind(p, b, j, t);
      if ScalarAt(b, j).Some? {
        var n := Width(ScalarAt(b, j).value);
        ScalarFits(b, j);
        AfterPrefix(p, b, j + n, t, i + n);
      }
    }
  }

  /** ASCII bytes separate: the whole is well-formed exactly when both sides are. */
  lemma {:induction false} AsciiSeparates(a: Bytes, c: byte, b: Bytes)
    requires c < 0x80
    ensures WellFormed(a + [c] + b) <==> WellFormed(a) && WellFormed(b)
  {
    BeforeAscii(a, c, b, 0);
    AfterPrefix(a + [c], b, 0, a + [c] + b, |a| + 1);
    assert (a + [c] + b)[|a|] == c;
  }

  /** A text cut right behind a lead byte is not well-formed. */
  lemma {:induction false} CutBehindLead(bs: Bytes, i: nat)
    requires i < |bs| && bs[|bs| - 1] >= 0xC0
    ensures !WellFormedFrom(bs, i)
    decreases |bs| - i
  {
    if ScalarAt(bs, i).Some? && i + Width(ScalarAt(bs, i).value) < |bs| {
      CutBehindLead(bs, i + Width(ScalarAt(bs, i).value));
    }
  }

  // ----- Go strings as bytes -----

  predicate IsBytes(s: string) {
    forall i | 0 <= i < |s| :: s[i] < 256 as char
  }

  function BytesOf(s: string): (bs: Bytes)
    requires IsBytes(s)
    ensures |bs| == |s|
  {
    seq(|s|, i requires 0 <= i < |s| => s[i] as int)
  }

  function TextOf(bs: Bytes): (s: string)
    ensures |s| == |bs|
  {
    seq(|bs|, i requires 0 <= i < |bs| => bs[i] as char)
  }

  lemma {:induction false} TextOfBytes(s: string)
    requires IsBytes(s)
    ensures TextOf(BytesOf(s)) == s
  {
  }

  lemma {:induction false} TextIsInjective(a: Bytes, b: Bytes)
    ensures TextOf(a) == TextOf(b) <==> a == b
  {
    if TextOf(a) == TextOf(b) {
      forall i | 0 <= i < |a| ensures a[i] == b[i] {
        assert TextOf(a)[i] == TextOf(b)[i];
      }
    }
  }

  /** A string of bytes that is well-formed UTF-8. */
  predicate Utf8Text(s: string) {
    IsBytes(s) && WellFormed(BytesOf(s))
  }

  predicate AsciiText(s: string) {
    forall i | 0 <= i < |s| :: s[i] < 128 as char
  }

  lemma {:induction false} AsciiIsUtf8(s: string)
    requires AsciiText(s)
    ensures Utf8Text(s)
  {
    assert IsBytes(s);
    AsciiIsWellFormed(BytesOf(s));
  }
}
