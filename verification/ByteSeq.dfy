/** Byte sequences and the parts they are made of. */
module ByteSeq {
  import opened Codec

  type Bytes = seq<byte>

  /** The bytes from `off` on begin with `part`. */
  predicate HasAt(buf: Bytes, off: nat, part: Bytes) {
    off + |part| <= |buf| && buf[off..off + |part|] == part
  }

  lemma {:induction false} HasSplit(buf: Bytes, off: nat, a: Bytes, b: Bytes)
    requires HasAt(buf, off, a + b)
    ensures HasAt(buf, off, a) && HasAt(buf, off + |a|, b)
  {
    var s := buf[off..off + |a + b|];
    assert s[..|a|] == a && s[|a|..] == b;
    assert buf[off..off + |a|] == s[..|a|];
    assert buf[off + |a|..off + |a| + |b|] == s[|a|..];
  }

  lemma {:induction false} HasInPrefix(a: Bytes, b: Bytes, off: nat, part: Bytes)
    requires HasAt(a, off, part)
    ensures HasAt(a + b, off, part)
  {
    assert (a + b)[off..off + |part|] == a[off..off + |part|];
  }

  lemma {:induction false} HasBehind(a: Bytes, b: Bytes, off: nat, part: Bytes)
    requires HasAt(b, off, part)
    ensures HasAt(a + b, |a| + off, part)
  {
    assert (a + b)[|a| + off..|a| + off + |part|] == b[off..off + |part|];
  }

  /** The first n parts, one after the other. */
  function Body(parts: seq<Bytes>, n: nat): (bs: Bytes)
    requires n <= |parts|
  {
    if n == 0 then [] else Body(parts, n - 1) + parts[n - 1]
  }

  lemma {:induction false} BodyPrefix(parts: seq<Bytes>, k: nat, n: nat)
    requires k < n <= |parts|
    ensures |Body(parts, k)| + |parts[k]| <= |Body(parts, n)|
    ensures HasAt(Body(parts, n), |Body(parts, k)|, parts[k])
  {
    if k < n - 1 {
      BodyPrefix(parts, k, n - 1);
      HasInPrefix(Body(parts, n - 1), parts[n - 1], |Body(parts, k)|, parts[k]);
    } else {
      assert Body(parts, n)[|Body(parts, k)|..|Body(parts, k)| + |parts[k]|] == parts[k];
    }
  }

  lemma {:induction false} BodyNext(parts: seq<Bytes>, k: nat)
    requires k < |parts|
    ensures Body(parts, k + 1) == Body(parts, k) + parts[k]
  {
  }
}
