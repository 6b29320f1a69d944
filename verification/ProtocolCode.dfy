/** The protocol's loops, on buffers with a moving offset: internal/hal/client.go on the one side,
    BlockHandler.java on the other. */
module ProtocolCode {
  import opened GoText
  import opened Codec
  import opened ByteSeq
  import opened Utf8
  import opened Protocol

  method CopyInto(buf: array<byte>, off: nat, part: Bytes)
    requires off + |part| <= buf.Length
    modifies buf
    ensures buf[..off + |part|] == old(buf[..off]) + part
  {
    for i := 0 to |part|
      invariant forall k | 0 <= k < off :: buf[k] == old(buf[k])
      invariant forall k | 0 <= k < i :: buf[off + k] == part[k]
    {
      buf[off + i] := part[i];
    }
  }

  // ----- the client encodes -----

  method PayloadSize(ws: seq<WireWrite>) returns (total: nat)
    ensures total == PartOff(WriteParts(ws), |ws|)
  {
    total := 4;
    for i := 0 to |ws|
      invariant total == PartOff(WriteParts(ws), i)
    {
      total := total + 12 + 1 + 4 + |ws[i].data|;
    }
  }

  method EncodeBatchWrite(ws: seq<WireWrite>) returns (payload: array<byte>)
    ensures payload[..] == Batch(WriteParts(ws))
  {
    ghost var parts := WriteParts(ws);
    var total := PayloadSize(ws);
    payload := new byte[total](_ => 0);
    CopyInto(payload, 0, Word(|ws|));
    var off := 4;
    for i := 0 to |ws|
      invariant off == PartOff(parts, i) <= PartOff(parts, |ws|) == payload.Length
      invariant payload[..off] == Word(|ws|) + Body(parts, i)
    {
      PartsGrow(parts, i + 1);
      off := EncodeWrite(payload, off, ws[i]);
      ConcatAssociative(Word(|ws|), Body(parts, i), parts[i]);
    }
    assert payload[..] == payload[..off];
  }

  lemma {:induction false} PartsGrow(parts: seq<Bytes>, k: nat)
    requires k <= |parts|
    ensures PartOff(parts, k) <= PartOff(parts, |parts|)
    decreases |parts| - k
  {
    if k < |parts| {
      PartsGrow(parts, k + 1);
    }
  }

  method EncodePos(payload: array<byte>, off: nat, x: int, y: int, z: int)
    requires off + 12 <= payload.Length
    modifies payload
    ensures payload[..off + 12] == old(payload[..off]) + Coordinates(x, y, z)
  {
    CopyInto(payload, off, Word(x));
    CopyInto(payload, off + 4, Word(y));
    CopyInto(payload, off + 8, Word(z));
  }

  method EncodeWrite(payload: array<byte>, off: nat, w: WireWrite) returns (off': nat)
    requires off + |WritePart(w)| <= payload.Length
    modifies payload
    ensures off' == off + |WritePart(w)| && payload[..off'] == old(payload[..off]) + WritePart(w)
  {
    EncodePos(payload, off, w.x, w.y, w.z);
    CopyInto(payload, off + 12, [w.kind]);
    CopyInto(payload, off + 13, Word(|w.data|));
    CopyInto(payload, off + 17, w.data);
    off' := off + 17 + |w.data|;
  }

  method EncodeBatchRead(ps: seq<WirePos>) returns (payload: array<byte>)
    ensures payload[..] == Batch(ReadParts(ps))
  {
    ghost var parts := ReadParts(ps);
    payload := new byte[4 + |ps| * 12](_ => 0);
    CopyInto(payload, 0, Word(|ps|));
    var off := 4;
    for i := 0 to |ps|
      invariant off == 4 + i * 12 == PartOff(parts, i)
      invariant payload[..off] == Word(|ps|) + Body(parts, i)
    {
      EncodePos(payload, off, ps[i].x, ps[i].y, ps[i].z);
      off := off + 12;
      assert payload[..off] == Word(|ps|) + Body(parts, i) + parts[i];
    }
  }

  method Send(op: byte, payload: Bytes) returns (buf: array<byte>)
    ensures buf[..] == Frame(op, payload)
  {
    var length := 1 + |payload|;
    buf := new byte[4 + length](_ => 0);
    CopyInto(buf, 0, Word(length));
    CopyInto(buf, 4, [op]);
    CopyInto(buf, 5, payload);
    assert buf[..] == Word(length) + [op] + payload;
  }

  // ----- the plugin decodes -----

  method DecodeBatchWrite(java: Java, payload: Bytes) returns (r: Option<seq<JavaWrite>>)
    ensures var d := JavaBatch(WriteReader(java), payload); r == if d.None? then None else Some(d.value.value)
  {
    var count := ReadJavaInt(payload, 0);
    if count.None? || count.value < 0 {
      return None;
    }
    var offset := 4;
    var writes: seq<JavaWrite> := [];
    for i := 0 to count.value
      invariant ParseMany(WriteReader(java), payload, i) == Some(Parsed(writes, offset))
    {
      var one := DecodeWrite(java, payload, offset);
      if one.None? {
        StopsForGood(WriteReader(java), payload, i + 1, count.value);
        return None;
      }
      writes, offset := writes + [one.value.value], one.value.off;
    }
    r := Some(writes);
  }

  /** Once an element cannot be read, neither can the batch. */
  lemma {:induction false} StopsForGood<T>(one: (Bytes, nat) -> Option<Parsed<T>>, buf: Bytes, k: nat, n: nat)
    requires k <= n && ParseMany(one, buf, k).None?
    ensures ParseMany(one, buf, n).None?
  {
    if k < n {
      StopsForGood(one, buf, k, n - 1);
    }
  }

  method DecodeWrite(java: Java, payload: Bytes, start: nat) returns (r: Option<Parsed<JavaWrite>>)
    ensures r == ParseWrite(java, payload, start)
  {
    var offset := start;
    var x := ReadJavaInt(payload, offset);
    var y := ReadJavaInt(payload, offset + 4);
    var z := ReadJavaInt(payload, offset + 8);
    offset := offset + 12;
    if x.None? || y.None? || z.None? || offset >= |payload| {
      return None;
    }
    var kind := payload[offset];
    offset := offset + 1;
    var n := ReadJavaInt(payload, offset);
    if n.None? || n.value < 0 || offset + 4 + n.value > |payload| {
      return None;
    }
    offset := offset + 4;
    var data := NewString(java, payload[offset..offset + n.value]);
    r := Some(Parsed(JavaWrite(x.value, y.value, z.value, kind, data), offset + n.value));
  }

  method DecodeBatchRead(payload: Bytes) returns (r: Option<seq<WirePos>>)
    ensures var d := JavaBatch(ParsePos, payload); r == if d.None? then None else Some(d.value.value)
  {
    var count := ReadJavaInt(payload, 0);
    if count.None? || count.value < 0 {
      return None;
    }
    var offset := 4;
    var ps: seq<WirePos> := [];
    for i := 0 to count.value
      invariant ParseMany(ParsePos, payload, i) == Some(Parsed(ps, offset))
    {
      var one := ParsePos(payload, offset);
      if one.None? {
        StopsForGood(ParsePos, payload, i + 1, count.value);
        return None;
      }
      ps, offset := ps + [one.value.value], offset + 12;
    }
    r := Some(ps);
  }

  /** writeBatchData: the strings are encoded and the packet's length added up before anything is
      written. */
  method WriteBatchData(results: seq<JString>) returns (out: Bytes)
    ensures out == Frame(OP_BATCH_DATA, Batch(DataParts(results)))
  {
    ghost var parts := DataParts(results);
    var packetLen, dataArrays := EncodeResults(results);
    out := Word(packetLen) + ([OP_BATCH_DATA] + Word(|results|));
    ghost var head := out;
    assert head + [] == head;
    for i := 0 to |dataArrays|
      invariant out == head + Body(parts, i)
    {
      out := WriteCounted(out, dataArrays[i]);
      ConcatAssociative(head, Body(parts, i), parts[i]);
    }
    ConcatAssociative(Word(packetLen), [OP_BATCH_DATA] + Word(|results|), Body(parts, |results|));
    ConcatAssociative([OP_BATCH_DATA], Word(|results|), Body(parts, |results|));
  }

  method EncodeResults(results: seq<JString>) returns (packetLen: nat, dataArrays: seq<Bytes>)
    ensures packetLen == 1 + PartOff(DataParts(results), |results|)
    ensures dataArrays == BytesOfAll(results)
  {
    packetLen, dataArrays := 5, [];
    for i := 0 to |results|
      invariant packetLen == 1 + PartOff(DataParts(results), i)
      invariant |dataArrays| == i && forall k | 0 <= k < i :: dataArrays[k] == GetBytes(results[k])
    {
      var data := GetBytes(results[i]);
      dataArrays := dataArrays + [data];
      packetLen := packetLen + 4 + |data|;
    }
  }

  method WriteCounted(out: Bytes, data: Bytes) returns (out': Bytes)
    ensures out' == out + Counted(data)
  {
    out' := out + Word(|data|);
    if |data| > 0 {
      out' := out' + data;
    }
    ConcatAssociative(out, Word(|data|), data);
  }

  // ----- the client decodes -----

  method ParseBatchDataResponse(payload: Bytes) returns (r: Option<seq<Bytes>>)
    ensures var d := GoBatch(ParseGoData, payload); r == if d.None? then None else Some(d.value.value)
  {
    if |payload| < 4 {
      return None;
    }
    var count := FromBigEndian(payload[0..4]);
    var results: seq<Bytes> := [];
    var offset := 4;
    for i := 0 to count
      invariant ParseMany(ParseGoData, payload, i) == Some(Parsed(results, offset))
    {
      var one := ReadEntry(payload, offset);
      if one.None? {
        StopsForGood(ParseGoData, payload, i + 1, count);
        return None;
      }
      results, offset := results + [one.value.value], one.value.off;
    }
    r := Some(results);
  }

  method ReadEntry(payload: Bytes, start: nat) returns (r: Option<Parsed<Bytes>>)
    ensures r == ParseGoData(payload, start)
  {
    var offset := start;
    if offset + 4 > |payload| {
      return None;
    }
    var dataLen := FromBigEndian(payload[offset..offset + 4]);
    offset := offset + 4;
    var data: Bytes := [];
    assert payload[offset..offset] == [];
    if dataLen > 0 {
      if offset + dataLen > |payload| {
        return None;
      }
      data := payload[offset..offset + dataLen];
      offset := offset + dataLen;
    }
    r := Some(Parsed(data, offset));
  }
}
