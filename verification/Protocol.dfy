/** The binary protocol between the Go client and the Java plugin: what internal/hal/client.go encodes,
    BlockHandler.java decodes, and back. */
module Protocol {
  import opened GoText
  import opened Codec
  import opened ByteSeq
  import opened Utf8

  const INT_MAX := 0x7FFF_FFFF
  const OP_WRITE: byte := 0x01
  const OP_READ: byte := 0x02
  const OP_BATCH_READ: byte := 0x03
  const OP_BATCH_WRITE: byte := 0x06
  const OP_DATA: byte := 0x11
  const OP_BATCH_DATA: byte := 0x12

  /** A write as the client sends it, and as the plugin receives it: with its data as a string. */
  datatype WireWrite = WireWrite(x: int, y: int, z: int, kind: byte, data: Bytes)
  datatype JavaWrite = JavaWrite(x: int, y: int, z: int, kind: byte, data: JString)
  datatype WirePos = WirePos(x: int, y: int, z: int)

  // ----- what is sent -----

  /** Four bytes, big-endian, of the value modulo 2^32. */
  function Word(v: int): (bs: Bytes)
    ensures |bs| == 4
  {
    BigEndian(v % TWO_32, 4)
  }

  /** A batch is a count and then one part per element. */
  function Batch(parts: seq<Bytes>): Bytes {
    Word(|parts|) + Body(parts, |parts|)
  }

  function Coordinates(x: int, y: int, z: int): (bs: Bytes)
    ensures |bs| == 12
  {
    Word(x) + (Word(y) + Word(z))
  }

  function Counted(data: Bytes): (bs: Bytes)
    ensures |bs| == 4 + |data|
  {
    Word(|data|) + data
  }

  function WritePart(w: WireWrite): (bs: Bytes)
    ensures |bs| == 17 + |w.data|
  {
    Coordinates(w.x, w.y, w.z) + ([w.kind] + Counted(w.data))
  }

  function WriteParts(ws: seq<WireWrite>): (parts: seq<Bytes>)
    ensures |parts| == |ws|
  {
    seq(|ws|, i requires 0 <= i < |ws| => WritePart(ws[i]))
  }

  function ReadParts(ps: seq<WirePos>): (parts: seq<Bytes>)
    ensures |parts| == |ps|
  {
    seq(|ps|, i requires 0 <= i < |ps| => Coordinates(ps[i].x, ps[i].y, ps[i].z))
  }

  /** What the plugin answers: its strings, encoded. */
  function DataParts(results: seq<JString>): (parts: seq<Bytes>)
    ensures |parts| == |results|
  {
    seq(|results|, i requires 0 <= i < |results| => Counted(GetBytes(results[i])))
  }

  function Frame(op: byte, payload: Bytes): Bytes {
    Word(1 + |payload|) + ([op] + payload)
  }

  // ----- what is read: None stands for the exception or error of a malformed packet -----

  function ReadUint32(buf: Bytes, off: nat): (r: Option<nat>) {
    if off + 4 <= |buf| then Some(FromBigEndian(buf[off..off + 4])) else None
  }

  function ReadJavaInt(buf: Bytes, off: nat): (r: Option<int>) {
    var u := ReadUint32(buf, off);
    if u.None? then None else Some(Signed(u.value, TWO_32))
  }

  /** An element read at an offset, and the offset behind it. */
  datatype Parsed<T> = Parsed(value: T, off: nat)

  function ParsePos(buf: Bytes, off: nat): (r: Option<Parsed<WirePos>>) {
    var x, y, z := ReadJavaInt(buf, off), ReadJavaInt(buf, off + 4), ReadJavaInt(buf, off + 8);
    if x.None? || y.None? || z.None? then None else Some(Parsed(WirePos(x.value, y.value, z.value), off + 12))
  }

  /** Java reads lengths as ints, so a length from 2^31 on is negative and throws. */
  function ParseJavaData(buf: Bytes, off: nat): (r: Option<Parsed<Bytes>>) {
    var n := ReadJavaInt(buf, off);
    if n.None? || n.value < 0 || off + 4 + n.value > |buf| then None
    else Some(Parsed(buf[off + 4..off + 4 + n.value], off + 4 + n.value))
  }

  function ParseWrite(java: Java, buf: Bytes, off: nat): (r: Option<Parsed<JavaWrite>>) {
    var p := ParsePos(buf, off);
    if p.None? || off + 12 >= |buf| then None
    else
      var d := ParseJavaData(buf, off + 13);
      if d.None? then None
      else
        var pos := p.value.value;
        Some(Parsed(JavaWrite(pos.x, pos.y, pos.z, buf[off + 12], NewString(java, d.value.value)), d.value.off))
  }

  function WriteReader(java: Java): (Bytes, nat) -> Option<Parsed<JavaWrite>> {
    (buf: Bytes, off: nat) => ParseWrite(java, buf, off)
  }

  /** Go reads lengths unsigned. */
  function ParseGoData(buf: Bytes, off: nat): (r: Option<Parsed<Bytes>>) {
    var n := ReadUint32(buf, off);
    if n.None? || off + 4 + n.value > |buf| then None
    else Some(Parsed(buf[off + 4..off + 4 + n.value], off + 4 + n.value))
  }

  /** The loop over a batch: the first n elements, and the offset behind them. */
  function ParseMany<T>(one: (Bytes, nat) -> Option<Parsed<T>>, buf: Bytes, n: nat): (r: Option<Parsed<seq<T>>>)
    ensures r.Some? ==> |r.value.value| == n
  {
    if n == 0 then Some(Parsed([], 4))
    else
      var before := ParseMany(one, buf, n - 1);
      if before.None? then None
      else
        var next := one(buf, before.value.off);
        if next.None? then None else Some(Parsed(before.value.value + [next.value.value], next.value.off))
  }

  function JavaBatch<T>(one: (Bytes, nat) -> Option<Parsed<T>>, buf: Bytes): (r: Option<Parsed<seq<T>>>) {
    var count := ReadJavaInt(buf, 0);
    if count.None? || count.value < 0 then None else ParseMany(one, buf, count.value)
  }

  function GoBatch<T>(one: (Bytes, nat) -> Option<Parsed<T>>, buf: Bytes): (r: Option<Parsed<seq<T>>>) {
    var count := ReadUint32(buf, 0);
    if count.None? then None else ParseMany(one, buf, count.value)
  }

  datatype Packet = Packet(op: byte, payload: Bytes)

  /** One packet off the connection: Java's handleClient and Go's recv agree on lengths below 2^31. */
  function Unframe(buf: Bytes, off: nat): (r: Option<Parsed<Packet>>) {
    var n := ReadJavaInt(buf, off);
    if n.None? || n.value < 1 || off + 4 + n.value > |buf| then None
    else Some(Parsed(Packet(buf[off + 4], buf[off + 5..off + 4 + n.value]), off + 4 + n.value))
  }

  // ----- reading undoes writing -----

  lemma {:induction false} WordAt(buf: Bytes, off: nat, v: int)
    requires HasAt(buf, off, Word(v))
    ensures ReadUint32(buf, off) == Some(v % TWO_32)
    ensures ReadJavaInt(buf, off) == Some(Wrap32(v))
  {
    Widths();
    BigEndianInverse(v % TWO_32, 4);
  }

  lemma {:induction false} SmallWord(v: int)
    requires 0 <= v <= INT_MAX
    ensures v % TWO_32 == v && Wrap32(v) == v
  {
  }

  lemma {:induction false} CoordinatesAt(buf: Bytes, off: nat, x: int, y: int, z: int)
    requires HasAt(buf, off, Coordinates(x, y, z))
    ensures ParsePos(buf, off) == Some(Parsed(WirePos(Wrap32(x), Wrap32(y), Wrap32(z)), off + 12))
  {
    HasSplit(buf, off, Word(x), Word(y) + Word(z));
    HasSplit(buf, off + 4, Word(y), Word(z));
    WordAt(buf, off, x);
    WordAt(buf, off + 4, y);
    WordAt(buf, off + 8, z);
  }

  lemma {:induction false} CountedAt(buf: Bytes, off: nat, data: Bytes)
    requires HasAt(buf, off, Counted(data)) && |data| <= INT_MAX
    ensures ParseJavaData(buf, off) == Some(Parsed(data, off + 4 + |data|))
    ensures ParseGoData(buf, off) == Some(Parsed(data, off + 4 + |data|))
  {
    HasSplit(buf, off, Word(|data|), data);
    WordAt(buf, off, |data|);
    SmallWord(|data|);
  }

  /** A write as it arrives: coordinates as Go's int32 conversion leaves them, data as a Java string. */
  function Received(java: Java, w: WireWrite): JavaWrite {
    JavaWrite(Wrap32(w.x), Wrap32(w.y), Wrap32(w.z), w.kind, NewString(java, w.data))
  }

  function NarrowedPos(p: WirePos): WirePos {
    WirePos(Wrap32(p.x), Wrap32(p.y), Wrap32(p.z))
  }

  lemma {:induction false} WritePartAt(java: Java, buf: Bytes, off: nat, w: WireWrite)
    requires HasAt(buf, off, WritePart(w)) && |w.data| <= INT_MAX
    ensures ParseWrite(java, buf, off) == Some(Parsed(Received(java, w), off + |WritePart(w)|))
  {
    HasSplit(buf, off, Coordinates(w.x, w.y, w.z), [w.kind] + Counted(w.data));
    HasSplit(buf, off + 12, [w.kind], Counted(w.data));
    CoordinatesAt(buf, off, w.x, w.y, w.z);
    CountedAt(buf, off + 13, w.data);
    assert buf[off + 12..off + 13][0] == w.kind;
  }

  // ----- batches -----

  lemma {:induction false} PartAt(parts: seq<Bytes>, k: nat)
    requires k < |parts|
    ensures HasAt(Batch(parts), 4 + |Body(parts, k)|, parts[k])
  {
    BodyPrefix(parts, k, |parts|);
    HasBehind(Word(|parts|), Body(parts, |parts|), |Body(parts, k)|, parts[k]);
  }

  lemma {:induction false} CountAt(parts: seq<Bytes>)
    requires |parts| <= INT_MAX
    ensures ReadUint32(Batch(parts), 0) == Some(|parts|) && ReadJavaInt(Batch(parts), 0) == Some(|parts|)
  {
    assert Batch(parts)[0..4] == Word(|parts|);
    WordAt(Batch(parts), 0, |parts|);
    SmallWord(|parts|);
  }

  /** Where part k of a batch starts. */
  function PartOff(parts: seq<Bytes>, k: nat): nat
    requires k <= |parts|
  {
    4 + |Body(parts, k)|
  }

  /** Part k of the batch reads as this value, and the reader then stands at part k + 1. */
  predicate ReadsAs<T(==)>(one: (Bytes, nat) -> Option<Parsed<T>>, buf: Bytes, parts: seq<Bytes>, k: nat, value: T)
    requires k < |parts|
  {
    one(buf, PartOff(parts, k)) == Some(Parsed(value, PartOff(parts, k + 1)))
  }

  lemma {:induction false} ReadsOn<T>(one: (Bytes, nat) -> Option<Parsed<T>>, buf: Bytes, parts: seq<Bytes>, k: nat,
                                      value: T, off': nat)
    requires k < |parts| && one(buf, PartOff(parts, k)) == Some(Parsed(value, off'))
    requires off' == PartOff(parts, k) + |parts[k]|
    ensures ReadsAs(one, buf, parts, k, value)
  {
    assert off' == PartOff(parts, k + 1);
  }

  /** If each part reads as its element where it stands, the loop reads all of them and ends behind
      the last. */
  lemma {:induction false} ReadsAll<T>(one: (Bytes, nat) -> Option<Parsed<T>>, buf: Bytes, parts: seq<Bytes>,
                                       values: seq<T>, n: nat)
    requires n <= |parts| == |values|
    requires forall k | 0 <= k < |parts| :: ReadsAs(one, buf, parts, k, values[k])
    ensures ParseMany(one, buf, n) == Some(Parsed(values[..n], PartOff(parts, n)))
  {
    var read := (k: nat) => k <= |parts| ==> ParseMany(one, buf, k) == Some(Parsed(values[..k], PartOff(parts, k)));
    forall k: nat | k < |parts| ensures Carries(read, k) {
      if read(k) {
        assert ReadsAs(one, buf, parts, k, values[k]);
        ParsesOneMore(one, buf, values, k, PartOff(parts, k), PartOff(parts, k + 1));
      }
    }
    CountUp(read, n);
  }

  lemma {:induction false} ParsesOneMore<T>(one: (Bytes, nat) -> Option<Parsed<T>>, buf: Bytes, values: seq<T>, n: nat,
                                            off: nat, off': nat)
    requires n < |values| && ParseMany(one, buf, n) == Some(Parsed(values[..n], off))
    requires one(buf, off) == Some(Parsed(values[n], off'))
    ensures ParseMany(one, buf, n + 1) == Some(Parsed(values[..n + 1], off'))
  {
    assert values[..n + 1] == values[..n] + [values[n]];
  }

  lemma {:induction false} CountBound(parts: seq<Bytes>, n: nat)
    requires n <= |parts| && forall k | 0 <= k < |parts| :: |parts[k]| >= 1
    ensures n <= |Body(parts, n)|
  {
    if n > 0 {
      CountBound(parts, n - 1);
    }
  }

  /** Both readers take a batch apart into its elements and end where it ends. */
  lemma {:induction false} BatchReads<T>(one: (Bytes, nat) -> Option<Parsed<T>>, parts: seq<Bytes>, values: seq<T>)
    requires |parts| == |values| && |Batch(parts)| <= INT_MAX && forall k | 0 <= k < |parts| :: |parts[k]| >= 1
    requires forall k | 0 <= k < |parts| :: ReadsAs(one, Batch(parts), parts, k, values[k])
    ensures JavaBatch(one, Batch(parts)) == GoBatch(one, Batch(parts)) == Some(Parsed(values, |Batch(parts)|))
  {
    CountBound(parts, |parts|);
    CountAt(parts);
    ReadsAll(one, Batch(parts), parts, values, |parts|);
    assert values[..|parts|] == values;
  }

  lemma {:induction false} PartFits(parts: seq<Bytes>, k: nat)
    requires k < |parts| && |Batch(parts)| <= INT_MAX
    ensures |parts[k]| <= INT_MAX && HasAt(Batch(parts), PartOff(parts, k), parts[k])
  {
    BodyPrefix(parts, k, |parts|);
    PartAt(parts, k);
  }

  function ReceivedAll(java: Java, ws: seq<WireWrite>): (r: seq<JavaWrite>)
    ensures |r| == |ws|
  {
    seq(|ws|, i requires 0 <= i < |ws| => Received(java, ws[i]))
  }

  /** BATCH_WRITE: the plugin recovers the client's list, coordinates narrowed to int32 and data as
      strings, and consumes the whole payload; a string gives its data back exactly when that was
      well-formed UTF-8. */
  lemma {:induction false} BatchWriteRoundTrip(java: Java, ws: seq<WireWrite>)
    requires |Batch(WriteParts(ws))| <= INT_MAX
    ensures JavaBatch(WriteReader(java), Batch(WriteParts(ws)))
            == Some(Parsed(ReceivedAll(java, ws), |Batch(WriteParts(ws))|))
    ensures forall i | 0 <= i < |ws| ::
              GetBytes(ReceivedAll(java, ws)[i].data) == ws[i].data <==> WellFormed(ws[i].data)
  {
    var parts, received := WriteParts(ws), ReceivedAll(java, ws);
    forall k | 0 <= k < |parts| ensures ReadsAs(WriteReader(java), Batch(parts), parts, k, received[k]) {
      PartFits(parts, k);
      WritePartAt(java, Batch(parts), PartOff(parts, k), ws[k]);
      ReadsOn(WriteReader(java), Batch(parts), parts, k, Received(java, ws[k]), PartOff(parts, k) + |parts[k]|);
    }
    BatchReads(WriteReader(java), parts, received);
    forall i | 0 <= i < |ws| ensures GetBytes(received[i].data) == ws[i].data <==> WellFormed(ws[i].data) {
      ThroughString(java, ws[i].data);
    }
  }

  /** BATCH_READ: the plugin recovers the positions asked for. */
  lemma {:induction false} BatchReadRoundTrip(ps: seq<WirePos>)
    requires |Batch(ReadParts(ps))| <= INT_MAX
    ensures JavaBatch(ParsePos, Batch(ReadParts(ps)))
            == Some(Parsed(seq(|ps|, i requires 0 <= i < |ps| => NarrowedPos(ps[i])), |Batch(ReadParts(ps))|))
  {
    var parts, narrowed := ReadParts(ps), seq(|ps|, i requires 0 <= i < |ps| => NarrowedPos(ps[i]));
    forall k | 0 <= k < |parts| ensures ReadsAs(ParsePos, Batch(parts), parts, k, narrowed[k]) {
      PartFits(parts, k);
      CoordinatesAt(Batch(parts), PartOff(parts, k), ps[k].x, ps[k].y, ps[k].z);
      ReadsOn(ParsePos, Batch(parts), parts, k, narrowed[k], PartOff(parts, k) + |parts[k]|);
    }
    BatchReads(ParsePos, parts, narrowed);
  }

  function BytesOfAll(results: seq<JString>): (r: seq<Bytes>)
    ensures |r| == |results|
  {
    seq(|results|, i requires 0 <= i < |results| => GetBytes(results[i]))
  }

  /** BATCH_DATA: the client parses the plugin's answer to the bytes of its strings, empty standing for
      nil, and consumes the whole payload. */
  lemma {:induction false} BatchDataRoundTrip(results: seq<JString>)
    requires |Batch(DataParts(results))| <= INT_MAX
    ensures GoBatch(ParseGoData, Batch(DataParts(results)))
            == Some(Parsed(BytesOfAll(results), |Batch(DataParts(results))|))
  {
    var parts, bytes := DataParts(results), BytesOfAll(results);
    forall k | 0 <= k < |parts| ensures ReadsAs(ParseGoData, Batch(parts), parts, k, bytes[k]) {
      PartFits(parts, k);
      CountedAt(Batch(parts), PartOff(parts, k), bytes[k]);
      ReadsOn(ParseGoData, Batch(parts), parts, k, bytes[k], PartOff(parts, k) + |parts[k]|);
    }
    BatchReads(ParseGoData, parts, bytes);
  }

  // ----- packets on the connection -----

  function Frames(ps: seq<Packet>, n: nat): (bs: Bytes)
    requires n <= |ps|
  {
    if n == 0 then [] else Frames(ps, n - 1) + Frame(ps[n - 1].op, ps[n - 1].payload)
  }

  /** A packet written anywhere in the stream is cut out exactly, whatever follows it. */
  lemma {:induction false} FrameAt(buf: Bytes, off: nat, op: byte, payload: Bytes)
    requires HasAt(buf, off, Frame(op, payload)) && 1 + |payload| <= INT_MAX
    ensures Unframe(buf, off) == Some(Parsed(Packet(op, payload), off + |Frame(op, payload)|))
  {
    HasSplit(buf, off, Word(1 + |payload|), [op] + payload);
    HasSplit(buf, off + 4, [op], payload);
    WordAt(buf, off, 1 + |payload|);
    SmallWord(1 + |payload|);
    assert buf[off + 4..off + 5][0] == op;
  }

  /** A stream of packets is cut back into those packets: the k-th read starts where the k-th packet does. */
  lemma {:induction false} StreamIsCutRight(ps: seq<Packet>, rest: Bytes, k: nat)
    requires k < |ps| && 1 + |ps[k].payload| <= INT_MAX
    ensures Unframe(Frames(ps, |ps|) + rest, |Frames(ps, k)|) == Some(Parsed(ps[k], |Frames(ps, k + 1)|))
  {
    FramesHave(ps, k, |ps|);
    HasInPrefix(Frames(ps, |ps|), rest, |Frames(ps, k)|, Frame(ps[k].op, ps[k].payload));
    FramesNext(ps, k);
    CutsTo(Frames(ps, |ps|) + rest, |Frames(ps, k)|, ps[k], |Frames(ps, k + 1)|);
  }

  lemma {:induction false} CutsTo(buf: Bytes, off: nat, p: Packet, off': nat)
    requires HasAt(buf, off, Frame(p.op, p.payload)) && 1 + |p.payload| <= INT_MAX
    requires off' == off + |Frame(p.op, p.payload)|
    ensures Unframe(buf, off) == Some(Parsed(p, off'))
  {
    FrameAt(buf, off, p.op, p.payload);
  }

  lemma {:induction false} FramesNext(ps: seq<Packet>, k: nat)
    requires k < |ps|
    ensures |Frames(ps, k)| + |Frame(ps[k].op, ps[k].payload)| == |Frames(ps, k + 1)|
  {
  }

  lemma {:induction false} FramesHave(ps: seq<Packet>, k: nat, n: nat)
    requires k < n <= |ps|
    ensures HasAt(Frames(ps, n), |Frames(ps, k)|, Frame(ps[k].op, ps[k].payload))
  {
    if k < n - 1 {
      FramesHave(ps, k, n - 1);
      HasInPrefix(Frames(ps, n - 1), Frame(ps[n - 1].op, ps[n - 1].payload), |Frames(ps, k)|,
                  Frame(ps[k].op, ps[k].payload));
    } else {
      HasBehind(Frames(ps, k), Frame(ps[k].op, ps[k].payload), 0, Frame(ps[k].op, ps[k].payload));
    }
  }
}
