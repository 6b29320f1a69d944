/** The block store across the connection: the client's packets, served by the plugin's handlers, act
    on the world as the store of module World does, for data that the plugin can take and give back. */
module Remote {
  import opened GoText
  import opened World
  import opened Codec
  import opened ByteSeq
  import opened Utf8
  import opened Protocol
  import opened Plugin

  // ----- the client's requests -----

  predicate InWorld(p: Pos) {
    IsInt32(p.x) && IsInt32(p.y) && IsInt32(p.z)
  }

  /** The data of a write as the plugin receives it. */
  function Arrived(server: Server, w: BlockWrite): JString
    requires IsBytes(w.data)
  {
    NewString(server.java, BytesOf(w.data))
  }

  /** A write of bytes to a place where the server keeps them. */
  predicate Encodable(server: Server, w: BlockWrite) {
    InWorld(w.pos) && IsBytes(w.data) && server.holds(w.pos, Arrived(server, w))
  }

  /** Data the plugin can take and give back: well-formed UTF-8, and no banner that throws. */
  predicate Sendable(server: Server, w: BlockWrite, kind: byte)
    requires IsBytes(w.data)
  {
    WellFormed(BytesOf(w.data)) && Takes(server, kind, Arrived(server, w))
  }

  predicate AllEncodable(server: Server, writes: seq<BlockWrite>) {
    forall i | 0 <= i < |writes| :: Encodable(server, writes[i])
  }

  predicate AllSendable(server: Server, writes: seq<BlockWrite>, kinds: seq<byte>)
    requires |kinds| == |writes| && AllEncodable(server, writes)
  {
    forall i | 0 <= i < |writes| :: Sendable(server, writes[i], kinds[i])
  }

  function Wire(w: BlockWrite, kind: byte): WireWrite
    requires IsBytes(w.data)
  {
    WireWrite(w.pos.x, w.pos.y, w.pos.z, kind, BytesOf(w.data))
  }

  /** The writes as the client lists them, each with its block type. */
  function WireAll(server: Server, writes: seq<BlockWrite>, kinds: seq<byte>): (ws: seq<WireWrite>)
    requires |kinds| == |writes| && AllEncodable(server, writes)
    ensures |ws| == |writes|
  {
    seq(|writes|, i requires 0 <= i < |writes| => Wire(writes[i], kinds[i]))
  }

  function WirePosAll(ps: seq<Pos>): (r: seq<WirePos>)
    ensures |r| == |ps|
  {
    seq(|ps|, i requires 0 <= i < |ps| => WirePos(ps[i].x, ps[i].y, ps[i].z))
  }

  /** WriteBlock's packet, and BatchWrite's. */
  function WritePacket(w: BlockWrite, kind: byte): Bytes
    requires IsBytes(w.data)
  {
    Frame(OP_WRITE, WritePart(Wire(w, kind)))
  }

  function BatchWritePacket(server: Server, writes: seq<BlockWrite>, kinds: seq<byte>): Bytes
    requires |kinds| == |writes| && AllEncodable(server, writes)
  {
    Frame(OP_BATCH_WRITE, Batch(WriteParts(WireAll(server, writes, kinds))))
  }

  /** A packet whose length Java can read: an int, which does not count itself. */
  predicate Receivable(packet: Bytes) {
    |packet| <= 4 + INT_MAX
  }

  lemma {:induction false} Int32Stays(v: int)
    requires IsInt32(v)
    ensures Wrap32(v) == v
  {
  }

  lemma {:induction false} WholePacket(op: byte, payload: Bytes)
    requires Receivable(Frame(op, payload))
    ensures Unframe(Frame(op, payload), 0) == Some(Parsed(Packet(op, payload), |Frame(op, payload)|))
  {
    assert Frame(op, payload)[0..0 + |Frame(op, payload)|] == Frame(op, payload);
    FrameAt(Frame(op, payload), 0, op, payload);
  }

  // ----- one write -----

  /** A write as it arrives at the plugin. */
  lemma {:induction false} ReceivedIs(server: Server, w: BlockWrite, kind: byte)
    requires Encodable(server, w)
    ensures Received(server.java, Wire(w, kind)) == JavaWrite(w.pos.x, w.pos.y, w.pos.z, kind, Arrived(server, w))
  {
    Int32Stays(w.pos.x);
    Int32Stays(w.pos.y);
    Int32Stays(w.pos.z);
  }

  /** What a Java string gives back is the data it was made from exactly when that is well-formed. */
  lemma {:induction false} DataComesBack(server: Server, w: BlockWrite)
    requires IsBytes(w.data)
    ensures TextOf(GetBytes(Arrived(server, w))) == w.data <==> WellFormed(BytesOf(w.data))
  {
    var bs := BytesOf(w.data);
    ThroughString(server.java, bs);
    TextOfBytes(w.data);
    TextIsInjective(GetBytes(Arrived(server, w)), bs);
  }

  /** One placed block: ACK exactly when the handler takes the string, and then the client sees the data
      it sent exactly when that was well-formed UTF-8. */
  lemma {:induction false} PlacedData(server: Server, s: Served, w: BlockWrite, kind: byte)
    requires s.ok && Encodable(server, w)
    ensures var s' := Place(server, s, Received(server.java, Wire(w, kind)));
            && (s'.ok <==> Takes(server, kind, Arrived(server, w)))
            && (s'.ok ==> (Get(View(s'.world), w.pos) == w.data <==> WellFormed(BytesOf(w.data))))
            && (Sendable(server, w, kind) ==> View(s'.world) == Put(View(s.world), w.pos, w.data))
  {
    var data, s' := Arrived(server, w), Place(server, s, Received(server.java, Wire(w, kind)));
    ReceivedIs(server, w, kind);
    DataComesBack(server, w);
    if s'.ok {
      ViewAt(s'.world, w.pos);
      assert GetString(s'.world, w.pos) == data;
    }
    if Sendable(server, w, kind) {
      ViewPlaced(s.world, s'.world, w, data);
    }
  }

  lemma {:induction false} ViewPlaced(k: Kept, k': Kept, w: BlockWrite, data: JString)
    requires k' == if data == [] then k - {w.pos} else k[w.pos := data]
    requires TextOf(GetBytes(data)) == w.data
    ensures View(k') == Put(View(k), w.pos, w.data)
  {
    EncodingOfNothing(data);
  }

  /** One block written through the connection is acknowledged and comes back unchanged exactly when it
      is Sendable; what is not acknowledged is exactly what the handler does not take. */
  lemma {:induction false} RemoteBlockSurvives(server: Server, k: Kept, w: BlockWrite, kind: byte)
    requires Encodable(server, w) && Receivable(WritePacket(w, kind))
    ensures var r := ServeWrites(server, k, WritePacket(w, kind));
            && r.Some?
            && (r.value.ok <==> Takes(server, kind, Arrived(server, w)))
            && (r.value.ok && Get(View(r.value.world), w.pos) == w.data <==> Sendable(server, w, kind))
            && (Sendable(server, w, kind) ==> View(r.value.world) == Put(View(k), w.pos, w.data))
  {
    var part := WritePart(Wire(w, kind));
    WholePacket(OP_WRITE, part);
    assert part[0..0 + |part|] == part;
    WritePartAt(server.java, part, 0, Wire(w, kind));
    PlacedData(server, Served(k, true), w, kind);
  }

  // ----- a batch -----

  lemma {:induction false} PlacesFirst(server: Server, k: Kept, writes: seq<BlockWrite>, kinds: seq<byte>, n: nat,
                                       received: seq<JavaWrite>)
    requires n <= |writes| == |kinds| == |received| && AllEncodable(server, writes)
    requires forall i | 0 <= i < n :: Sendable(server, writes[i], kinds[i])
    requires forall i | 0 <= i < |writes| :: received[i] == Received(server.java, Wire(writes[i], kinds[i]))
    ensures var s := PlaceAll(server, k, received, n);
            s.ok && View(s.world) == PutAll(View(k), writes[..n])
  {
    if n > 0 {
      PlacesFirst(server, k, writes, kinds, n - 1, received);
      PlacesOneMore(server, PlaceAll(server, k, received, n - 1), View(k), writes, n - 1, kinds[n - 1]);
    }
  }

  lemma {:induction false} PlacesOneMore(server: Server, s: Served, before: Blocks, writes: seq<BlockWrite>, n: nat,
                                         kind: byte)
    requires n < |writes| && Encodable(server, writes[n]) && Sendable(server, writes[n], kind)
    requires s.ok && View(s.world) == PutAll(before, writes[..n])
    ensures var s' := Place(server, s, Received(server.java, Wire(writes[n], kind)));
            s'.ok && View(s'.world) == PutAll(before, writes[..n + 1])
  {
    assert writes[..n + 1] == writes[..n] + [writes[n]];
    PutAllAppend(before, writes[..n], writes[n]);
    PlacedData(server, s, writes[n], kind);
  }

  lemma {:induction false} BatchArrives(server: Server, k: Kept, writes: seq<BlockWrite>, kinds: seq<byte>,
                                        received: seq<JavaWrite>)
    requires |kinds| == |writes| && AllEncodable(server, writes)
    requires Receivable(BatchWritePacket(server, writes, kinds))
    requires received == ReceivedAll(server.java, WireAll(server, writes, kinds))
    ensures ServeWrites(server, k, BatchWritePacket(server, writes, kinds))
            == Some(PlaceAll(server, k, received, |writes|))
  {
    var ws := WireAll(server, writes, kinds);
    WholePacket(OP_BATCH_WRITE, Batch(WriteParts(ws)));
    BatchWriteRoundTrip(server.java, ws);
  }

  /** No two writes to one block. */
  predicate Apart(writes: seq<BlockWrite>) {
    forall i, j | 0 <= i < |writes| && 0 <= j < |writes| && writes[i].pos == writes[j].pos :: i == j
  }

  /** A batch that was acknowledged keeps, for each write, the string that arrived. */
  lemma {:induction false} KeptByBatch(server: Server, k: Kept, writes: seq<BlockWrite>, kinds: seq<byte>, n: nat,
                                       received: seq<JavaWrite>, i: nat)
    requires i < n <= |writes| == |kinds| == |received| && AllEncodable(server, writes) && Apart(writes)
    requires forall j | 0 <= j < |writes| :: received[j] == Received(server.java, Wire(writes[j], kinds[j]))
    requires PlaceAll(server, k, received, n).ok
    ensures Takes(server, kinds[i], Arrived(server, writes[i]))
    ensures GetString(PlaceAll(server, k, received, n).world, writes[i].pos) == Arrived(server, writes[i])
  {
    ReceivedIs(server, writes[n - 1], kinds[n - 1]);
    if i < n - 1 {
      KeptByBatch(server, k, writes, kinds, n - 1, received, i);
      assert writes[i].pos != writes[n - 1].pos;
    }
  }

  lemma {:induction false} PutAllHas(w: Blocks, writes: seq<BlockWrite>, n: nat, i: nat)
    requires i < n <= |writes| && Apart(writes)
    ensures Get(PutAll(w, writes[..n]), writes[i].pos) == writes[i].data
  {
    assert writes[..n] == writes[..n - 1] + [writes[n - 1]];
    PutAllAppend(w, writes[..n - 1], writes[n - 1]);
    if i < n - 1 {
      PutAllHas(w, writes, n - 1, i);
      assert writes[i].pos != writes[n - 1].pos;
    }
  }

  /** A BATCH_WRITE to different blocks is acknowledged and does to what the client sees of the world what
      the block store's BatchWrite does, exactly when every write is Sendable. */
  lemma {:induction false} RemoteBatchWrite(server: Server, k: Kept, writes: seq<BlockWrite>, kinds: seq<byte>)
    requires |kinds| == |writes| && AllEncodable(server, writes) && Apart(writes)
    requires Receivable(BatchWritePacket(server, writes, kinds))
    ensures var r := ServeWrites(server, k, BatchWritePacket(server, writes, kinds));
            && r.Some?
            && (r.value.ok && View(r.value.world) == PutAll(View(k), writes) <==> AllSendable(server, writes, kinds))
  {
    var received := ReceivedAll(server.java, WireAll(server, writes, kinds));
    BatchArrives(server, k, writes, kinds, received);
    assert writes[..|writes|] == writes;
    if AllSendable(server, writes, kinds) {
      PlacesFirst(server, k, writes, kinds, |writes|, received);
    } else {
      var i :| 0 <= i < |writes| && !Sendable(server, writes[i], kinds[i]);
      BatchFails(server, k, writes, kinds, received, i);
    }
  }

  lemma {:induction false} BatchFails(server: Server, k: Kept, writes: seq<BlockWrite>, kinds: seq<byte>,
                                      received: seq<JavaWrite>, i: nat)
    requires i < |writes| == |kinds| == |received| && AllEncodable(server, writes) && Apart(writes)
    requires forall j | 0 <= j < |writes| :: received[j] == Received(server.java, Wire(writes[j], kinds[j]))
    requires !Sendable(server, writes[i], kinds[i])
    ensures var s := PlaceAll(server, k, received, |writes|);
            !(s.ok && View(s.world) == PutAll(View(k), writes))
  {
    var s := PlaceAll(server, k, received, |writes|);
    if s.ok {
      KeptByBatch(server, k, writes, kinds, |writes|, received, i);
      ViewAt(s.world, writes[i].pos);
      DataComesBack(server, writes[i]);
      PutAllHas(View(k), writes, |writes|, i);
      assert writes[..|writes|] == writes;
    }
  }

  lemma {:induction false} NothingMore(server: Server, k: Kept, ws: seq<JavaWrite>, m: nat, n: nat)
    requires m <= n <= |ws| && !PlaceAll(server, k, ws, m).ok
    ensures PlaceAll(server, k, ws, n) == PlaceAll(server, k, ws, m)
    decreases n
  {
    if m < n {
      NothingMore(server, k, ws, m, n - 1);
    }
  }

  /** A write the handler does not take: its block is left as it was, or empty if it has turned into a
      banner that keeps nothing; every other block is as before. */
  lemma {:induction false} Refused(server: Server, s: Served, w: BlockWrite, kind: byte)
    requires s.ok && Encodable(server, w) && !Takes(server, kind, Arrived(server, w))
    ensures var s' := Place(server, s, Received(server.java, Wire(w, kind)));
            && !s'.ok && (forall p | p != w.pos :: Get(View(s'.world), p) == Get(View(s.world), p))
            && Get(View(s'.world), w.pos)
               == if kind > LECTERN || server.keeps(w.pos) then Get(View(s.world), w.pos) else ""
  {
    ReceivedIs(server, w, kind);
    var s' := Place(server, s, Received(server.java, Wire(w, kind)));
    forall p ensures Get(View(s'.world), p) == TextOf(GetBytes(GetString(s'.world, p))) {
      ViewAt(s'.world, p);
    }
    forall p ensures Get(View(s.world), p) == TextOf(GetBytes(GetString(s.world, p))) {
      ViewAt(s.world, p);
    }
    EncodingOfNothing([]);
  }

  /** A batch stops at the first write the handler does not take: those before it are placed, those behind
      it are not, and the answer is ERROR. */
  lemma {:induction false} BatchStops(server: Server, k: Kept, writes: seq<BlockWrite>, kinds: seq<byte>, i: nat)
    requires |kinds| == |writes| && AllEncodable(server, writes) && i < |writes|
    requires Receivable(BatchWritePacket(server, writes, kinds))
    requires forall j | 0 <= j < i :: Sendable(server, writes[j], kinds[j])
    requires !Takes(server, kinds[i], Arrived(server, writes[i]))
    ensures var r, pos := ServeWrites(server, k, BatchWritePacket(server, writes, kinds)), writes[i].pos;
            var before := PutAll(View(k), writes[..i]);
            && r.Some? && !r.value.ok
            && (forall p | p != pos :: Get(View(r.value.world), p) == Get(before, p))
            && Get(View(r.value.world), pos) == if kinds[i] > LECTERN || server.keeps(pos) then Get(before, pos) else ""
  {
    var received := ReceivedAll(server.java, WireAll(server, writes, kinds));
    BatchArrives(server, k, writes, kinds, received);
    StopsIn(server, k, writes, kinds, i, i + 1, received);
  }

  lemma {:induction false} StopsIn(server: Server, k: Kept, writes: seq<BlockWrite>, kinds: seq<byte>, i: nat, n: nat,
                                   received: seq<JavaWrite>)
    requires |kinds| == |writes| == |received| && AllEncodable(server, writes) && n == i + 1 && i < |writes|
    requires forall j | 0 <= j < i :: Sendable(server, writes[j], kinds[j])
    requires forall j | 0 <= j < |writes| :: received[j] == Received(server.java, Wire(writes[j], kinds[j]))
    requires !Takes(server, kinds[i], Arrived(server, writes[i]))
    ensures var s, pos := PlaceAll(server, k, received, |writes|), writes[i].pos;
            var before := PutAll(View(k), writes[..i]);
            && !s.ok && (forall p | p != pos :: Get(View(s.world), p) == Get(before, p))
            && Get(View(s.world), pos) == if kinds[i] > LECTERN || server.keeps(pos) then Get(before, pos) else ""
  {
    PlacesFirst(server, k, writes, kinds, i, received);
    Refused(server, PlaceAll(server, k, received, i), writes[i], kinds[i]);
    NothingMore(server, k, received, n, |writes|);
  }

  // ----- reading -----

  /** What the client makes of the answer to a READ or a BATCH_READ. */
  function ClientReads(packet: Bytes): (r: Option<seq<Bytes>>) {
    var p := Unframe(packet, 0);
    if p.None? then None
    else if p.value.value.op == OP_DATA then
      var d := ParseGoData(p.value.value.payload, 0);
      if d.None? then None else Some([d.value.value])
    else if p.value.value.op == OP_BATCH_DATA then
      var d := GoBatch(ParseGoData, p.value.value.payload);
      if d.None? then None else Some(d.value.value)
    else None
  }

  /** A READ and its answer bring the client what it sees at the position. */
  lemma {:induction false} RemoteRead(k: Kept, p: Pos)
    requires InWorld(p) && Receivable(Frame(OP_DATA, Counted(GetBytes(GetString(k, p)))))
    ensures var answer := ServeReads(k, Frame(OP_READ, Coordinates(p.x, p.y, p.z)));
            && answer.Some?
            && var results := ClientReads(answer.value);
               results.Some? && |results.value| == 1 && TextOf(results.value[0]) == Get(View(k), p)
  {
    var asked, bs := Coordinates(p.x, p.y, p.z), GetBytes(GetString(k, p));
    WholePacket(OP_READ, asked);
    assert asked[0..0 + |asked|] == asked;
    CoordinatesAt(asked, 0, p.x, p.y, p.z);
    Int32Stays(p.x);
    Int32Stays(p.y);
    Int32Stays(p.z);
    WholePacket(OP_DATA, Counted(bs));
    assert Counted(bs)[0..0 + |Counted(bs)|] == Counted(bs);
    CountedAt(Counted(bs), 0, bs);
    ViewAt(k, p);
  }

  /** A BATCH_READ and its answer bring the client exactly what it would see at the positions asked for. */
  lemma {:induction false} RemoteBatchRead(k: Kept, ps: seq<Pos>)
    requires forall i | 0 <= i < |ps| :: InWorld(ps[i])
    requires Receivable(Frame(OP_BATCH_READ, Batch(ReadParts(WirePosAll(ps)))))
    requires Receivable(Frame(OP_BATCH_DATA, Batch(DataParts(Lookups(k, WirePosAll(ps))))))
    ensures var answer := ServeReads(k, Frame(OP_BATCH_READ, Batch(ReadParts(WirePosAll(ps)))));
            && answer.Some?
            && var results := ClientReads(answer.value);
               && results.Some? && |results.value| == |ps|
               && forall i | 0 <= i < |ps| :: TextOf(results.value[i]) == Get(View(k), ps[i])
  {
    var wps := WirePosAll(ps);
    WholePacket(OP_BATCH_READ, Batch(ReadParts(wps)));
    BatchReadRoundTrip(wps);
    PositionsStay(wps);
    var results := Lookups(k, wps);
    WholePacket(OP_BATCH_DATA, Batch(DataParts(results)));
    BatchDataRoundTrip(results);
    forall i | 0 <= i < |ps| ensures TextOf(BytesOfAll(results)[i]) == Get(View(k), ps[i]) {
      ViewAt(k, ps[i]);
    }
  }

  lemma {:induction false} PositionsStay(ps: seq<WirePos>)
    requires forall i | 0 <= i < |ps| :: IsInt32(ps[i].x) && IsInt32(ps[i].y) && IsInt32(ps[i].z)
    ensures seq(|ps|, i requires 0 <= i < |ps| => NarrowedPos(ps[i])) == ps
  {
    forall i | 0 <= i < |ps| ensures NarrowedPos(ps[i]) == ps[i] {
      Int32Stays(ps[i].x);
      Int32Stays(ps[i].y);
      Int32Stays(ps[i].z);
    }
  }
}
