/** What the plugin keeps, and what its handlers do with the packets they are given: BlockHandler.java. */
module Plugin {
  import opened GoText
  import opened World
  import opened Codec
  import opened ByteSeq
  import opened Utf8
  import opened Protocol

  const BARREL: byte := 0x00
  const BANNER: byte := 0x01
  const SIGN: byte := 0x02
  const LECTERN: byte := 0x03

  /** The Minecraft server: its Java runtime, which UTF-16 units beyond ASCII that takes for hex digits,
      whether a block keeps its string when it turns into a banner, and where it keeps which strings. */
  datatype Server = Server(java: Java, hex: nat -> bool, keeps: Pos -> bool, holds: (Pos, JString) -> bool)

  // ----- banner patterns -----

  /** The UTF-16 units of a scalar: two surrogates beyond the first 2^16. */
  function UnitsOf(c: Scalar): (units: seq<nat>)
    ensures |units| >= 1
  {
    var n: nat := c;
    if n < 0x10000 then [n] else [0xD7C0 + n / 1024, 0xDC00 + n % 1024]
  }

  function Units(s: JString): (units: seq<nat>)
    ensures |units| >= |s|
  {
    var n := |s|;
    if n == 0 then [] else Units(s[..n - 1]) + UnitsOf(s[n - 1])
  }

  /** Character.digit(unit, 16) >= 0; surrogates are no digits. */
  predicate IsHexDigit(server: Server, unit: nat) {
    if unit < 0x80 then
      '0' as int <= unit <= '9' as int || 'A' as int <= unit <= 'F' as int || 'a' as int <= unit <= 'f' as int
    else !(0xD800 <= unit <= 0xDFFF) && server.hex(unit)
  }

  /** Integer.parseInt takes two units as a hex number, which may have a sign. */
  predicate Parses(server: Server, a: nat, b: nat) {
    (a == '+' as int || a == '-' as int || IsHexDigit(server, a)) && IsHexDigit(server, b)
  }

  /** Only a string of twelve units is taken for patterns, and then all six pairs must parse. */
  predicate Paints(server: Server, s: JString) {
    var units := Units(s);
    |units| == 12 ==> forall i | 0 <= i < 6 :: Parses(server, units[2 * i], units[2 * i + 1])
  }

  // ----- the world -----

  /** A string kept with each block. */
  type Kept = map<Pos, JString>

  function GetString(k: Kept, p: Pos): JString {
    if p in k then k[p] else []
  }

  /** What the client would read of it, block by block. */
  function View(k: Kept): Blocks {
    map p | p in k && k[p] != [] :: TextOf(GetBytes(k[p]))
  }

  lemma {:induction false} EncodingOfNothing(s: JString)
    ensures GetBytes(s) == [] <==> s == []
  {
    if s != [] {
      BodyPrefix(Parts(s), 0, |s|);
    }
  }

  lemma {:induction false} ViewAt(k: Kept, p: Pos)
    ensures Get(View(k), p) == TextOf(GetBytes(GetString(k, p)))
  {
    EncodingOfNothing(GetString(k, p));
  }

  // ----- the handlers -----

  /** The world after a handler, and whether it answered ACK. */
  datatype Served = Served(world: Kept, ok: bool)

  function At(w: JavaWrite): Pos {
    Pos(w.x, w.y, w.z)
  }

  /** The handler gets this string placed: an unknown block type throws, and so does a banner whose
      patterns do not parse. */
  predicate Takes(server: Server, kind: byte, data: JString) {
    data == [] || (kind <= LECTERN && (kind == BANNER ==> Paints(server, data)))
  }

  /** One turn of handleBatchWrite's loop, or all of handleWrite. No data is air. A block that throws has
      turned into a banner, unless its type was unknown, and the blocks behind it are not placed. */
  function Place(server: Server, s: Served, w: JavaWrite): Served {
    if !s.ok then s
    else if w.data == [] then s.(world := s.world - {At(w)})
    else if w.kind > LECTERN then s.(ok := false)
    else if w.kind == BANNER && !Paints(server, w.data) then
      Served(if server.keeps(At(w)) then s.world else s.world - {At(w)}, false)
    else s.(world := s.world[At(w) := w.data])
  }

  function PlaceAll(server: Server, k: Kept, ws: seq<JavaWrite>, n: nat): Served
    requires n <= |ws|
  {
    if n == 0 then Served(k, true) else Place(server, PlaceAll(server, k, ws, n - 1), ws[n - 1])
  }

  /** What the plugin makes of a packet with a write or a batch of them; None if it is malformed. */
  function ServeWrites(server: Server, k: Kept, packet: Bytes): (r: Option<Served>) {
    var p := Unframe(packet, 0);
    if p.None? then None
    else if p.value.value.op == OP_WRITE then
      var d := ParseWrite(server.java, p.value.value.payload, 0);
      if d.None? then None else Some(Place(server, Served(k, true), d.value.value))
    else if p.value.value.op == OP_BATCH_WRITE then
      var d := JavaBatch(WriteReader(server.java), p.value.value.payload);
      if d.None? then None else Some(PlaceAll(server, k, d.value.value, |d.value.value|))
    else None
  }

  function Lookups(k: Kept, ps: seq<WirePos>): (results: seq<JString>)
    ensures |results| == |ps|
  {
    seq(|ps|, i requires 0 <= i < |ps| => GetString(k, Pos(ps[i].x, ps[i].y, ps[i].z)))
  }

  /** The packet the plugin answers to a READ or a BATCH_READ. */
  function ServeReads(k: Kept, packet: Bytes): (r: Option<Bytes>) {
    var p := Unframe(packet, 0);
    if p.None? then None
    else if p.value.value.op == OP_READ then
      var d := ParsePos(p.value.value.payload, 0);
      if d.None? then None else Some(Frame(OP_DATA, Counted(GetBytes(Lookups(k, [d.value.value])[0]))))
    else if p.value.value.op == OP_BATCH_READ then
      var d := JavaBatch(ParsePos, p.value.value.payload);
      if d.None? then None else Some(Frame(OP_BATCH_DATA, Batch(DataParts(Lookups(k, d.value.value)))))
    else None
  }
}
