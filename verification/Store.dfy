/** What the storage layer does, as functions of the world: internal/storage/storage.go. */
module Store {
  import opened GoText
  import opened World
  import opened Codec
  import opened LogEntry
  import opened Wal
  import opened Layout

  const CATALOG_Y := 10
  const TABLE_Y := 64
  const SPACING := 10000
  const MAX_CATALOG_Z := 1024

  datatype Meta = Meta(
    id: int, name: string, yLevel: int, zStart: int, stripWidth: nat, columns: seq<Column>, rowCount: nat)

  datatype CatalogRow = CatalogRow(tableID: int, name: string, yLevel: int, columns: seq<Column>)

  /** encoding/json, as the engine uses it: catalog rows both ways, INSERT values one way, and what
      becomes of a string in JSON text, which holds only UTF-8. */
  datatype Json = Json(
    encode: CatalogRow -> string, decode: string -> Option<CatalogRow>, marshal: Values -> string,
    repair: string -> string)

  /** JSON text is never empty and holds no raw newline. */
  ghost predicate Writable(json: Json) {
    && (forall r :: json.encode(r) != "")
    && (forall v :: json.marshal(v) != "" && Free(json.marshal(v), '\n'))
  }

  // ----- the write sequence: log entry, data, commit -----

  datatype LoggedOp = LoggedOp(
    txid: int, op: string, tableID: int, x: int, y: int, z: int, newValue: string, writes: seq<BlockWrite>)

  function EntryOf(op: LoggedOp, lsn: int, status: string): Entry {
    Entry(lsn, op.txid, status, op.op, op.tableID, op.x, op.y, op.z, op.newValue)
  }

  function AfterAppend(w: Blocks, lsn: int, op: LoggedOp): Blocks {
    Put(w, Lectern(lsn), Serialize(EntryOf(op, lsn, PENDING)))
  }

  function AfterData(w: Blocks, lsn: int, op: LoggedOp): Blocks {
    PutAll(AfterAppend(w, lsn, op), op.writes)
  }

  function AfterCommit(w: Blocks, lsn: int, op: LoggedOp): (r: Option<Blocks>) {
    CommitOf(AfterData(w, lsn, op), lsn)
  }

  /** Where the sequence ends, and whether it reports success. */
  function Finished(w: Blocks, lsn: int, op: LoggedOp): Blocks {
    var r := AfterCommit(w, lsn, op);
    if r.Some? then r.value else AfterData(w, lsn, op)
  }

  /** The worlds the sequence goes through, one per HAL write. */
  function OpTrace(told: seq<Blocks>, w: Blocks, lsn: int, op: LoggedOp): (worlds: seq<Blocks>) {
    var r := AfterCommit(w, lsn, op);
    told + [AfterAppend(w, lsn, op)] + [AfterData(w, lsn, op)] + (if r.Some? then [r.value] else [])
  }

  // ----- INSERT -----

  /** Appending a strip of blocks to a table, its values written to the log as `newValue`. */
  function AppendOp(meta: Meta, strip: seq<string>, newValue: string, txid: int): LoggedOp {
    var z := meta.zStart + meta.rowCount;
    LoggedOp(txid, INSERT, meta.id, 0, meta.yLevel, z, newValue, StripWrites(strip, meta.yLevel, z))
  }

  function InsertOp(meta: Meta, values: Values, txid: int, json: Json): LoggedOp {
    AppendOp(meta, Strip(meta.columns, values, txid), json.marshal(values), txid)
  }

  // ----- scanning -----

  datatype Scanned = Scanned(row: Row, pos: Pos)

  predicate IsVisible(row: Row, txid: int) {
    row.xmin <= txid && (row.xmax.None? || row.xmax.value > txid)
  }

  function RowIn(w: Blocks, width: nat, y: int, z: int, cols: seq<Column>): (r: Option<Row>) {
    DecodeStrip(ReadStrip(w, width, y, z), cols)
  }

  lemma {:induction false} RowOfStrip(w: Blocks, width: nat, y: int, z: int, cols: seq<Column>, data: seq<string>)
    requires data == ReadStrip(w, width, y, z)
    ensures RowIn(w, width, y, z, cols) == DecodeStrip(data, cols)
  {
  }

  function RowAt(w: Blocks, meta: Meta, ri: int): (r: Option<Row>) {
    RowIn(w, meta.stripWidth, meta.yLevel, meta.zStart + ri, meta.columns)
  }

  function Seen(row: Option<Row>, pos: Pos, txid: int): (r: Option<Scanned>) {
    if row.Some? && IsVisible(row.value, txid) then Some(Scanned(row.value, pos)) else None
  }

  /** One turn of the scan: the row in slot ri, if it decodes and txid sees it. */
  function ScanSlot(w: Blocks, meta: Meta, ri: int, txid: int): (r: Option<Scanned>) {
    Seen(RowAt(w, meta, ri), Pos(0, meta.yLevel, meta.zStart + ri), txid)
  }

  function Scan(w: Blocks, meta: Meta, txid: int, n: nat): (rows: seq<Scanned>) {
    if n == 0 then []
    else
      var s := ScanSlot(w, meta, n - 1, txid);
      Scan(w, meta, txid, n - 1) + if s.Some? then [s.value] else []
  }

  // ----- deleting -----

  /** Go's integer division, which truncates toward zero. */
  function TruncDiv(a: int, b: int): int
    requires b > 0
  {
    if a >= 0 then a / b else -((-a) / b)
  }

  function XmaxWrites(pos: Pos, txid: int): (writes: seq<BlockWrite>) {
    var (s1, s2) := Int64Banners(txid);
    [BlockWrite(Pos(2, pos.y, pos.z), s1), BlockWrite(Pos(3, pos.y, pos.z), s2)]
  }

  function DeleteOp(pos: Pos, txid: int): LoggedOp {
    LoggedOp(txid, UPDATE_XMAX, TruncDiv(pos.z, SPACING) + 1, pos.x, pos.y, pos.z, Itoa(txid), XmaxWrites(pos, txid))
  }

  predicate HasXmax(w: Blocks, pos: Pos) {
    Get(w, Pos(2, pos.y, pos.z)) != "" && Get(w, Pos(3, pos.y, pos.z)) != ""
  }

  /** World, next LSN and whether every mark so far succeeded. */
  datatype Marks = Marks(world: Blocks, lsn: int, ok: bool)

  function Mark(m: Marks, pos: Pos, txid: int): Marks {
    if !m.ok then m
    else if !HasXmax(m.world, pos) then m.(ok := false)
    else
      var op := DeleteOp(pos, txid);
      Marks(Finished(m.world, m.lsn, op), m.lsn + 1, AfterCommit(m.world, m.lsn, op).Some?)
  }

  /** The rows a statement acts on: those of the first n slots that txid sees and `keep` selects. */
  function Matching(w: Blocks, meta: Meta, keep: Row -> bool, txid: int, n: nat): (rows: seq<Scanned>) {
    if n == 0 then []
    else
      var s := ScanSlot(w, meta, n - 1, txid);
      Matching(w, meta, keep, txid, n - 1) + if s.Some? && keep(s.value.row) then [s.value] else []
  }

  /** Marking the first n of the given rows, stopping at the first failure. */
  function MarkAll(w: Blocks, lsn: int, rows: seq<Scanned>, txid: int, n: nat): Marks
    requires n <= |rows|
  {
    if n == 0 then Marks(w, lsn, true) else Mark(MarkAll(w, lsn, rows, txid, n - 1), rows[n - 1].pos, txid)
  }

  /** The worlds one mark goes through, and those of the first n marks. */
  function MarkTrace(told: seq<Blocks>, m: Marks, pos: Pos, txid: int): (worlds: seq<Blocks>) {
    if !m.ok || !HasXmax(m.world, pos) then told else OpTrace(told, m.world, m.lsn, DeleteOp(pos, txid))
  }

  function MarkAllTrace(told: seq<Blocks>, w: Blocks, lsn: int, rows: seq<Scanned>, txid: int,
                        n: nat): (worlds: seq<Blocks>)
    requires n <= |rows|
  {
    if n == 0 then told
    else MarkTrace(MarkAllTrace(told, w, lsn, rows, txid, n - 1), MarkAll(w, lsn, rows, txid, n - 1), rows[n - 1].pos,
                   txid)
  }

  // ----- catalog -----

  function CatalogPos(z: int): Pos {
    Pos(0, CATALOG_Y, z)
  }

  function NewMeta(id: int, name: string, cols: seq<Column>): Meta {
    Meta(id, name, TABLE_Y, (id - 1) * SPACING, StripWidth(cols), cols, 0)
  }

  datatype Loaded = Loaded(tables: map<string, Meta>, maxTableID: int, lastZ: int)

  /** One turn of LoadCatalog on a non-empty block. */
  function LoadRow(w: Blocks, json: Json, l: Loaded, z: int): Loaded {
    var r := json.decode(Get(w, CatalogPos(z)));
    if r.None? || r.value.name == "" then l
    else Loaded(l.tables[r.value.name := NewMeta(r.value.tableID, r.value.name, r.value.columns)],
                Max(l.maxTableID, r.value.tableID), Max(l.lastZ, z + 1))
  }

  function LoadTo(w: Blocks, json: Json, tables: map<string, Meta>, n: nat): Loaded {
    if n == 0 then Loaded(tables, 0, 0) else LoadRow(w, json, LoadTo(w, json, tables, n - 1), n - 1)
  }

  /** How many catalog blocks follow each other from Z = 0, at most 1024. */
  function CatalogLength(w: Blocks, from: nat): (n: nat)
    requires from <= MAX_CATALOG_Z
    ensures from <= n <= MAX_CATALOG_Z
    decreases MAX_CATALOG_Z - from
  {
    if from == MAX_CATALOG_Z || Get(w, CatalogPos(from)) == "" then from else CatalogLength(w, from + 1)
  }

  /** What LoadCatalog makes of the world. */
  function CatalogOf(w: Blocks, json: Json, tables: map<string, Meta>): Loaded {
    var n := CatalogLength(w, 0);
    var l := LoadTo(w, json, tables, n);
    if n < MAX_CATALOG_Z then l.(lastZ := n) else l
  }

  // ----- the whole store -----

  datatype DB = DB(world: Blocks, nextLSN: int, tables: map<string, Meta>, nextCatalogZ: int, nextTableID: int)

  function CreateTable(db: DB, json: Json, name: string, cols: seq<Column>): DB
    requires name !in db.tables
  {
    var id := db.nextTableID;
    DB(Put(db.world, CatalogPos(db.nextCatalogZ), json.encode(CatalogRow(id, name, TABLE_Y, cols))),
       db.nextLSN, db.tables[name := NewMeta(id, name, cols)], db.nextCatalogZ + 1, id + 1)
  }

  /** One more row in a table and one more log entry, over the given blocks. */
  function Grown(db: DB, name: string, w': Blocks): DB
    requires name in db.tables
  {
    var meta := db.tables[name];
    db.(world := w', nextLSN := db.nextLSN + 1,
        tables := db.tables[name := meta.(rowCount := meta.rowCount + 1)])
  }

  function InsertRow(db: DB, json: Json, name: string, values: Values, txid: int): DB
    requires name in db.tables
  {
    Grown(db, name, Finished(db.world, db.nextLSN, InsertOp(db.tables[name], values, txid, json)))
  }
}
