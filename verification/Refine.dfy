/** The blocks represent tables: for each table a list of row versions in insertion order. INSERT,
    DELETE and CREATE TABLE on blocks do to the lists what one expects of them. */
module Refine {
  import opened GoText
  import opened World
  import opened Codec
  import opened Wal
  import opened Layout
  import opened Store
  import opened WriteSequence

  // ----- the abstract database -----

  datatype Table = Table(columns: seq<Column>, rows: seq<Row>)

  /** Tables by name, and the names in the order of their creation. */
  datatype Tables = Tables(byName: map<string, Table>, order: seq<string>)

  function Inserted(t: Table, values: Values, txid: int): Table {
    t.(rows := t.rows + [Row(txid, None, StoredColumns(t.columns, values))])
  }

  function Deleted(row: Row, keep: Row -> bool, txid: int): Row {
    if IsVisible(row, txid) && keep(row) then row.(xmax := Some(txid)) else row
  }

  /** DELETE: every version that txid sees and the condition selects gets txid as its deleter. */
  function DeletedFrom(t: Table, keep: Row -> bool, txid: int): Table {
    t.(rows := seq(|t.rows|, i requires 0 <= i < |t.rows| => Deleted(t.rows[i], keep, txid)))
  }

  /** SELECT before projection: the versions txid sees and the condition selects, in order. */
  function Selected(rows: seq<Row>, keep: Row -> bool, txid: int): (r: seq<Row>) {
    var n := |rows|;
    if n == 0 then []
    else
      Selected(rows[..n - 1], keep, txid)
      + if IsVisible(rows[n - 1], txid) && keep(rows[n - 1]) then [rows[n - 1]] else []
  }

  // ----- representation -----

  /** Slot ri of a table decodes to this row version. The fact stands behind a trigger of its own, so
      that a proof which only carries it along never unfolds the decoder. */
  ghost predicate Decodes(w: Blocks, meta: Meta, ri: int, row: Row) {
    forall k {:trigger Open(OfRow, k)} :: Open(OfRow, k) ==> RowAt(w, meta, ri) == Some(row)
  }

  lemma {:induction false} DecodesTo(w: Blocks, meta: Meta, ri: int, row: Row)
    ensures Decodes(w, meta, ri, row) <==> RowAt(w, meta, ri) == Some(row)
  {
    assert Open(OfRow, true);
  }

  /** The first slots of a table hold exactly these row versions. */
  ghost predicate Stored(w: Blocks, meta: Meta, rows: seq<Row>) {
    forall ri | 0 <= ri < |rows| :: Decodes(w, meta, ri, rows[ri])
  }

  /** Table number i of the catalog: where its rows start and how wide they are. */
  predicate Placed(meta: Meta, name: string, i: int) {
    0 <= i && meta.rowCount <= SPACING && meta == NewMeta(i + 1, name, meta.columns).(rowCount := meta.rowCount)
  }

  ghost predicate TableOk(db: DB, ts: Tables, n: string)
    requires n in db.tables && n in ts.byName
  {
    var meta, t := db.tables[n], ts.byName[n];
    && 0 < meta.id <= |ts.order| && ts.order[meta.id - 1] == n && Placed(meta, n, meta.id - 1)
    && meta.columns == t.columns && meta.rowCount == |t.rows| && Stored(db.world, meta, t.rows)
  }

  function CatalogText(ts: Tables, json: Json, i: nat): string
    requires i < |ts.order| && ts.order[i] in ts.byName
  {
    json.encode(CatalogRow(i + 1, ts.order[i], TABLE_Y, ts.byName[ts.order[i]].columns))
  }

  ghost predicate CatalogOk(w: Blocks, ts: Tables, json: Json) {
    && (forall i | 0 <= i < |ts.order| ::
          ts.order[i] in ts.byName && Get(w, CatalogPos(i)) == CatalogText(ts, json, i))
    && (forall i | i >= |ts.order| :: Get(w, CatalogPos(i)) == "")
  }

  /** Tables are numbered from 1 in the order of their creation. */
  ghost predicate Numbered(tables: map<string, Meta>, order: seq<string>) {
    forall i | 0 <= i < |order| :: order[i] in tables && tables[order[i]].id == i + 1
  }

  ghost predicate Represents(db: DB, ts: Tables, json: Json) {
    && db.tables.Keys == ts.byName.Keys
    && db.nextTableID == |ts.order| + 1 && db.nextCatalogZ == |ts.order|
    && Numbered(db.tables, ts.order)
    && (forall n | n in db.tables :: TableOk(db, ts, n))
    && CatalogOk(db.world, ts, json)
    && Quiet(db.world, db.nextLSN)
  }

  /** The engine's counters still fit the int64 they are kept in. */
  predicate Fits(db: DB, more: nat) {
    IsInt64(db.nextLSN + more) && IsInt64(db.nextTableID * SPACING)
  }

  // ----- regions never overlap -----

  /** Off its own lectern a write sequence at row position z changes only blocks of that row. */
  ghost predicate OnlyTouches(w: Blocks, w': Blocks, lsn: int, z: int) {
    forall p: Pos | p != Lectern(lsn) && !(p.y == TABLE_Y && p.z == z) :: Get(w', p) == Get(w, p)
  }

  /** One row too many: slot 10000 of a table is slot 0 of the next. */
  lemma {:induction false} BoundIsExact(i: nat, ri: nat)
    ensures TruncDiv(i * SPACING + ri, SPACING) == i <==> ri < SPACING
  {
  }

  lemma {:induction false} OtherRowKept(w: Blocks, w': Blocks, lsn: int, z: int, meta: Meta, ri: int)
    requires OnlyTouches(w, w', lsn, z) && lsn >= 1
    requires meta.yLevel == TABLE_Y && meta.zStart + ri >= 0 && meta.zStart + ri != z
    ensures RowAt(w', meta, ri) == RowAt(w, meta, ri)
  {
    forall x | 0 <= x < meta.stripWidth ensures BlockAt(w', meta, ri, x) == BlockAt(w, meta, ri, x) {
    }
    SameStripSameRow(w, w', meta, ri);
  }

  lemma {:induction false} RowKept(w: Blocks, w': Blocks, lsn: int, z: int, meta: Meta, ri: int, row: Row)
    requires OnlyTouches(w, w', lsn, z) && lsn >= 1 && Decodes(w, meta, ri, row)
    requires meta.yLevel == TABLE_Y && meta.zStart + ri >= 0 && meta.zStart + ri != z
    ensures Decodes(w', meta, ri, row)
  {
    OtherRowKept(w, w', lsn, z, meta, ri);
  }

  lemma {:induction false} CatalogKept(w: Blocks, w': Blocks, lsn: int, z: int, ts: Tables, json: Json)
    requires OnlyTouches(w, w', lsn, z) && CatalogOk(w, ts, json)
    ensures CatalogOk(w', ts, json)
  {
    forall i ensures Get(w', CatalogPos(i)) == Get(w, CatalogPos(i)) {
    }
  }

  /** Tables none of whose slots is at z read as before. */
  lemma {:induction false} OtherTableKept(w: Blocks, w': Blocks, lsn: int, z: int, meta: Meta, rows: seq<Row>)
    requires OnlyTouches(w, w', lsn, z) && lsn >= 1 && Stored(w, meta, rows)
    requires meta.yLevel == TABLE_Y && meta.zStart >= 0
    requires !(meta.zStart <= z < meta.zStart + |rows|)
    ensures Stored(w', meta, rows)
  {
    forall ri | 0 <= ri < |rows| ensures Decodes(w', meta, ri, rows[ri]) {
      RowKept(w, w', lsn, z, meta, ri, rows[ri]);
    }
  }

  // ----- INSERT -----

  lemma {:induction false} NewRow(w: Blocks, lsn: int, meta: Meta, strip: seq<string>, newValue: string, txid: int64)
    requires lsn >= 1 && Loggable(AppendOp(meta, strip, newValue, txid), lsn)
    requires OffLog(AppendOp(meta, strip, newValue, txid))
    requires meta.yLevel == TABLE_Y && meta.zStart >= 0 && |strip| == meta.stripWidth
    ensures var w' := Finished(w, lsn, AppendOp(meta, strip, newValue, txid));
            && ReadStrip(w', meta.stripWidth, meta.yLevel, meta.zStart + meta.rowCount) == strip
            && OnlyTouches(w, w', lsn, meta.zStart + meta.rowCount)
  {
    var w' := Finished(w, lsn, AppendOp(meta, strip, newValue, txid));
    forall x | 0 <= x < |strip| ensures Get(w', Pos(x, meta.yLevel, meta.zStart + meta.rowCount)) == strip[x] {
      InsertedBlocks(w, lsn, meta, strip, newValue, txid, Pos(x, meta.yLevel, meta.zStart + meta.rowCount));
    }
    forall p: Pos | p != Lectern(lsn) && !(p.y == TABLE_Y && p.z == meta.zStart + meta.rowCount)
      ensures Get(w', p) == Get(w, p)
    {
      InsertedBlocks(w, lsn, meta, strip, newValue, txid, p);
    }
  }

  /** After the sequence, slot rowCount decodes to the inserted version. */
  lemma {:induction false} NewRowDecodes(w': Blocks, meta: Meta, values: Values, txid: int64)
    requires ReadStrip(w', meta.stripWidth, meta.yLevel, meta.zStart + meta.rowCount)
             == Strip(meta.columns, values, txid)
    ensures Decodes(w', meta, meta.rowCount, Row(txid, None, StoredColumns(meta.columns, values)))
  {
    StripReadsBack(meta.columns, values, txid);
    StripDecodes(w', meta, meta.rowCount, Strip(meta.columns, values, txid),
                 Row(txid, None, StoredColumns(meta.columns, values)));
  }

  /** LayoutInverse, sealed. */
  ghost predicate ReadsBack(strip: seq<string>, cols: seq<Column>, row: Row) {
    forall k {:trigger Open(OfStrip, k)} :: Open(OfStrip, k) ==> DecodeStrip(strip, cols) == Some(row)
  }

  lemma {:induction false} StripReadsBack(cols: seq<Column>, values: Values, txid: int64)
    ensures ReadsBack(Strip(cols, values, txid), cols, Row(txid, None, StoredColumns(cols, values)))
  {
    LayoutInverse(cols, values, txid);
  }

  lemma {:induction false} StripDecodes(w: Blocks, meta: Meta, ri: int, strip: seq<string>, row: Row)
    requires ReadStrip(w, meta.stripWidth, meta.yLevel, meta.zStart + ri) == strip
    requires ReadsBack(strip, meta.columns, row)
    ensures Decodes(w, meta, ri, row)
  {
    assert Open(OfStrip, true);
    RowOfRead(w, meta, ri, strip);
    DecodesTo(w, meta, ri, row);
  }

  lemma {:induction false} DecodesIgnoresCount(w: Blocks, meta: Meta, n: nat, ri: int, row: Row)
    requires Decodes(w, meta, ri, row)
    ensures Decodes(w, meta.(rowCount := n), ri, row)
  {
    DecodesTo(w, meta, ri, row);
    RowIgnoresCount(w, meta, n, ri);
    DecodesTo(w, meta.(rowCount := n), ri, row);
  }

  lemma {:induction false} RowIgnoresCount(w: Blocks, meta: Meta, n: nat, ri: int)
    ensures RowAt(w, meta.(rowCount := n), ri) == RowAt(w, meta, ri)
  {
    var m := meta;
    CountIsIdle(w, m.id, m.name, m.yLevel, m.zStart, m.stripWidth, m.columns, m.rowCount, n, ri);
  }

  lemma {:induction false} CountIsIdle(w: Blocks, id: int, name: string, y: int, z: int, width: nat, cols: seq<Column>,
                                       c: nat, c': nat, ri: int)
    ensures RowAt(w, Meta(id, name, y, z, width, cols, c), ri) == RowAt(w, Meta(id, name, y, z, width, cols, c'), ri)
  {
  }

  lemma {:induction false} StoredOneMore(w: Blocks, w': Blocks, lsn: int, meta: Meta, rows: seq<Row>, row: Row)
    requires OnlyTouches(w, w', lsn, meta.zStart + |rows|) && lsn >= 1 && Stored(w, meta, rows)
    requires meta.yLevel == TABLE_Y && meta.zStart >= 0 && meta.rowCount == |rows|
    requires Decodes(w', meta, |rows|, row)
    ensures Stored(w', meta.(rowCount := |rows| + 1), rows + [row])
  {
    var meta' := meta.(rowCount := |rows| + 1);
    forall ri | 0 <= ri < |rows + [row]| ensures Decodes(w', meta', ri, (rows + [row])[ri]) {
      if ri < |rows| {
        RowKept(w, w', lsn, meta.zStart + |rows|, meta, ri, rows[ri]);
      }
      DecodesIgnoresCount(w', meta, |rows| + 1, ri, (rows + [row])[ri]);
    }
  }

  lemma {:induction false} PlacedFields(db: DB, ts: Tables, json: Json, n: string)
    requires Represents(db, ts, json) && n in db.tables
    ensures var meta := db.tables[n];
            && n in ts.byName && TableOk(db, ts, n)
            && meta.yLevel == TABLE_Y && meta.zStart == (meta.id - 1) * SPACING >= 0
            && meta.stripWidth == StripWidth(meta.columns) && 0 < meta.id < db.nextTableID
            && meta.rowCount <= SPACING && meta.rowCount == |ts.byName[n].rows|
  {
    assert TableOk(db, ts, n);
  }

  /** Two tables of the catalog share no slot. */
  lemma {:induction false} TablesAreDisjoint(db: DB, ts: Tables, json: Json, n: string, m: string, z: int)
    requires Represents(db, ts, json) && n in db.tables && m in db.tables && n != m
    requires var t := db.tables[n]; t.zStart <= z < t.zStart + SPACING
    ensures var t := db.tables[m]; !(t.zStart <= z < t.zStart + t.rowCount)
  {
    PlacedFields(db, ts, json, n);
    PlacedFields(db, ts, json, m);
    assert db.tables[n].id != db.tables[m].id;
  }

  function SlotPos(meta: Meta, ri: int, x: int): Pos {
    Pos(x, meta.yLevel, meta.zStart + ri)
  }

  /** Blocks of distinct (table, row) slots are distinct, none is a lectern of the log or a block of the
      catalog, and MarkDeleted computes the owner's id from Z. */
  lemma {:induction false} RegionSeparation(db: DB, ts: Tables, json: Json, n: string, ri: nat, x: int, m: string,
                                            rj: nat,
                                            x': int, k: int, i: int, txid: int)
    requires Represents(db, ts, json) && n in db.tables && m in db.tables
    requires ri < db.tables[n].rowCount && rj < db.tables[m].rowCount
    ensures SlotPos(db.tables[n], ri, x) == SlotPos(db.tables[m], rj, x') <==> n == m && ri == rj && x == x'
    ensures k >= 1 ==> SlotPos(db.tables[n], ri, x) != Lectern(k)
    ensures SlotPos(db.tables[n], ri, x) != CatalogPos(i) && CatalogPos(i) != Lectern(k)
    ensures DeleteOp(SlotPos(db.tables[n], ri, 0), txid).tableID == db.tables[n].id
  {
    PlacedFields(db, ts, json, n);
    PlacedFields(db, ts, json, m);
    if n != m {
      TablesAreDisjoint(db, ts, json, n, m, db.tables[n].zStart + ri);
    }
    BoundIsExact(db.tables[n].id - 1, ri);
  }

  lemma {:induction false} InsertLoggable(db: DB, ts: Tables, json: Json, name: string, strip: seq<string>,
                                          newValue: string, txid: int64)
    requires Represents(db, ts, json) && Fits(db, 1) && name in db.tables
    requires newValue != "" && Free(newValue, '\n')
    ensures var op := AppendOp(db.tables[name], strip, newValue, txid); Loggable(op, db.nextLSN) && OffLog(op)
  {
    PlacedFields(db, ts, json, name);
    AppendIsLoggable(db.tables[name], strip, newValue, txid, db.nextLSN);
  }

  function Appended(ts: Tables, name: string, row: Row): Tables
    requires name in ts.byName
  {
    var t := ts.byName[name];
    ts.(byName := ts.byName[name := t.(rows := t.rows + [row])])
  }

  /** The inserted row is in place and nothing else moved. */
  ghost predicate Landed(db: DB, name: string, w': Blocks, row: Row)
    requires name in db.tables
  {
    var meta := db.tables[name];
    && meta.rowCount < SPACING
    && OnlyTouches(db.world, w', db.nextLSN, meta.zStart + meta.rowCount)
    && Decodes(w', meta, meta.rowCount, row)
    && Quiet(w', db.nextLSN + 1)
  }

  lemma {:induction false} GrownTable(db: DB, ts: Tables, json: Json, name: string, w': Blocks, row: Row)
    requires Represents(db, ts, json) && name in db.tables && Landed(db, name, w', row)
    ensures TableOk(Grown(db, name, w'), Appended(ts, name, row), name)
  {
    PlacedFields(db, ts, json, name);
    StoredOneMore(db.world, w', db.nextLSN, db.tables[name], ts.byName[name].rows, row);
  }

  lemma {:induction false} KeptTable(db: DB, ts: Tables, json: Json, name: string, w': Blocks, row: Row, n: string)
    requires Represents(db, ts, json) && name in db.tables && Landed(db, name, w', row)
    requires n in db.tables && n != name
    ensures TableOk(Grown(db, name, w'), Appended(ts, name, row), n)
  {
    var z := db.tables[name].zStart + db.tables[name].rowCount;
    PlacedFields(db, ts, json, name);
    PlacedFields(db, ts, json, n);
    TablesAreDisjoint(db, ts, json, name, n, z);
    OtherTableKept(db.world, w', db.nextLSN, z, db.tables[n], ts.byName[n].rows);
    SameTableOk(db, ts, Grown(db, name, w'), Appended(ts, name, row), n);
  }

  lemma {:induction false} SameTableOk(db: DB, ts: Tables, db': DB, ts': Tables, n: string)
    requires n in db.tables && n in ts.byName && TableOk(db, ts, n)
    requires n in db'.tables && n in ts'.byName && db'.tables[n] == db.tables[n] && ts'.byName[n] == ts.byName[n]
    requires ts.order <= ts'.order && Stored(db'.world, db.tables[n], ts.byName[n].rows)
    ensures TableOk(db', ts', n)
  {
  }

  lemma {:induction false} CatalogIgnoresRows(w: Blocks, ts: Tables, json: Json, name: string, t: Table)
    requires CatalogOk(w, ts, json) && name in ts.byName && t.columns == ts.byName[name].columns
    ensures CatalogOk(w, ts.(byName := ts.byName[name := t]), json)
  {
    var ts' := ts.(byName := ts.byName[name := t]);
    forall i | 0 <= i < |ts.order|
      ensures ts'.order[i] in ts'.byName && Get(w, CatalogPos(i)) == CatalogText(ts', json, i)
    {
      assert Get(w, CatalogPos(i)) == CatalogText(ts, json, i);
    }
  }

  /** What the write sequence leaves, table by table. */
  lemma {:induction false} InsertedTables(db: DB, ts: Tables, json: Json, name: string, w': Blocks, row: Row)
    requires Represents(db, ts, json) && name in db.tables && Landed(db, name, w', row)
    ensures Represents(Grown(db, name, w'), Appended(ts, name, row), json)
  {
    var db', ts' := Grown(db, name, w'), Appended(ts, name, row);
    InsertedCatalog(db.world, w', db.nextLSN, db.tables[name].zStart + db.tables[name].rowCount, ts, json, name, row);
    forall n | n in db'.tables ensures n in ts'.byName && TableOk(db', ts', n) {
      if n == name {
        GrownTable(db, ts, json, name, w', row);
      } else {
        KeptTable(db, ts, json, name, w', row, n);
      }
    }
    GrownNumbers(db, ts, name, w', row);
  }

  lemma {:induction false} InsertedCatalog(w: Blocks, w': Blocks, lsn: int, z: int, ts: Tables, json: Json,
                                           name: string, row: Row)
    requires OnlyTouches(w, w', lsn, z) && CatalogOk(w, ts, json) && name in ts.byName
    ensures CatalogOk(w', Appended(ts, name, row), json)
  {
    CatalogKept(w, w', lsn, z, ts, json);
    var t := ts.byName[name];
    CatalogIgnoresRows(w', ts, json, name, t.(rows := t.rows + [row]));
  }

  lemma {:induction false} GrownNumbers(db: DB, ts: Tables, name: string, w': Blocks, row: Row)
    requires name in db.tables && name in ts.byName && Numbered(db.tables, ts.order) && db.tables.Keys == ts.byName.Keys
    ensures var db', ts' := Grown(db, name, w'), Appended(ts, name, row);
            && Numbered(db'.tables, ts'.order) && ts'.order == ts.order && db'.tables.Keys == ts'.byName.Keys
            && db'.nextTableID == db.nextTableID && db'.nextCatalogZ == db.nextCatalogZ
            && db'.world == w' && db'.nextLSN == db.nextLSN + 1
  {
  }

  /** INSERT on blocks is appending one version to the table's list. */
  lemma {:induction false} InsertRefines(db: DB, ts: Tables, json: Json, name: string, values: Values, txid: int64)
    requires Writable(json) && Represents(db, ts, json) && Fits(db, 1)
    requires name in db.tables && db.tables[name].rowCount < SPACING
    ensures AfterCommit(db.world, db.nextLSN, InsertOp(db.tables[name], values, txid, json)).Some?
    ensures Represents(InsertRow(db, json, name, values, txid),
                       ts.(byName := ts.byName[name := Inserted(ts.byName[name], values, txid)]), json)
  {
    var meta, row := db.tables[name], Row(txid, None, StoredColumns(db.tables[name].columns, values));
    PlacedFields(db, ts, json, name);
    MarshalIsOneLine(json, values);
    InsertLands(db, ts, json, name, Strip(meta.columns, values, txid), json.marshal(values), values, txid);
    InsertedTables(db, ts, json, name, Finished(db.world, db.nextLSN, InsertOp(meta, values, txid, json)), row);
  }

  // ----- one row too many -----

  /** Slot 10000 + r of a table is slot r of the next. */
  lemma {:induction false} SlotsRunOver(meta: Meta, next: Meta, r: int, x: int)
    requires meta.yLevel == next.yLevel
    requires meta.zStart == (meta.id - 1) * SPACING && next.zStart == (next.id - 1) * SPACING
    ensures SlotPos(meta, SPACING + r, x) == SlotPos(next, r, x) <==> next.id == meta.id + 1
  {
  }

  lemma {:induction false} HeadDecodes(data: seq<string>, cols: seq<Column>, txid: int64)
    requires |data| >= 4 && data[..4] == SystemBlocks(txid)
    ensures var r := DecodeStrip(data, cols); r.Some? && r.value.xmin == txid && r.value.xmax == None
  {
    assert forall k | 0 <= k < 4 :: data[k] == data[..4][k];
    Int64RoundTrip(txid);
  }

  lemma {:induction false} HeadOverwritten(w: Blocks, meta: Meta, next: Meta, cols: seq<Column>, values: Values,
                                           txid: int64,
                                           z: int)
    requires ReadStrip(w, meta.stripWidth, TABLE_Y, z) == Strip(cols, values, txid) && meta.stripWidth >= 4
    requires next.yLevel == TABLE_Y && next.zStart == z && next.stripWidth >= 4
    ensures var r := RowAt(w, next, 0); r.Some? && r.value.xmin == txid && r.value.xmax == None
  {
    var strip, data := ReadStrip(w, meta.stripWidth, TABLE_Y, z), ReadStrip(w, next.stripWidth, TABLE_Y, z);
    forall k | 0 <= k < 4 ensures data[k] == SystemBlocks(txid)[k] {
      assert data[k] == strip[k] == Strip(cols, values, txid)[k];
    }
    assert data[..4] == SystemBlocks(txid);
    HeadDecodes(data, next.columns, txid);
    RowOfStrip(w, next.stripWidth, next.yLevel, next.zStart + 0, next.columns, data);
  }

  /** An INSERT into a full table writes over the first slot of the table created next, which then reads
      as created by this transaction and not deleted, and with the same columns as the row inserted. */
  lemma {:induction false} OverflowDestroys(db: DB, ts: Tables, json: Json, n: string, m: string, values: Values,
                                            txid: int64)
    requires Writable(json) && Represents(db, ts, json) && Fits(db, 1) && n in db.tables && m in db.tables
    requires db.tables[n].rowCount == SPACING && db.tables[m].id == db.tables[n].id + 1
    ensures var r := RowAt(InsertRow(db, json, n, values, txid).world, db.tables[m], 0);
            && r.Some? && r.value.xmin == txid && r.value.xmax == None
            && (db.tables[m].columns == db.tables[n].columns ==>
                  r.value == Row(txid, None, StoredColumns(db.tables[n].columns, values)))
  {
    var meta := db.tables[n];
    PlacedFields(db, ts, json, n);
    PlacedFields(db, ts, json, m);
    MarshalIsOneLine(json, values);
    var strip, newValue := Strip(meta.columns, values, txid), json.marshal(values);
    InsertLoggable(db, ts, json, n, strip, newValue, txid);
    AppendOverwrites(db.world, db.nextLSN, meta, db.tables[m], strip, newValue, values, txid);
    InsertedWorld(db, json, n, values, txid);
  }

  /** The version that was there is lost, unless it was this transaction's own and undeleted. */
  lemma {:induction false} OverflowLoses(db: DB, ts: Tables, json: Json, n: string, m: string, values: Values,
                                         txid: int64, row: Row)
    requires Writable(json) && Represents(db, ts, json) && Fits(db, 1) && n in db.tables && m in db.tables
    requires db.tables[n].rowCount == SPACING && db.tables[m].id == db.tables[n].id + 1
    requires m in ts.byName && ts.byName[m].rows != [] && row == ts.byName[m].rows[0]
    requires row.xmin != txid || row.xmax != None
    ensures RowAt(db.world, db.tables[m], 0) == Some(row)
    ensures RowAt(InsertRow(db, json, n, values, txid).world, db.tables[m], 0) != Some(row)
  {
    OverflowDestroys(db, ts, json, n, m, values, txid);
    PlacedFields(db, ts, json, m);
    DecodesTo(db.world, db.tables[m], 0, row);
    assert Decodes(db.world, db.tables[m], 0, ts.byName[m].rows[0]);
  }

  lemma {:induction false} InsertedWorld(db: DB, json: Json, n: string, values: Values, txid: int)
    requires n in db.tables
    ensures var meta := db.tables[n];
            InsertRow(db, json, n, values, txid).world
            == Finished(db.world, db.nextLSN,
                        AppendOp(meta, Strip(meta.columns, values, txid), json.marshal(values), txid))
  {
  }

  lemma {:induction false} AppendOverwrites(w: Blocks, lsn: int, meta: Meta, next: Meta, strip: seq<string>,
                                            newValue: string, values: Values, txid: int64)
    requires lsn >= 1 && Loggable(AppendOp(meta, strip, newValue, txid), lsn)
    requires OffLog(AppendOp(meta, strip, newValue, txid)) && strip == Strip(meta.columns, values, txid)
    requires meta.yLevel == TABLE_Y && meta.zStart >= 0 && |strip| == meta.stripWidth
    requires next.yLevel == TABLE_Y && next.zStart == meta.zStart + meta.rowCount && next.stripWidth >= 4
    ensures var r := RowAt(Finished(w, lsn, AppendOp(meta, strip, newValue, txid)), next, 0);
            && r.Some? && r.value.xmin == txid && r.value.xmax == None
            && (next.columns == meta.columns && next.stripWidth == meta.stripWidth ==>
                  r.value == Row(txid, None, StoredColumns(meta.columns, values)))
  {
    NewRow(w, lsn, meta, strip, newValue, txid);
    FirstOverwritten(Finished(w, lsn, AppendOp(meta, strip, newValue, txid)), meta, next, values, txid);
  }

  lemma {:induction false} FirstOverwritten(w: Blocks, meta: Meta, next: Meta, values: Values, txid: int64)
    requires ReadStrip(w, meta.stripWidth, TABLE_Y, next.zStart) == Strip(meta.columns, values, txid)
    requires meta.stripWidth >= 4 && next.yLevel == TABLE_Y && next.stripWidth >= 4
    ensures var r := RowAt(w, next, 0);
            && r.Some? && r.value.xmin == txid && r.value.xmax == None
            && (next.columns == meta.columns && next.stripWidth == meta.stripWidth ==>
                  r.value == Row(txid, None, StoredColumns(meta.columns, values)))
  {
    HeadOverwritten(w, meta, next, meta.columns, values, txid, next.zStart);
    if next.columns == meta.columns && next.stripWidth == meta.stripWidth {
      WholeOverwritten(w, next, values, txid, Row(txid, None, StoredColumns(meta.columns, values)));
    }
  }

  lemma {:induction false} WholeOverwritten(w: Blocks, next: Meta, values: Values, txid: int64, row: Row)
    requires ReadStrip(w, next.stripWidth, next.yLevel, next.zStart) == Strip(next.columns, values, txid)
    requires row == Row(txid, None, StoredColumns(next.columns, values))
    ensures RowAt(w, next, 0) == Some(row)
  {
    StripReadsBack(next.columns, values, txid);
    FirstDecodes(w, next, Strip(next.columns, values, txid), row);
  }

  lemma {:induction false} FirstDecodes(w: Blocks, next: Meta, strip: seq<string>, row: Row)
    requires ReadStrip(w, next.stripWidth, next.yLevel, next.zStart) == strip && ReadsBack(strip, next.columns, row)
    ensures RowAt(w, next, 0) == Some(row)
  {
    StripDecodes(w, next, 0, strip, row);
    DecodesTo(w, next, 0, row);
  }

  lemma {:induction false} MarshalIsOneLine(json: Json, values: Values)
    requires Writable(json)
    ensures json.marshal(values) != "" && Free(json.marshal(values), '\n')
  {
  }

  lemma {:induction false} InsertLands(db: DB, ts: Tables, json: Json, name: string, strip: seq<string>,
                                       newValue: string, values: Values, txid: int64)
    requires Represents(db, ts, json) && Fits(db, 1) && name in db.tables && db.tables[name].rowCount < SPACING
    requires newValue != "" && Free(newValue, '\n') && strip == Strip(db.tables[name].columns, values, txid)
    ensures var op := AppendOp(db.tables[name], strip, newValue, txid);
            && AfterCommit(db.world, db.nextLSN, op).Some?
            && Landed(db, name, Finished(db.world, db.nextLSN, op),
                      Row(txid, None, StoredColumns(db.tables[name].columns, values)))
  {
    var meta, lsn := db.tables[name], db.nextLSN;
    var op := AppendOp(meta, strip, newValue, txid);
    PlacedFields(db, ts, json, name);
    InsertLoggable(db, ts, json, name, strip, newValue, txid);
    SequenceCommits(db.world, lsn, op);
    SequenceKeepsQuiet(db.world, lsn, op);
    NewRow(db.world, lsn, meta, strip, newValue, txid);
    NewRowDecodes(Finished(db.world, lsn, op), meta, values, txid);
  }
}
