/** The storage object: internal/storage/storage.go as code over a mutable block store, each method
    tied to the functions of module Store. */
module StorageCode {
  import opened GoText
  import opened World
  import opened Codec
  import opened LogEntry
  import opened Wal
  import opened Layout
  import opened Store
  import opened WriteSequence
  import opened MarkSteps

  ghost predicate IsInsertOp(op: LoggedOp, meta: Meta, m: Values, txid: int, json: Json) {
    forall k {:trigger Open(OfInsert, k)} :: Open(OfInsert, k) ==> op == InsertOp(meta, m, txid, json)
  }

  /** InsertRow's effect on the world, sealed. */
  ghost predicate InsertDone(w: Blocks, lsn: int, meta: Meta, m: Values, txid: int, json: Json, w': Blocks, ok: bool) {
    forall k {:trigger Open(OfInsert, k)} :: Open(OfInsert, k) ==>
      && w' == Finished(w, lsn, InsertOp(meta, m, txid, json))
      && ok == AfterCommit(w, lsn, InsertOp(meta, m, txid, json)).Some?
  }

  /** The worlds it goes through, sealed. */
  ghost predicate InsertTraced(told: seq<Blocks>, w: Blocks, lsn: int, meta: Meta, m: Values, txid: int, json: Json,
                               trace: seq<Blocks>)
  {
    forall k {:trigger Open(OfInsert, k)} :: Open(OfInsert, k) ==> trace == OpTrace(told, w, lsn, InsertOp(meta, m,
                                                                                    txid, json))
  }

  lemma {:induction false} OpIsDone(told: seq<Blocks>, w: Blocks, lsn: int, meta: Meta, m: Values, txid: int,
                                    json: Json,
                                    op: LoggedOp, w': Blocks, ok: bool, trace: seq<Blocks>)
    requires IsInsertOp(op, meta, m, txid, json)
    requires w' == Finished(w, lsn, op) && ok == AfterCommit(w, lsn, op).Some? && trace == OpTrace(told, w, lsn, op)
    ensures InsertDone(w, lsn, meta, m, txid, json, w', ok) && InsertTraced(told, w, lsn, meta, m, txid, json, trace)
  {
    assert Open(OfInsert, true);
  }

  class TableMeta {
    const id: int
    const name: string
    const yLevel: int
    const zStart: int
    const stripWidth: nat
    const columns: seq<Column>
    var rowCount: nat

    constructor (id: int, name: string, yLevel: int, zStart: int, stripWidth: nat, columns: seq<Column>)
      ensures Value() == Meta(id, name, yLevel, zStart, stripWidth, columns, 0)
    {
      this.id, this.name, this.yLevel, this.zStart := id, name, yLevel, zStart;
      this.stripWidth, this.columns, this.rowCount := stripWidth, columns, 0;
    }

    ghost function Value(): Meta
      reads this
    {
      Meta(id, name, yLevel, zStart, stripWidth, columns, rowCount)
    }
  }

  class Storage {
    const hal: Hal
    const log: Log
    const json: Json
    var tables: map<string, TableMeta>
    var nextCatalogZ: int
    var nextTableID: int
    ghost var metas: set<TableMeta>

    /** Each table is filed under its own name, so no object is filed twice. */
    ghost predicate Valid()
      reads `tables, `metas
    {
      && log.hal == hal
      && forall n | n in tables :: tables[n] in metas && tables[n].name == n
    }

    ghost function TablesValue(): map<string, Meta>
      requires Valid()
      reads `tables, `metas, metas
    {
      map name | name in tables :: tables[name].Value()
    }

    ghost function State(): DB
      requires Valid()
      reads this, hal, log, metas
    {
      DB(hal.store, log.nextLSN, TablesValue(), nextCatalogZ, nextTableID)
    }

    constructor (h: Hal, l: Log, j: Json)
      requires l.hal == h
      ensures Valid() && hal == h && log == l && json == j
      ensures State() == DB(h.store, l.nextLSN, map[], 0, 1)
    {
      hal, log, json := h, l, j;
      tables, nextCatalogZ, nextTableID, metas := map[], 0, 1, {};
    }

    /** The write sequence InsertRow and MarkDeleted share: entry, data, commit. */
    method WriteLogged(op: LoggedOp) returns (ok: bool)
      requires log.hal == hal
      modifies hal, log`nextLSN
      ensures log.nextLSN == old(log.nextLSN) + 1
      ensures hal.store == Finished(old(hal.store), old(log.nextLSN), op)
      ensures hal.trace == OpTrace(old(hal.trace), old(hal.store), old(log.nextLSN), op)
      ensures ok == AfterCommit(old(hal.store), old(log.nextLSN), op).Some?
    {
      var lsn := log.Append(op.txid, op.op, op.tableID, op.x, op.y, op.z, op.newValue);
      hal.BatchWrite(op.writes);
      ok := log.Commit(lsn);
    }

    method InsertRow(table: TableMeta, values: Values, txid: int64) returns (pos: Option<Pos>)
      requires log.hal == hal
      modifies hal, log`nextLSN, table`rowCount
      ensures table.rowCount == old(table.rowCount) + 1 && log.nextLSN == old(log.nextLSN) + 1
      ensures InsertDone(old(hal.store), old(log.nextLSN), old(table.Value()), values, txid, json, hal.store, pos.Some?)
      ensures InsertTraced(old(hal.trace), old(hal.store), old(log.nextLSN), old(table.Value()), values, txid, json,
                           hal.trace)
      ensures pos.Some? ==> pos.value == Pos(0, table.yLevel, table.zStart + old(table.rowCount))
    {
      ghost var meta, w, lsn, told := table.Value(), hal.store, log.nextLSN, hal.trace;
      var z := table.zStart + table.rowCount;
      table.rowCount := table.rowCount + 1;
      var op := BuildInsert(table, z, values, txid, meta);
      var ok := WriteLogged(op);
      OpIsDone(told, w, lsn, meta, values, txid, json, op, hal.store, ok, hal.trace);
      pos := if ok then Some(Pos(0, table.yLevel, z)) else None;
    }

    /** The blocks and the log entry of one row at z. */
    method BuildInsert(table: TableMeta, z: int, values: Values, txid: int64, ghost meta: Meta) returns (op: LoggedOp)
      requires meta == table.Value().(rowCount := meta.rowCount) && z == meta.zStart + meta.rowCount
      ensures IsInsertOp(op, meta, values, txid, json)
    {
      var writes := BuildStripWrites(table.columns, values, txid, table.yLevel, z);
      op := LoggedOp(txid, INSERT, table.id, 0, table.yLevel, z, json.marshal(values), writes);
      InsertOpIs(meta, values, txid, json, z, writes);
    }

    method ReadBlocks(width: nat, y: int, z: int) returns (data: seq<string>)
      ensures data == ReadStrip(hal.store, width, y, z)
    {
      var positions := [];
      for ox := 0 to width
        invariant |positions| == ox && forall k | 0 <= k < ox :: positions[k] == Pos(k, y, z)
      {
        positions := positions + [Pos(ox, y, z)];
      }
      data := hal.BatchRead(positions);
    }

    method ReadRow(table: TableMeta, ri: int) returns (row: Option<Row>)
      ensures row == RowAt(hal.store, table.Value(), ri)
    {
      var data := ReadBlocks(table.stripWidth, table.yLevel, table.zStart + ri);
      row := DecodeSlot(data, table.columns);
      RowOfRead(hal.store, table.Value(), ri, data);
    }

    /** One turn of the scan goroutine's loop. */
    method ReadSlot(table: TableMeta, ri: int, txid: int64) returns (r: Option<Scanned>)
      ensures r == ScanSlot(hal.store, table.Value(), ri, txid)
    {
      var row := ReadRow(table, ri);
      r := Seen(row, Pos(0, table.yLevel, table.zStart + ri), txid);
      ScanSlotIs(hal.store, table.Value(), ri, txid);
    }

    /** The scan with nothing else running: the rows txid sees, in slot order. */
    method SeqScan(table: TableMeta, txid: int64) returns (rows: seq<Scanned>)
      ensures rows == Scan(hal.store, table.Value(), txid, table.rowCount)
    {
      rows := [];
      for ri := 0 to table.rowCount
        invariant rows == Scan(hal.store, table.Value(), txid, ri)
      {
        var r := ReadSlot(table, ri, txid);
        if r.Some? {
          rows := rows + [r.value];
        }
      }
    }

    method MarkDeleted(pos: Pos, txid: int64) returns (ok: bool)
      requires log.hal == hal
      modifies hal, log`nextLSN
      ensures var m := Mark(Marks(old(hal.store), old(log.nextLSN), true), pos, txid);
              hal.store == m.world && log.nextLSN == m.lsn && ok == m.ok
      ensures hal.trace == MarkTrace(old(hal.trace), Marks(old(hal.store), old(log.nextLSN), true), pos, txid)
    {
      ghost var m, told := Marks(hal.store, log.nextLSN, true), hal.trace;
      var k := Asked(pos);
      ok := true;
      MarkBegins(m, told, pos, txid);
      while !k.Free?
        invariant k.Free? ==> MarkEnds(m, told, pos, txid, Marks(hal.store, log.nextLSN, ok), hal.trace)
        invariant !k.Free? ==> k.pos == pos && MidMark(m, told, txid, k, hal.store, log.nextLSN, hal.trace)
        decreases Rank(k)
      {
        k, ok := StepMark(k, txid, m, told);
      }
      assert Open(OfMark, true);
    }

    /** One HAL request of MarkDeleted. Nothing but these requests touches the world, so between any two
        of them somebody else may read it. */
    method StepMark(k: Marker, txid: int64, ghost m: Marks, ghost told: seq<Blocks>) returns (k': Marker, ok: bool)
      requires log.hal == hal && !k.Free? && MidMark(m, told, txid, k, hal.store, log.nextLSN, hal.trace)
      modifies hal, log`nextLSN
      ensures Rank(k') < Rank(k)
      ensures k'.Free? ==> MarkEnds(m, told, k.pos, txid, Marks(hal.store, log.nextLSN, ok), hal.trace)
      ensures !k'.Free? ==>
                ok && k'.pos == k.pos && MidMark(m, told, txid, k', hal.store, log.nextLSN, hal.trace)
    {
      match k
      case Asked(pos) =>
        var xmax0 := hal.ReadBlock(Pos(2, pos.y, pos.z));
        HalfRead(m, told, txid, pos, hal.store, log.nextLSN, hal.trace);
        k', ok := Half(pos, xmax0), true;
      case Half(pos, xmax0) =>
        var xmax1 := hal.ReadBlock(Pos(3, pos.y, pos.z));
        BothRead(m, told, txid, pos, xmax0, hal.store, log.nextLSN, hal.trace);
        if xmax0 == "" || xmax1 == "" {
          k', ok := Free, false;
        } else {
          k', ok := Checked(pos), true;
        }
      case Checked(pos) => k', ok := EnterMark(pos, txid, m, told);
      case Entered(pos, lsn) => k', ok := WriteMark(pos, lsn, txid, m, told);
      case Wrote(pos, lsn) =>
        var book := hal.ReadBlock(Lectern(lsn));
        BookReread(m, told, txid, pos, lsn, hal.store, log.nextLSN, hal.trace);
        k', ok := Reread(pos, lsn, book), true;
      case Reread(pos, lsn, book) => k', ok := CommitMark(pos, lsn, book, txid, m, told);
    }

    method EnterMark(pos: Pos, txid: int64, ghost m: Marks, ghost told: seq<Blocks>) returns (k: Marker, ok: bool)
      requires log.hal == hal && MidMark(m, told, txid, Checked(pos), hal.store, log.nextLSN, hal.trace)
      modifies hal, log`nextLSN
      ensures ok && k == Entered(pos, m.lsn) && MidMark(m, told, txid, k, hal.store, log.nextLSN, hal.trace)
    {
      ghost var w, next, trace := hal.store, log.nextLSN, hal.trace;
      var tableID := TruncDiv(pos.z, SPACING) + 1;
      var lsn := log.Append(txid, UPDATE_XMAX, tableID, pos.x, pos.y, pos.z, Itoa(txid));
      ghost var e := Entry(next, txid, PENDING, UPDATE_XMAX, tableID, pos.x, pos.y, pos.z, Itoa(txid));
      EntryPersisted(m, told, txid, pos, w, next, trace, e, hal.store, hal.trace);
      k, ok := Entered(pos, lsn), true;
    }

    method WriteMark(pos: Pos, lsn: int, txid: int64, ghost m: Marks, ghost told: seq<Blocks>) returns (k: Marker,
                                                                                                        ok: bool)
      requires log.hal == hal && MidMark(m, told, txid, Entered(pos, lsn), hal.store, log.nextLSN, hal.trace)
      modifies hal
      ensures ok && k == Wrote(pos, lsn) && MidMark(m, told, txid, k, hal.store, log.nextLSN, hal.trace)
    {
      assert Open(OfMark, true);
      var s1, s2 := EncodeInt64(txid);
      var writes := [BlockWrite(Pos(2, pos.y, pos.z), s1), BlockWrite(Pos(3, pos.y, pos.z), s2)];
      assert writes == DeleteOp(pos, txid).writes;
      hal.BatchWrite(writes);
      k, ok := Wrote(pos, lsn), true;
    }

    method CommitMark(pos: Pos, lsn: int, book: string, txid: int64, ghost m: Marks, ghost told: seq<Blocks>)
      returns (k: Marker, ok: bool)
      requires log.hal == hal && MidMark(m, told, txid, Reread(pos, lsn, book), hal.store, log.nextLSN, hal.trace)
      modifies hal
      ensures k == Free && MarkEnds(m, told, pos, txid, Marks(hal.store, log.nextLSN, ok), hal.trace)
    {
      assert Open(OfMark, true);
      ok := log.CommitBook(lsn, book);
      k := Free;
    }

    /** A new table object, filed under its name. */
    method FileTable(id: int, name: string, zStart: int, stripW: nat, cols: seq<Column>)
      requires Valid()
      modifies `tables, `metas
      ensures Valid() && fresh(metas - old(metas))
      ensures TablesValue() == old(TablesValue())[name := Meta(id, name, TABLE_Y, zStart, stripW, cols, 0)]
    {
      var meta := new TableMeta(id, name, TABLE_Y, zStart, stripW, cols);
      tables, metas := tables[name := meta], metas + {meta};
      assert TablesValue() == old(TablesValue())[name := meta.Value()];
    }

    method CreateTable(name: string, cols: seq<Column>) returns (ok: bool)
      requires Valid()
      modifies this, hal
      ensures Valid() && ok == (name !in old(tables))
      ensures fresh(metas - old(metas))
      ensures State() == if ok then Store.CreateTable(old(State()), json, name, cols) else old(State())
      ensures hal.trace == if ok then old(hal.trace) + [hal.store] else old(hal.trace)
    {
      if name in tables {
        return false;
      }
      AddTable(name, cols);
      ok := true;
    }

    method WriteCatalog(data: string)
      requires Valid()
      modifies `nextCatalogZ, hal
      ensures Valid() && TablesValue() == old(TablesValue()) && nextCatalogZ == old(nextCatalogZ) + 1
      ensures hal.store == Put(old(hal.store), CatalogPos(old(nextCatalogZ)), data)
      ensures hal.trace == old(hal.trace) + [hal.store]
    {
      var catalogZ := nextCatalogZ;
      nextCatalogZ := nextCatalogZ + 1;
      hal.WriteBlock(CatalogPos(catalogZ), data);
    }

    method AddTable(name: string, cols: seq<Column>)
      requires Valid() && name !in tables
      modifies this, hal
      ensures Valid() && fresh(metas - old(metas))
      ensures State() == Store.CreateTable(old(State()), json, name, cols)
      ensures hal.trace == old(hal.trace) + [hal.store]
    {
      ghost var db := State();
      var id := nextTableID;
      var zStart := (id - 1) * SPACING;
      var stripW := ComputeStripWidth(cols);
      WriteCatalog(json.encode(CatalogRow(id, name, TABLE_Y, cols)));
      FileTable(id, name, zStart, stripW, cols);
      nextTableID := nextTableID + 1;
      CreatedIs(db, json, name, cols, zStart, stripW, hal.store, TablesValue());
    }

    method GetTable(name: string) returns (table: Option<TableMeta>)
      ensures table == if name in tables then Some(tables[name]) else None
    {
      if name in tables {
        return Some(tables[name]);
      }
      table := None;
    }

    method LoadCatalog()
      requires Valid()
      modifies this
      ensures Valid() && fresh(metas - old(metas))
      ensures var l := CatalogOf(hal.store, json, old(TablesValue()));
              && TablesValue() == l.tables && nextCatalogZ == l.lastZ
              && nextTableID == if l.maxTableID >= old(nextTableID) then l.maxTableID + 1 else old(nextTableID)
    {
      var maxTableID, lastZ := ScanCatalog();
      nextCatalogZ := lastZ;
      if maxTableID >= nextTableID {
        nextTableID := maxTableID + 1;
      }
    }

    /** The loop of LoadCatalog. */
    method ScanCatalog() returns (maxTableID: int, lastZ: int)
      requires Valid()
      modifies `tables, `metas
      ensures Valid() && fresh(metas - old(metas))
      ensures Loaded(TablesValue(), maxTableID, lastZ) == CatalogOf(hal.store, json, old(TablesValue()))
    {
      maxTableID, lastZ := 0, 0;
      ghost var n := CatalogLength(hal.store, 0);
      ghost var l := Loaded(TablesValue(), 0, 0);
      var z := 0;
      while z < MAX_CATALOG_Z
        invariant 0 <= z <= n == CatalogLength(hal.store, z)
        invariant Valid() && fresh(metas - old(metas))
        invariant l == LoadTo(hal.store, json, old(TablesValue()), z)
        invariant l == Loaded(TablesValue(), maxTableID, lastZ)
      {
        var data := hal.ReadBlock(CatalogPos(z));
        if data == "" {
          lastZ := z;
          break;
        }
        maxTableID, lastZ := LoadOne(z, data, maxTableID, lastZ);
        l := LoadRow(hal.store, json, l, z);
        z := z + 1;
      }
    }

    /** One turn of LoadCatalog's loop on a non-empty block. */
    method LoadOne(z: int, data: string, maxTableID: int, lastZ: int) returns (maxTableID': int, lastZ': int)
      requires Valid() && data == Get(hal.store, CatalogPos(z))
      modifies `tables, `metas
      ensures Valid() && fresh(metas - old(metas))
      ensures Loaded(TablesValue(), maxTableID', lastZ')
              == LoadRow(hal.store, json, Loaded(old(TablesValue()), maxTableID, lastZ), z)
    {
      maxTableID', lastZ' := maxTableID, lastZ;
      var r := json.decode(data);
      if r.None? || r.value.name == "" {
        return;
      }
      var stripW := ComputeStripWidth(r.value.columns);
      var zStart := (r.value.tableID - 1) * SPACING;
      FileTable(r.value.tableID, r.value.name, zStart, stripW, r.value.columns);
      if r.value.tableID > maxTableID {
        maxTableID' := r.value.tableID;
      }
      if z + 1 > lastZ {
        lastZ' := z + 1;
      }
    }
  }

  lemma {:induction false} CreatedIs(db: DB, json: Json, name: string, cols: seq<Column>, zStart: int, stripW: nat,
                                     w: Blocks,
                                     tables: map<string, Meta>)
    requires name !in db.tables && zStart == (db.nextTableID - 1) * SPACING && stripW == StripWidth(cols)
    requires w == Put(db.world, CatalogPos(db.nextCatalogZ), json.encode(CatalogRow(db.nextTableID, name, TABLE_Y,
                      cols)))
    requires tables == db.tables[name := Meta(db.nextTableID, name, TABLE_Y, zStart, stripW, cols, 0)]
    ensures Store.CreateTable(db, json, name, cols)
            == DB(w, db.nextLSN, tables, db.nextCatalogZ + 1, db.nextTableID + 1)
  {
  }

  lemma {:induction false} ScanSlotIs(w: Blocks, meta: Meta, ri: int, txid: int)
    ensures ScanSlot(w, meta, ri, txid) == Seen(RowAt(w, meta, ri), Pos(0, meta.yLevel, meta.zStart + ri), txid)
  {
  }

  lemma {:induction false} InsertOpIs(meta: Meta, values: Values, txid: int, json: Json, z: int,
                                      writes: seq<BlockWrite>)
    requires z == meta.zStart + meta.rowCount
    requires writes == StripWrites(Strip(meta.columns, values, txid), meta.yLevel, z)
    ensures IsInsertOp(LoggedOp(txid, INSERT, meta.id, 0, meta.yLevel, z, json.marshal(values), writes), meta, values,
                       txid,
                       json)
  {
    AppendOpIs(meta, Strip(meta.columns, values, txid), json.marshal(values), txid, z);
  }

  lemma {:induction false} AppendOpIs(meta: Meta, strip: seq<string>, newValue: string, txid: int, z: int)
    requires z == meta.zStart + meta.rowCount
    ensures AppendOp(meta, strip, newValue, txid)
            == LoggedOp(txid, INSERT, meta.id, 0, meta.yLevel, z, newValue, StripWrites(strip, meta.yLevel, z))
  {
  }

  method IsEmptyStrip(data: seq<string>) returns (empty: bool)
    ensures empty <==> forall i | 0 <= i < |data| :: data[i] == ""
  {
    for i := 0 to |data|
      invariant forall k | 0 <= k < i :: data[k] == ""
    {
      if data[i] != "" {
        return false;
      }
    }
    empty := true;
  }

  method DecodeSlot(data: seq<string>, cols: seq<Column>) returns (row: Option<Row>)
    ensures row == DecodeStrip(data, cols)
  {
    var empty := IsEmptyStrip(data);
    if empty {
      EmptyStripIsNoRow(data, cols);
      return None;
    }
    row := DecodeStripBlocks(data, cols);
  }
}
