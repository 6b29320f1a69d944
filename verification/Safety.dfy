/** Crash safety of whole runs: stopped after any write and recovered, the blocks hold every version that
    was there, and no version that never was. */
module Safety {
  import opened GoText
  import opened World
  import opened Wal
  import opened Layout
  import opened Store
  import opened WriteSequence
  import opened Crash
  import opened Query
  import opened Refine
  import opened RefineDelete
  import opened Catalog
  import opened Engine
  import opened Vacancy
  import opened CrashRuns

  // ----- slots beyond the rows -----

  /** A slot of a table in which it has no row. */
  predicate IsVacant(db: DB, n: string, ri: nat)
    requires n in db.tables
  {
    db.tables[n].rowCount <= ri < SPACING
  }

  lemma {:induction false} NobodyOwns(db: DB, ts: Tables, json: Json, n: string, ri: nat)
    requires Represents(db, ts, json) && n in db.tables && IsVacant(db, n, ri)
    ensures !Owned(db.tables, db.tables[n].zStart + ri)
  {
    forall m | m in db.tables ensures !InRows(db.tables[m], db.tables[n].zStart + ri) {
      PlacedFields(db, ts, json, m);
      if m != n {
        TablesAreDisjoint(db, ts, json, n, m, db.tables[n].zStart + ri);
      }
    }
  }

  lemma {:induction false} NoBlocksNoRow(w: Blocks, meta: Meta, ri: int)
    requires forall x | 0 <= x < meta.stripWidth :: BlockAt(w, meta, ri, x) == ""
    ensures RowAt(w, meta, ri).None?
  {
    var data := ReadStrip(w, meta.stripWidth, meta.yLevel, meta.zStart + ri);
    forall x | 0 <= x < |data| ensures data[x] == "" {
      assert BlockAt(w, meta, ri, x) == "";
    }
    EmptyStripIsNoRow(data, meta.columns);
    RowOfStrip(w, meta.stripWidth, meta.yLevel, meta.zStart + ri, meta.columns, data);
  }

  lemma {:induction false} UnownedIsNoRow(w: Blocks, tables: map<string, Meta>, meta: Meta, ri: int)
    requires Tidy(w, tables) && meta.yLevel == TABLE_Y && meta.zStart + ri >= 0 && !Owned(tables, meta.zStart + ri)
    ensures RowAt(w, meta, ri).None?
  {
    forall x | 0 <= x < meta.stripWidth ensures BlockAt(w, meta, ri, x) == "" {
      var p := SlotPos(meta, ri, x);
      assert Get(w, p) != "" ==> Owned(tables, p.z);
    }
    NoBlocksNoRow(w, meta, ri);
  }

  /** In a tidy world no such slot reads as a row. */
  lemma {:induction false} VacantSlot(db: DB, ts: Tables, json: Json, w: Blocks, n: string, ri: nat)
    requires Represents(db, ts, json) && Tidy(w, db.tables) && n in db.tables && IsVacant(db, n, ri)
    ensures RowAt(w, db.tables[n], ri).None?
  {
    PlacedFields(db, ts, json, n);
    NobodyOwns(db, ts, json, n, ri);
    UnownedIsNoRow(w, db.tables, db.tables[n], ri);
  }

  // ----- a crash in an INSERT -----

  /** The row an INSERT is about to write, and its slot. */
  function Coming(db: DB, stmt: Stmt, txid: int): (r: Option<Row>) {
    if stmt.InsertStmt? && stmt.table in db.tables then
      var cols := db.tables[stmt.table].columns;
      Some(Row(txid, None, StoredColumns(cols, InsertValues(cols, stmt.names, stmt.values))))
    else None
  }

  predicate IsNext(db: DB, stmt: Stmt, n: string, ri: nat) {
    stmt.InsertStmt? && n == stmt.table && n in db.tables && ri == db.tables[n].rowCount
  }

  /** After the INSERT its slot holds the row, and the other slots are vacant as before. */
  lemma {:induction false} VacantAfterInsert(db: DB, ts: Tables, json: Json, name: string, values: Values, txid: int64,
                                             n: string, ri: nat)
    requires Writable(json) && Represents(db, ts, json) && Fits(db, 1) && Tidy(db.world, db.tables)
    requires name in db.tables && db.tables[name].rowCount < SPACING && n in db.tables && IsVacant(db, n, ri)
    ensures RowAt(InsertRow(db, json, name, values, txid).world, db.tables[n], ri)
            == if n == name && ri == db.tables[name].rowCount
               then Some(Row(txid, None, StoredColumns(db.tables[name].columns, values))) else None
  {
    var db' := InsertRow(db, json, name, values, txid);
    var ts' := ts.(byName := ts.byName[name := Inserted(ts.byName[name], values, txid)]);
    InsertRefines(db, ts, json, name, values, txid);
    InsertTidy(db, ts, json, name, values, txid);
    InsertIsGrown(db, json, name, values, txid);
    PlacedFields(db, ts, json, name);
    VacantInGrown(db, db', ts', json, name, n, ri);
  }

  lemma {:induction false} VacantInGrown(db: DB, db': DB, ts': Tables, json: Json, name: string, n: string, ri: nat)
    requires name in db.tables && db' == Grown(db, name, db'.world) && n in db.tables && IsVacant(db, n, ri)
    requires Represents(db', ts', json) && Tidy(db'.world, db'.tables)
    ensures name in ts'.byName && db.tables[name].rowCount < |ts'.byName[name].rows|
    ensures RowAt(db'.world, db.tables[n], ri)
            == if n == name && ri == db.tables[name].rowCount then Some(ts'.byName[name].rows[ri]) else None
  {
    PlacedFields(db', ts', json, name);
    RowIgnoresCount(db'.world, db.tables[n], db'.tables[n].rowCount, ri);
    if n == name && ri == db.tables[name].rowCount {
      RowIs(db', ts', json, name, ri);
    } else {
      VacantSlot(db', ts', json, db'.world, n, ri);
    }
  }

  lemma {:induction false} RowIs(db: DB, ts: Tables, json: Json, name: string, ri: nat)
    requires Represents(db, ts, json) && name in db.tables && ri < db.tables[name].rowCount
    ensures name in ts.byName && ri < |ts.byName[name].rows|
    ensures RowAt(db.world, db.tables[name], ri) == Some(ts.byName[name].rows[ri])
  {
    PlacedFields(db, ts, json, name);
    DecodesTo(db.world, db.tables[name], ri, ts.byName[name].rows[ri]);
    assert Decodes(db.world, db.tables[name], ri, ts.byName[name].rows[ri]);
  }

  lemma {:induction false} CrashInInsertSlot(db: DB, ts: Tables, json: Json, name: string, values: Values, txid: int64,
                                             steps: nat, n: string, ri: nat)
    requires Writable(json) && Represents(db, ts, json) && Fits(db, 1) && Tidy(db.world, db.tables)
    requires name in db.tables && db.tables[name].rowCount < SPACING && n in db.tables && IsVacant(db, n, ri)
    ensures var w := CrashWorld(db.world, db.nextLSN, InsertOp(db.tables[name], values, txid, json), steps);
            var r := RowAt(Recovered(w), db.tables[n], ri);
            r.None? || (n == name && ri == db.tables[name].rowCount
                        && r == Some(Row(txid, None, StoredColumns(db.tables[name].columns, values))))
  {
    var meta := db.tables[name];
    var strip, newValue := Strip(meta.columns, values, txid), json.marshal(values);
    PlacedFields(db, ts, json, n);
    MarshalIsOneLine(json, values);
    InsertLoggable(db, ts, json, name, strip, newValue, txid);
    InsertIsAtomic(db.world, db.nextLSN, InsertOp(meta, values, txid, json), steps, db.tables[n], ri);
    InsertedWorld(db, json, name, values, txid);
    VacantSlot(db, ts, json, db.world, n, ri);
    VacantAfterInsert(db, ts, json, name, values, txid, n, ri);
  }

  // ----- a crash in a DELETE -----

  lemma {:induction false} MarkedVacant(w: Blocks, lsn: int, m: Marks, tables: map<string, Meta>, name: string,
                                        rows: seq<Row>, keep: Row -> bool, txid: int, k: nat, meta: Meta, ri: nat)
    requires name in tables && Marking(w, lsn, m, tables[name], rows, keep, txid, k) && k <= tables[name].rowCount
    requires Tidy(w, tables) && meta.yLevel == TABLE_Y && meta.zStart >= 0 && !Owned(tables, meta.zStart + ri)
    ensures RowAt(m.world, meta, ri).None?
  {
    MarkedTidy(w, m.world, name, tables);
    UnownedIsNoRow(m.world, tables, meta, ri);
  }

  lemma {:induction false} CrashInMarkSlot(w: Blocks, lsn: int, pos: Pos, txid: int64, steps: nat, f: Blocks,
                                           meta: Meta, ri: nat)
    requires Quiet(w, lsn) && IsInt64(lsn) && pos.x == 0 && pos.y == TABLE_Y && pos.z >= 0 && IsInt64(pos.z)
    requires meta.zStart >= 0 && meta.stripWidth >= 4 && IsFinished(w, lsn, pos, txid, f)
    requires RowAt(w, meta, ri).None? && RowAt(f, meta, ri).None?
    ensures RowAt(Recovered(CrashWorld(w, lsn, DeleteOp(pos, txid), steps)), meta, ri).None?
  {
    assert Open(OfStage, true);
    DeleteIsLoggable(pos, txid, lsn);
    DeleteIsAtomic(w, lsn, pos, txid, steps, meta, ri);
  }

  lemma {:induction false} CrashAtMark(w: Blocks, lsn: int, m: Marks, tables: map<string, Meta>, name: string,
                                       rows: seq<Row>, keep: Row -> bool, txid: int64, k: nat, steps: nat, meta: Meta,
                                       ri: nat)
    requires name in tables && Marking(w, lsn, m, tables[name], rows, keep, txid, k) && TableShape(tables[name])
    requires k < |rows| == tables[name].rowCount && IsVisible(rows[k], txid) && keep(rows[k])
    requires IsInt64(lsn + |rows|) && IsInt64(tables[name].zStart + |rows|)
    requires Tidy(w, tables) && TableShape(meta) && !Owned(tables, meta.zStart + ri)
    ensures var pos := Pos(0, tables[name].yLevel, tables[name].zStart + k);
            RowAt(Recovered(CrashWorld(m.world, m.lsn, DeleteOp(pos, txid), steps)), meta, ri).None?
  {
    var m' := NextMarking(w, lsn, m, tables[name], rows, keep, txid, k);
    MarkedVacant(w, lsn, m, tables, name, rows, keep, txid, k, meta, ri);
    MarkedVacant(w, lsn, m', tables, name, rows, keep, txid, k + 1, meta, ri);
    CrashInMarkSlot(m.world, m.lsn, Pos(0, tables[name].yLevel, tables[name].zStart + k), txid, steps, m'.world, meta,
                    ri);
  }

  lemma {:induction false} CrashInDeleteSlot(db: DB, ts: Tables, json: Json, name: string, keep: Row -> bool,
                                             txid: int64, k: nat, steps: nat, n: string, ri: nat)
    returns (v: Blocks)
    requires Represents(db, ts, json) && Fits(db, SPACING) && Tidy(db.world, db.tables) && name in db.tables
    requires k <= db.tables[name].rowCount && n in db.tables && IsVacant(db, n, ri)
    ensures IsMidway(db, name, keep, txid, k, steps, v) && RowAt(Recovered(v), db.tables[n], ri).None?
  {
    PlacedFields(db, ts, json, name);
    PlacedFields(db, ts, json, n);
    NobodyOwns(db, ts, json, n, ri);
    var m := MarkingReached(db, ts, json, name, keep, txid, k);
    v := MidDeleteSlot(db, m, name, ts.byName[name].rows, keep, txid, k, steps, db.tables[n], ri);
  }

  lemma {:induction false} MidDeleteSlot(db: DB, m: Marks, name: string, rows: seq<Row>, keep: Row -> bool, txid: int64,
                                         k: nat, steps: nat, meta: Meta, ri: nat)
    returns (v: Blocks)
    requires name in db.tables && TableShape(db.tables[name]) && Stored(db.world, db.tables[name], rows)
    requires k <= |rows| == db.tables[name].rowCount
    requires m == AllMarked(db.world, db.nextLSN, db.tables[name], keep, txid, k)
    requires Marking(db.world, db.nextLSN, m, db.tables[name], rows, keep, txid, k)
    requires IsInt64(db.nextLSN + |rows|) && IsInt64(db.tables[name].zStart + |rows|)
    requires Tidy(db.world, db.tables) && TableShape(meta) && !Owned(db.tables, meta.zStart + ri)
    ensures IsMidway(db, name, keep, txid, k, steps, v) && RowAt(Recovered(v), meta, ri).None?
  {
    v := MidDeleteCases(db, m, name, rows, keep, txid, k, steps);
    CaseSlot(db.world, db.nextLSN, m, db.tables, name, rows, keep, txid, k, steps, meta, ri, v);
  }

  lemma {:induction false} CaseSlot(w: Blocks, lsn: int, m: Marks, tables: map<string, Meta>, name: string,
                                    rows: seq<Row>, keep: Row -> bool, txid: int64, k: nat, steps: nat, meta: Meta,
                                    ri: nat, v: Blocks)
    requires name in tables && Marking(w, lsn, m, tables[name], rows, keep, txid, k) && TableShape(tables[name])
    requires k <= |rows| == tables[name].rowCount
    requires IsInt64(lsn + |rows|) && IsInt64(tables[name].zStart + |rows|)
    requires Tidy(w, tables) && TableShape(meta) && !Owned(tables, meta.zStart + ri)
    requires IsCase(m, tables[name], rows, keep, txid, k, steps, v)
    ensures RowAt(Recovered(v), meta, ri).None?
  {
    assert Open(OfMark, true);
    if k < |rows| && IsVisible(rows[k], txid) && keep(rows[k]) {
      CrashAtMark(w, lsn, m, tables, name, rows, keep, txid, k, steps, meta, ri);
    } else {
      MarkedVacant(w, lsn, m, tables, name, rows, keep, txid, k, meta, ri);
      QuietLength(m.world, m.lsn);
    }
  }

  /** Where the DELETE stands, sealed. */
  ghost predicate IsMidway(db: DB, name: string, keep: Row -> bool, txid: int, k: nat, steps: nat, v: Blocks)
    requires name in db.tables
  {
    forall b {:trigger Open(OfMark, b)} :: Open(OfMark, b) ==> v == MidDelete(db, name, keep, txid, k, steps)
  }

  /** Slot k of the DELETE crashes after so many steps, if it is to be marked; sealed. */
  ghost predicate IsCase(m: Marks, meta: Meta, rows: seq<Row>, keep: Row -> bool, txid: int, k: nat, steps: nat,
                         v: Blocks)
  {
    forall b {:trigger Open(OfMark, b)} :: Open(OfMark, b) ==>
      v == if k < |rows| && IsVisible(rows[k], txid) && keep(rows[k])
           then CrashWorld(m.world, m.lsn, DeleteOp(Pos(0, meta.yLevel, meta.zStart + k), txid), steps) else m.world
  }

  lemma {:induction false} MidDeleteCases(db: DB, m: Marks, name: string, rows: seq<Row>, keep: Row -> bool,
                                          txid: int64, k: nat, steps: nat)
    returns (v: Blocks)
    requires name in db.tables && Stored(db.world, db.tables[name], rows) && k <= |rows| == db.tables[name].rowCount
    requires m == AllMarked(db.world, db.nextLSN, db.tables[name], keep, txid, k)
    ensures IsMidway(db, name, keep, txid, k, steps, v) && IsCase(m, db.tables[name], rows, keep, txid, k, steps, v)
  {
    if k < |rows| {
      assert Decodes(db.world, db.tables[name], k, rows[k]);
      ScanSlotOf(db.world, db.tables[name], k, rows[k], txid);
    }
    v := MidDelete(db, name, keep, txid, k, steps);
  }

  // ----- any statement -----

  /** The slot reads as no row, or it is the one the running INSERT fills and reads as its row. */
  ghost predicate SlotSafe(db: DB, stmt: Stmt, txid: int, w: Blocks, n: string, ri: nat)
    requires n in db.tables
  {
    var r := RowAt(w, db.tables[n], ri);
    r.None? || (IsNext(db, stmt, n, ri) && r == Coming(db, stmt, txid))
  }

  /** Every version in the tables reads, in this world, as before the statement or as after it, and the
      vacant slots hold at most the row of the INSERT that was running. */
  ghost predicate Safe(db: DB, ts: Tables, floats: Floats, stmt: Stmt, txid: int, w: Blocks) {
    && (forall n, ri: nat | n in ts.byName && ri < |ts.byName[n].rows| ::
          VersionSafe(db, ts, floats, stmt, txid, w, n, ri))
    && (forall n, ri: nat | n in db.tables && IsVacant(db, n, ri) :: SlotSafe(db, stmt, txid, w, n, ri))
  }

  ghost predicate VersionSafe(db: DB, ts: Tables, floats: Floats, stmt: Stmt, txid: int, w: Blocks, n: string, ri: nat)
    requires n in ts.byName && ri < |ts.byName[n].rows|
  {
    n in db.tables && OneOf(w, db.tables[n], ri, ts.byName[n].rows[ri], Fate(ts, floats, stmt, txid, n, ri))
  }

  lemma {:induction false} CrashInCreateSlot(db: DB, ts: Tables, json: Json, name: string, cols: seq<Column>, n: string,
                                             ri: nat)
    requires Represents(db, ts, json) && Tidy(db.world, db.tables) && name !in db.tables
    requires n in db.tables && IsVacant(db, n, ri)
    ensures RowAt(Recovered(CreateTable(db, json, name, cols).world), db.tables[n], ri).None?
  {
    var db' := CreateTable(db, json, name, cols);
    QuietOffCatalog(db.world, db'.world, db.nextCatalogZ, db.nextLSN);
    QuietLength(db'.world, db.nextLSN);
    forall p: Pos | p.y == TABLE_Y && p.z >= 0 && Get(db'.world, p) != "" ensures Owned(db.tables, p.z) {
      assert Get(db.world, p) != "";
    }
    VacantSlot(db, ts, json, db'.world, n, ri);
  }

  lemma {:induction false} InsertSlotIsSafe(db: DB, ts: Tables, json: Json, stmt: Stmt, txid: int64, steps: nat,
                                            n: string, ri: nat)
    requires Writable(json) && Represents(db, ts, json) && Fits(db, SPACING) && Tidy(db.world, db.tables)
    requires stmt.InsertStmt? && stmt.table in db.tables && db.tables[stmt.table].rowCount < SPACING
    requires n in db.tables && IsVacant(db, n, ri)
    ensures var meta := db.tables[stmt.table];
            var op := InsertOp(meta, InsertValues(meta.columns, stmt.names, stmt.values), txid, json);
            SlotSafe(db, stmt, txid, Recovered(CrashWorld(db.world, db.nextLSN, op, steps)), n, ri)
  {
    var values := InsertValues(db.tables[stmt.table].columns, stmt.names, stmt.values);
    CrashInInsertSlot(db, ts, json, stmt.table, values, txid, steps, n, ri);
  }

  lemma {:induction false} MidwaySlot(db: DB, ts: Tables, json: Json, floats: Floats, stmt: Stmt, txid: int64, k: nat,
                                      steps: nat, n: string, ri: nat)
    requires Writable(json) && Represents(db, ts, json) && Fits(db, SPACING) && Room(ts, stmt)
    requires Tidy(db.world, db.tables) && n in db.tables && IsVacant(db, n, ri)
    requires stmt.DeleteStmt? && stmt.table in db.tables ==> k <= db.tables[stmt.table].rowCount
    ensures SlotSafe(db, stmt, txid, Recovered(Midway(db, json, floats, stmt, txid, k, steps)), n, ri)
  {
    if stmt.DeleteStmt? && stmt.table in db.tables {
      var keep := Keep(db.tables[stmt.table].columns, stmt.where, floats);
      var v := CrashInDeleteSlot(db, ts, json, stmt.table, keep, txid, k, steps, n, ri);
      assert Open(OfMark, true);
    } else if stmt.InsertStmt? && stmt.table in db.tables {
      SameColumns(db, ts, json, stmt.table);
      InsertSlotIsSafe(db, ts, json, stmt, txid, steps, n, ri);
    } else if stmt.CreateStmt? && stmt.table !in db.tables && steps > 0 {
      CrashInCreateSlot(db, ts, json, stmt.table, Columns(stmt.specs), n, ri);
    } else {
      VacantSlot(db, ts, json, db.world, n, ri);
      QuietLength(db.world, db.nextLSN);
    }
  }

  lemma {:induction false} MidwayIsSafe(db: DB, ts: Tables, json: Json, floats: Floats, stmt: Stmt, txid: int64, k: nat,
                                        steps: nat, w: Blocks)
    requires Writable(json) && Represents(db, ts, json) && Fits(db, SPACING) && Room(ts, stmt)
    requires Tidy(db.world, db.tables) && w == Midway(db, json, floats, stmt, txid, k, steps)
    requires stmt.DeleteStmt? && stmt.table in db.tables ==> k <= db.tables[stmt.table].rowCount
    ensures Safe(db, ts, floats, stmt, txid, Recovered(w))
  {
    forall n, ri: nat | n in ts.byName && ri < |ts.byName[n].rows|
      ensures VersionSafe(db, ts, floats, stmt, txid, Recovered(w), n, ri)
    {
      CrashInStatement(db, ts, json, floats, stmt, txid, k, steps, n, ri);
    }
    forall n, ri: nat | n in db.tables && IsVacant(db, n, ri) ensures SlotSafe(db, stmt, txid, Recovered(w), n, ri) {
      MidwaySlot(db, ts, json, floats, stmt, txid, k, steps, n, ri);
    }
  }

  /** Any world a statement leaves behind a write, recovered. */
  lemma {:induction false} TraceIsSafe(db: DB, ts: Tables, json: Json, floats: Floats, stmt: Stmt, txid: int64, j: nat,
                                       w: Blocks)
    requires Writable(json) && Represents(db, ts, json) && Fits(db, SPACING) && Room(ts, stmt)
    requires Tidy(db.world, db.tables)
    requires j < |ExecTrace([], db, json, floats, stmt, txid)| && w == ExecTrace([], db, json, floats, stmt, txid)[j]
    ensures Safe(db, ts, floats, stmt, txid, Recovered(w))
  {
    var k, steps := TraceIsMidway(db, json, floats, stmt, txid, j);
    MidwayIsSafe(db, ts, json, floats, stmt, txid, k, steps, w);
  }

  /** Crash safety of the code: stop a run from an empty world after any of its HAL writes, and recover;
      all that the statements before were acknowledged for is there, untouched or marked by the statement
      that was running, and nothing else but the row it was inserting, whole. */
  lemma {:induction false} CrashSafety(json: Json, floats: Floats, run: seq<Call>, i: nat)
    returns (c: nat, db: DB, ts: Tables)
    requires Runnable(json, floats, run) && i < |RunTrace(json, floats, run, |run|)|
    ensures c < |run| && db == StoreAfter(json, floats, run, c) && ts == TablesAfter(floats, run, c)
    ensures Safe(db, ts, floats, run[c].stmt, run[c].txid, Recovered(RunTrace(json, floats, run, |run|)[i]))
  {
    var j;
    c, j := FlatMember(StatementTraces(json, floats, run), |run|, i);
    db, ts := ReachedAll(json, floats, run, c);
    assert Open(OfRun, true);
    assert Room(TablesAfter(floats, run, c), run[c].stmt);
    RunIsTidy(json, floats, run, c);
    TraceIsSafe(db, ts, json, floats, run[c].stmt, run[c].txid, j, RunTrace(json, floats, run, |run|)[i]);
  }
}
