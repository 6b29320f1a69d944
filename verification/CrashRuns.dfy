/** A crash in the middle of any statement of any run, followed by recovery: every row version that
    was there is still there, untouched or marked by the statement that was running. */
module CrashRuns {
  import opened GoText
  import opened World
  import opened Wal
  import opened Layout
  import opened Store
  import opened WriteSequence
  import opened Crash
  import opened Query
  import opened Refine
  import opened RefineDelete
  import opened Catalog
  import opened Streaming
  import opened Engine

  /** DELETE stopped at slot k: the slots before it are dealt with, and `steps` of slot k's own writes
      are made if it is to be marked. */
  function MidDelete(db: DB, table: string, keep: Row -> bool, txid: int, k: nat, steps: nat): Blocks
    requires table in db.tables
  {
    var meta := db.tables[table];
    var m := AllMarked(db.world, db.nextLSN, meta, keep, txid, k);
    var s := ScanSlot(db.world, meta, k, txid);
    if k < meta.rowCount && s.Some? && keep(s.value.row) then CrashWorld(m.world, m.lsn, DeleteOp(s.value.pos, txid),
                                                                         steps)
    else m.world
  }

  /** The worlds a statement goes through, one per HAL write. */
  function Midway(db: DB, json: Json, floats: Floats, stmt: Stmt, txid: int, k: nat, steps: nat): Blocks {
    match stmt
    case CreateStmt(table, _) => if steps == 0 then db.world else Exec(db, json, floats, stmt, txid).1.world
    case InsertStmt(table, names, values) =>
      if table !in db.tables then db.world
      else
        var meta := db.tables[table];
        CrashWorld(db.world, db.nextLSN, InsertOp(meta, InsertValues(meta.columns, names, values), txid, json), steps)
    case DeleteStmt(table, where) =>
      if table !in db.tables then db.world
      else MidDelete(db, table, Keep(db.tables[table].columns, where, floats), txid, k, steps)
    case _ => db.world
  }

  /** The slot reads as one of the two versions. */
  ghost predicate OneOf(w: Blocks, meta: Meta, ri: int, a: Row, b: Row) {
    Decodes(w, meta, ri, a) || Decodes(w, meta, ri, b)
  }

  /** What a statement may make of a version: DELETE on its table may mark it, anything else leaves it. */
  function Fate(ts: Tables, floats: Floats, stmt: Stmt, txid: int, n: string, ri: nat): Row
    requires n in ts.byName && ri < |ts.byName[n].rows|
  {
    var t := ts.byName[n];
    if stmt.DeleteStmt? && stmt.table == n then Deleted(t.rows[ri], Keep(t.columns, stmt.where, floats), txid)
    else t.rows[ri]
  }

  // ----- DELETE -----

  /** Slot ri of table `meta` while the rows of table `del` are being marked: it is one of those rows and
      turns from a into b, or it belongs elsewhere and b is a. */
  ghost predicate Spot(w: Blocks, del: Meta, rows: seq<Row>, keep: Row -> bool, txid: int, meta: Meta, ri: nat,
                       a: Row, b: Row)
  {
    && meta.yLevel == TABLE_Y && meta.zStart >= 0 && meta.stripWidth >= 4
    && if meta == del then ri < |rows| && a == rows[ri] && b == Deleted(a, keep, txid)
       else b == a && Decodes(w, meta, ri, a) && !(del.zStart <= meta.zStart + ri < del.zStart + |rows|)
  }

  lemma {:induction false} EverySpot(db: DB, ts: Tables, json: Json, name: string, keep: Row -> bool, txid: int,
                                     n: string,
                                     ri: nat)
    requires Represents(db, ts, json) && name in db.tables && n in ts.byName && ri < |ts.byName[n].rows|
    ensures n in db.tables
    ensures Spot(db.world, db.tables[name], ts.byName[name].rows, keep, txid, db.tables[n], ri, ts.byName[n].rows[ri],
                 if n == name then Deleted(ts.byName[n].rows[ri], keep, txid) else ts.byName[n].rows[ri])
  {
    PlacedFields(db, ts, json, name);
    PlacedFields(db, ts, json, n);
    assert Decodes(db.world, db.tables[n], ri, ts.byName[n].rows[ri]);
    if n != name {
      TablesAreDisjoint(db, ts, json, n, name, db.tables[n].zStart + ri);
      assert db.tables[n].name == n && db.tables[name].name == name;
    }
  }

  lemma {:induction false} SpotUnderMarking(w: Blocks, lsn: int, m: Marks, del: Meta, rows: seq<Row>, keep: Row -> bool,
                                            txid: int, k: nat, meta: Meta, ri: nat, a: Row, b: Row)
    requires Marking(w, lsn, m, del, rows, keep, txid, k) && k <= |rows|
    requires Spot(w, del, rows, keep, txid, meta, ri, a, b)
    ensures OneOf(m.world, meta, ri, a, b)
  {
    if meta == del {
      assert Decodes(m.world, meta, ri, PartlyDeleted(rows, keep, txid, k, ri));
    } else {
      BeyondKept(w, m.world, del, k, meta, ri, a);
    }
  }

  lemma {:induction false} SameRowDecodes(w: Blocks, w': Blocks, meta: Meta, ri: int, a: Row, b: Row)
    requires RowAt(w', meta, ri) == RowAt(w, meta, ri) && OneOf(w, meta, ri, a, b)
    ensures OneOf(w', meta, ri, a, b)
  {
    DecodesTo(w, meta, ri, a);
    DecodesTo(w, meta, ri, b);
    DecodesTo(w', meta, ri, a);
    DecodesTo(w', meta, ri, b);
  }

  /** Where a finished mark leads; sealed. */
  ghost predicate IsFinished(w: Blocks, lsn: int, pos: Pos, txid: int, f: Blocks) {
    forall k {:trigger Open(OfStage, k)} :: Open(OfStage, k) ==> f == Finished(w, lsn, DeleteOp(pos, txid))
  }

  lemma {:induction false} CrashInMark(w: Blocks, lsn: int, pos: Pos, txid: int64, steps: nat, f: Blocks,
                                       meta: Meta, ri: nat, a: Row, b: Row)
    requires Quiet(w, lsn) && IsInt64(lsn) && pos.x == 0 && pos.y == TABLE_Y && pos.z >= 0 && IsInt64(pos.z)
    requires meta.zStart >= 0 && meta.stripWidth >= 4
    requires IsFinished(w, lsn, pos, txid, f) && OneOf(w, meta, ri, a, b) && OneOf(f, meta, ri, a, b)
    ensures OneOf(Recovered(CrashWorld(w, lsn, DeleteOp(pos, txid), steps)), meta, ri, a, b)
  {
    assert Open(OfStage, true);
    DeleteIsLoggable(pos, txid, lsn);
    DeleteIsAtomic(w, lsn, pos, txid, steps, meta, ri);
    var target := if steps == 0 || LosesDelete(w, pos, txid, steps) then w else Finished(w, lsn, DeleteOp(pos, txid));
    SameRowDecodes(target, Recovered(CrashWorld(w, lsn, DeleteOp(pos, txid), steps)), meta, ri, a, b);
  }

  lemma {:induction false} MarkIsFinished(m: Marks, pos: Pos, txid: int, m': Marks)
    requires m.ok && IsMark(m, pos, txid, m') && HasXmax(m.world, pos)
    ensures IsFinished(m.world, m.lsn, pos, txid, m'.world)
  {
    assert Open(OfRow, true);
  }

  /** Nothing pending: recovery has nothing to do. */
  lemma {:induction false} QuietRecovers(w: Blocks, lsn: int, meta: Meta, ri: int, a: Row, b: Row)
    requires Quiet(w, lsn) && OneOf(w, meta, ri, a, b)
    ensures OneOf(Recovered(w), meta, ri, a, b)
  {
    QuietLength(w, lsn);
  }

  lemma {:induction false} NextMarking(w: Blocks, lsn: int, m: Marks, meta: Meta, rows: seq<Row>, keep: Row -> bool,
                                       txid: int64, k: nat)
    returns (m': Marks)
    requires Marking(w, lsn, m, meta, rows, keep, txid, k) && k < |rows| && TableShape(meta)
    requires IsVisible(rows[k], txid) && keep(rows[k]) && IsInt64(lsn + |rows|) && IsInt64(meta.zStart + |rows|)
    ensures IsFinished(m.world, m.lsn, Pos(0, meta.yLevel, meta.zStart + k), txid, m'.world)
    ensures Marking(w, lsn, m', meta, rows, keep, txid, k + 1)
  {
    MarkingHasXmax(w, lsn, m, meta, rows, keep, txid, k);
    m' := MarkingMarks(w, lsn, m, meta, rows, keep, txid, k);
    MarkIsFinished(m, Pos(0, meta.yLevel, meta.zStart + k), txid, m');
  }

  lemma {:induction false} MarkingHasXmax(w: Blocks, lsn: int, m: Marks, meta: Meta, rows: seq<Row>, keep: Row -> bool,
                                          txid: int, k: nat)
    requires Marking(w, lsn, m, meta, rows, keep, txid, k) && k < |rows| && meta.stripWidth >= 4
    ensures HasXmax(m.world, Pos(0, meta.yLevel, meta.zStart + k))
  {
    assert Decodes(m.world, meta, k, PartlyDeleted(rows, keep, txid, k, k));
    RowHasXmax(m.world, meta, k, rows[k]);
  }

  lemma {:induction false} SpotAfterMark(w: Blocks, lsn: int, m: Marks, del: Meta, rows: seq<Row>, keep: Row -> bool,
                                         txid: int64, k: nat, meta: Meta, ri: nat, a: Row, b: Row)
    returns (m': Marks)
    requires Marking(w, lsn, m, del, rows, keep, txid, k) && k < |rows| && TableShape(del)
    requires IsVisible(rows[k], txid) && keep(rows[k]) && IsInt64(lsn + |rows|) && IsInt64(del.zStart + |rows|)
    requires Spot(w, del, rows, keep, txid, meta, ri, a, b)
    ensures IsFinished(m.world, m.lsn, Pos(0, del.yLevel, del.zStart + k), txid, m'.world)
    ensures OneOf(m'.world, meta, ri, a, b)
  {
    m' := NextMarking(w, lsn, m, del, rows, keep, txid, k);
    SpotUnderMarking(w, lsn, m', del, rows, keep, txid, k + 1, meta, ri, a, b);
  }

  /** A crash anywhere in the marking of slot k. */
  lemma {:induction false} CrashAtSlot(w: Blocks, lsn: int, m: Marks, del: Meta, rows: seq<Row>, keep: Row -> bool,
                                       txid: int64, k: nat, steps: nat, meta: Meta, ri: nat, a: Row, b: Row)
    requires Marking(w, lsn, m, del, rows, keep, txid, k) && k < |rows| && TableShape(del)
    requires IsVisible(rows[k], txid) && keep(rows[k]) && IsInt64(lsn + |rows|) && IsInt64(del.zStart + |rows|)
    requires Spot(w, del, rows, keep, txid, meta, ri, a, b)
    ensures OneOf(Recovered(CrashWorld(m.world, m.lsn, DeleteOp(Pos(0, del.yLevel, del.zStart + k), txid), steps)),
                  meta, ri, a, b)
  {
    SpotUnderMarking(w, lsn, m, del, rows, keep, txid, k, meta, ri, a, b);
    var m' := SpotAfterMark(w, lsn, m, del, rows, keep, txid, k, meta, ri, a, b);
    CrashInMark(m.world, m.lsn, Pos(0, del.yLevel, del.zStart + k), txid, steps, m'.world, meta, ri, a, b);
  }

  lemma {:induction false} CrashInDeleteStatement(db: DB, ts: Tables, json: Json, name: string, keep: Row -> bool,
                                                  txid: int64, k: nat, steps: nat, n: string, ri: nat)
    requires Represents(db, ts, json) && name in db.tables && Fits(db, SPACING)
    requires k <= db.tables[name].rowCount && n in ts.byName && ri < |ts.byName[n].rows|
    ensures n in db.tables
    ensures OneOf(Recovered(MidDelete(db, name, keep, txid, k, steps)), db.tables[n], ri, ts.byName[n].rows[ri],
                  if n == name then Deleted(ts.byName[n].rows[ri], keep, txid) else ts.byName[n].rows[ri])
  {
    var meta, rows := db.tables[name], ts.byName[name].rows;
    var a := ts.byName[n].rows[ri];
    var b := if n == name then Deleted(a, keep, txid) else a;
    PlacedFields(db, ts, json, name);
    EverySpot(db, ts, json, name, keep, txid, n, ri);
    var m := MarkingReached(db, ts, json, name, keep, txid, k);
    if k < meta.rowCount {
      assert Decodes(db.world, meta, k, rows[k]);
      ScanSlotOf(db.world, meta, k, rows[k], txid);
    }
    if k < meta.rowCount && IsVisible(rows[k], txid) && keep(rows[k]) {
      CrashAtSlot(db.world, db.nextLSN, m, meta, rows, keep, txid, k, steps, db.tables[n], ri, a, b);
    } else {
      SpotUnderMarking(db.world, db.nextLSN, m, meta, rows, keep, txid, k, db.tables[n], ri, a, b);
      QuietRecovers(m.world, m.lsn, db.tables[n], ri, a, b);
    }
  }

  // ----- INSERT and CREATE TABLE -----

  lemma {:induction false} CrashInInsertStatement(db: DB, ts: Tables, json: Json, name: string, values: Values,
                                                  txid: int64, steps: nat, n: string, ri: nat)
    requires Writable(json) && Represents(db, ts, json) && name in db.tables && Fits(db, SPACING)
    requires db.tables[name].rowCount < SPACING && n in ts.byName && ri < |ts.byName[n].rows|
    ensures Decodes(Recovered(CrashWorld(db.world, db.nextLSN, InsertOp(db.tables[name], values, txid, json), steps)),
                    db.tables[n], ri, ts.byName[n].rows[ri])
  {
    var meta, row := db.tables[name], ts.byName[n].rows[ri];
    PlacedFields(db, ts, json, name);
    PlacedFields(db, ts, json, n);
    MarshalIsOneLine(json, values);
    assert Decodes(db.world, db.tables[n], ri, row);
    if n != name {
      TablesAreDisjoint(db, ts, json, n, name, db.tables[n].zStart + ri);
      TablesAreDisjoint(db, ts, json, name, n, meta.zStart + meta.rowCount);
    }
    CrashInAppend(db.world, db.nextLSN, meta, Strip(meta.columns, values, txid), json.marshal(values), txid, steps,
                  db.tables[n], ri, row);
  }

  lemma {:induction false} CrashInAppend(w: Blocks, lsn: int, meta: Meta, strip: seq<string>, newValue: string,
                                         txid: int64, steps: nat, other: Meta, ri: nat, row: Row)
    requires Quiet(w, lsn) && IsInt64(lsn) && newValue != "" && Free(newValue, '\n') && |strip| == meta.stripWidth
    requires IsInt64(meta.id) && meta.yLevel == TABLE_Y && 0 <= meta.zStart && IsInt64(meta.zStart + meta.rowCount)
    requires other.yLevel == TABLE_Y && other.zStart >= 0 && other.stripWidth >= 4 && Decodes(w, other, ri, row)
    requires other.zStart + ri != meta.zStart + meta.rowCount
    ensures Decodes(Recovered(CrashWorld(w, lsn, AppendOp(meta, strip, newValue, txid), steps)), other, ri, row)
  {
    var op := AppendOp(meta, strip, newValue, txid);
    AppendIsLoggable(meta, strip, newValue, txid, lsn);
    InsertIsAtomic(w, lsn, op, steps, other, ri);
    NewRow(w, lsn, meta, strip, newValue, txid);
    RowKept(w, Finished(w, lsn, op), lsn, meta.zStart + meta.rowCount, other, ri, row);
    var target := if steps <= 1 then w else Finished(w, lsn, op);
    SameRowDecodes(target, Recovered(CrashWorld(w, lsn, op, steps)), other, ri, row, row);
  }

  lemma {:induction false} RecoversOffCatalog(w: Blocks, w': Blocks, z: int, lsn: int, meta: Meta, ri: int, row: Row)
    requires OnlyCatalog(w, w', z) && Quiet(w, lsn) && Decodes(w, meta, ri, row) && meta.yLevel == TABLE_Y
    ensures Decodes(Recovered(w'), meta, ri, row)
  {
    SlotOffCatalog(w, w', z, meta, ri, row);
    QuietOffCatalog(w, w', z, lsn);
    QuietLength(w', lsn);
  }

  lemma {:induction false} CrashInCreate(db: DB, ts: Tables, json: Json, name: string, cols: seq<Column>, n: string,
                                         ri: nat)
    requires Writable(json) && Represents(db, ts, json) && name !in db.tables
    requires n in ts.byName && ri < |ts.byName[n].rows|
    ensures Decodes(Recovered(CreateTable(db, json, name, cols).world), db.tables[n], ri, ts.byName[n].rows[ri])
  {
    var db' := CreateTable(db, json, name, cols);
    PlacedFields(db, ts, json, n);
    assert Decodes(db.world, db.tables[n], ri, ts.byName[n].rows[ri]);
    RecoversOffCatalog(db.world, db'.world, db.nextCatalogZ, db.nextLSN, db.tables[n], ri, ts.byName[n].rows[ri]);
  }

  // ----- any statement, any run -----

  /** Stop a statement at any of its HAL writes and recover: every version reads as before the statement
      or as after it. */
  lemma {:induction false} CrashInStatement(db: DB, ts: Tables, json: Json, floats: Floats, stmt: Stmt, txid: int64,
                                            k: nat, steps: nat, n: string, ri: nat)
    requires Writable(json) && Represents(db, ts, json) && Fits(db, SPACING) && Room(ts, stmt)
    requires n in ts.byName && ri < |ts.byName[n].rows|
    requires stmt.DeleteStmt? && stmt.table in db.tables ==> k <= db.tables[stmt.table].rowCount
    ensures n in db.tables
    ensures OneOf(Recovered(Midway(db, json, floats, stmt, txid, k, steps)), db.tables[n], ri, ts.byName[n].rows[ri],
                  Fate(ts, floats, stmt, txid, n, ri))
  {
    PlacedFields(db, ts, json, n);
    var row := ts.byName[n].rows[ri];
    assert Decodes(db.world, db.tables[n], ri, row);
    if stmt.DeleteStmt? && stmt.table in db.tables {
      SameColumns(db, ts, json, stmt.table);
      var keep := Keep(db.tables[stmt.table].columns, stmt.where, floats);
      CrashInDeleteStatement(db, ts, json, stmt.table, keep, txid, k, steps, n, ri);
    } else if stmt.InsertStmt? && stmt.table in db.tables {
      SameColumns(db, ts, json, stmt.table);
      var values := InsertValues(db.tables[stmt.table].columns, stmt.names, stmt.values);
      CrashInInsertStatement(db, ts, json, stmt.table, values, txid, steps, n, ri);
    } else if stmt.CreateStmt? && stmt.table !in db.tables && steps > 0 {
      CrashInCreate(db, ts, json, stmt.table, Columns(stmt.specs), n, ri);
    } else {
      QuietRecovers(db.world, db.nextLSN, db.tables[n], ri, row, row);
    }
  }

  /** The same for a crash anywhere in a run from an empty world: acknowledged versions survive. */
  lemma {:induction false} CrashInRun(json: Json, floats: Floats, run: seq<Call>, i: nat, k: nat, steps: nat,
                                      n: string, ri: nat)
    requires Runnable(json, floats, run) && i < |run|
    requires var ts := TablesAfter(floats, run, i); n in ts.byName && ri < |ts.byName[n].rows|
    requires var stmt, ts := run[i].stmt, TablesAfter(floats, run, i);
             stmt.DeleteStmt? && stmt.table in ts.byName ==> k <= |ts.byName[stmt.table].rows|
    ensures var db, ts := StoreAfter(json, floats, run, i), TablesAfter(floats, run, i);
            && n in db.tables
            && OneOf(Recovered(Midway(db, json, floats, run[i].stmt, run[i].txid, k, steps)), db.tables[n], ri,
                     ts.byName[n].rows[ri], Fate(ts, floats, run[i].stmt, run[i].txid, n, ri))
  {
    var db, ts := ReachedAll(json, floats, run, i);
    assert Open(OfRun, true);
    assert Room(TablesAfter(floats, run, i), run[i].stmt);
    if run[i].stmt.DeleteStmt? && run[i].stmt.table in db.tables {
      SameColumns(db, ts, json, run[i].stmt.table);
    }
    CrashInStatement(db, ts, json, floats, run[i].stmt, run[i].txid, k, steps, n, ri);
  }

  // ----- these are the worlds of the code -----

  ghost predicate IsMidDelete(db: DB, table: string, keep: Row -> bool, txid: int, w: Blocks)
    requires table in db.tables
  {
    exists k: nat, steps: nat :: k <= db.tables[table].rowCount && w == MidDelete(db, table, keep, txid, k, steps)
  }

  /** Every world written for the first n slots is one of them. */
  ghost predicate AllMidDelete(db: DB, table: string, keep: Row -> bool, txid: int, n: nat)
    requires table in db.tables
  {
    var worlds := AllMarkedTrace([], db.world, db.nextLSN, db.tables[table], keep, txid, n);
    forall i | 0 <= i < |worlds| :: IsMidDelete(db, table, keep, txid, worlds[i])
  }

  lemma {:induction false} OpTraceMembers(told: seq<Blocks>, w: Blocks, lsn: int, op: LoggedOp, i: nat)
    requires |told| <= i < |OpTrace(told, w, lsn, op)|
    ensures OpTrace(told, w, lsn, op)[i] == CrashWorld(w, lsn, op, i - |told| + 1)
  {
  }

  lemma {:induction false} OpTraceKeeps(told: seq<Blocks>, w: Blocks, lsn: int, op: LoggedOp)
    ensures told <= OpTrace(told, w, lsn, op)
  {
  }

  lemma {:induction false} MatchingGrows(w: Blocks, meta: Meta, keep: Row -> bool, txid: int, n: nat)
    ensures var s := ScanSlot(w, meta, n, txid);
            Matching(w, meta, keep, txid, n + 1)
            == Matching(w, meta, keep, txid, n) + if s.Some? && keep(s.value.row) then [s.value] else []
  {
  }

  /** Slot n adds the worlds of its own mark, or none. */
  lemma {:induction false} TraceGrows(told: seq<Blocks>, w: Blocks, lsn: int, meta: Meta, keep: Row -> bool,
                                      txid: int, n: nat)
    ensures var s := ScanSlot(w, meta, n, txid);
            AllMarkedTrace(told, w, lsn, meta, keep, txid, n + 1)
            == if s.Some? && keep(s.value.row)
               then MarkTrace(AllMarkedTrace(told, w, lsn, meta, keep, txid, n), AllMarked(w, lsn, meta, keep, txid, n),
                              s.value.pos, txid)
               else AllMarkedTrace(told, w, lsn, meta, keep, txid, n)
  {
    MatchingGrows(w, meta, keep, txid, n);
    var s, ms := ScanSlot(w, meta, n, txid), Matching(w, meta, keep, txid, n);
    if s.Some? && keep(s.value.row) {
      TraceOneMore(told, w, lsn, ms, s.value, txid);
    } else {
      assert ms + [] == ms;
    }
  }

  lemma {:induction false} MidDeleteAt(db: DB, table: string, keep: Row -> bool, txid: int, k: nat, steps: nat)
    requires table in db.tables && k < db.tables[table].rowCount
    requires var s := ScanSlot(db.world, db.tables[table], k, txid); s.Some? && keep(s.value.row)
    ensures var m := AllMarked(db.world, db.nextLSN, db.tables[table], keep, txid, k);
            var s := ScanSlot(db.world, db.tables[table], k, txid);
            IsMidDelete(db, table, keep, txid, CrashWorld(m.world, m.lsn, DeleteOp(s.value.pos, txid), steps))
  {
    var m := AllMarked(db.world, db.nextLSN, db.tables[table], keep, txid, k);
    var s := ScanSlot(db.world, db.tables[table], k, txid);
    assert CrashWorld(m.world, m.lsn, DeleteOp(s.value.pos, txid), steps) == MidDelete(db, table, keep, txid, k, steps);
  }

  lemma {:induction false} MarkTraceMembers(told: seq<Blocks>, m: Marks, pos: Pos, txid: int, i: nat)
    requires i < |MarkTrace(told, m, pos, txid)|
    ensures var worlds := MarkTrace(told, m, pos, txid);
            if i < |told| then worlds[i] == told[i]
            else worlds[i] == CrashWorld(m.world, m.lsn, DeleteOp(pos, txid), i - |told| + 1)
  {
    if m.ok && HasXmax(m.world, pos) {
      OpTraceKeeps(told, m.world, m.lsn, DeleteOp(pos, txid));
      if i >= |told| {
        OpTraceMembers(told, m.world, m.lsn, DeleteOp(pos, txid), i);
      }
    }
  }

  lemma {:induction false} NextMidDelete(db: DB, table: string, keep: Row -> bool, txid: int, n: nat)
    requires table in db.tables && n < db.tables[table].rowCount && AllMidDelete(db, table, keep, txid, n)
    ensures AllMidDelete(db, table, keep, txid, n + 1)
  {
    var meta := db.tables[table];
    var s := ScanSlot(db.world, meta, n, txid);
    TraceGrows([], db.world, db.nextLSN, meta, keep, txid, n);
    if s.Some? && keep(s.value.row) {
      var told := AllMarkedTrace([], db.world, db.nextLSN, meta, keep, txid, n);
      var m := AllMarked(db.world, db.nextLSN, meta, keep, txid, n);
      MarkIsMid(db, table, keep, txid, n, told, m, s.value.pos);
    }
  }

  lemma {:induction false} MarkIsMid(db: DB, table: string, keep: Row -> bool, txid: int, n: nat, told: seq<Blocks>,
                                     m: Marks, pos: Pos)
    requires table in db.tables && n < db.tables[table].rowCount
    requires m == AllMarked(db.world, db.nextLSN, db.tables[table], keep, txid, n)
    requires var s := ScanSlot(db.world, db.tables[table], n, txid); s.Some? && keep(s.value.row) && s.value.pos == pos
    requires forall i | 0 <= i < |told| :: IsMidDelete(db, table, keep, txid, told[i])
    ensures forall i | 0 <= i < |MarkTrace(told, m, pos, txid)| ::
              IsMidDelete(db, table, keep, txid, MarkTrace(told, m, pos, txid)[i])
  {
    var worlds := MarkTrace(told, m, pos, txid);
    forall i | 0 <= i < |worlds| ensures IsMidDelete(db, table, keep, txid, worlds[i]) {
      MarkTraceMembers(told, m, pos, txid, i);
      if i >= |told| {
        MidDeleteAt(db, table, keep, txid, n, i - |told| + 1);
      }
    }
  }

  lemma {:induction false} DeleteTraceIsMid(db: DB, table: string, keep: Row -> bool, txid: int)
    requires table in db.tables
    ensures AllMidDelete(db, table, keep, txid, db.tables[table].rowCount)
  {
    var n := db.tables[table].rowCount;
    var mid := (k: nat) => k <= n ==> AllMidDelete(db, table, keep, txid, k);
    forall k: nat | k < n ensures Carries(mid, k) {
      if mid(k) {
        NextMidDelete(db, table, keep, txid, k);
      }
    }
    CountUp(mid, n);
  }

  /** Every world the code leaves behind a HAL write of a statement is one of Midway's. */
  lemma {:induction false} TraceIsMidway(db: DB, json: Json, floats: Floats, stmt: Stmt, txid: int, i: nat)
    returns (k: nat, steps: nat)
    requires i < |ExecTrace([], db, json, floats, stmt, txid)|
    ensures ExecTrace([], db, json, floats, stmt, txid)[i] == Midway(db, json, floats, stmt, txid, k, steps)
    ensures stmt.DeleteStmt? && stmt.table in db.tables ==> k <= db.tables[stmt.table].rowCount
  {
    k, steps := 0, i + 1;
    match stmt
    case InsertStmt(table, names, values) =>
      var meta := db.tables[table];
      OpTraceMembers([], db.world, db.nextLSN, InsertOp(meta, InsertValues(meta.columns, names, values), txid, json),
                     i);
    case DeleteStmt(table, where) =>
      var keep := Keep(db.tables[table].columns, where, floats);
      DeleteTraceIsMid(db, table, keep, txid);
      k, steps := MidOf(db, table, keep, txid, ExecTrace([], db, json, floats, stmt, txid)[i]);
    case _ =>
  }

  lemma {:induction false} MidOf(db: DB, table: string, keep: Row -> bool, txid: int, w: Blocks) returns (k: nat,
                                                                                                          steps: nat)
    requires table in db.tables && IsMidDelete(db, table, keep, txid, w)
    ensures k <= db.tables[table].rowCount && w == MidDelete(db, table, keep, txid, k, steps)
  {
    k, steps :| k <= db.tables[table].rowCount && w == MidDelete(db, table, keep, txid, k, steps);
  }

  // ----- the trace of a whole run -----

  lemma {:induction false} OpTraceAppends(told: seq<Blocks>, more: seq<Blocks>, w: Blocks, lsn: int, op: LoggedOp)
    ensures OpTrace(told + more, w, lsn, op) == told + OpTrace(more, w, lsn, op)
  {
    var r := AfterCommit(w, lsn, op);
    FourAppend(told, more, [AfterAppend(w, lsn, op)], [AfterData(w, lsn, op)], if r.Some? then [r.value] else []);
  }

  lemma {:induction false} FourAppend<T>(told: seq<T>, more: seq<T>, a: seq<T>, b: seq<T>, c: seq<T>)
    ensures (told + more) + a + b + c == told + (more + a + b + c)
  {
  }

  lemma {:induction false} MarkTraceAppends(told: seq<Blocks>, more: seq<Blocks>, m: Marks, pos: Pos, txid: int)
    ensures MarkTrace(told + more, m, pos, txid) == told + MarkTrace(more, m, pos, txid)
  {
    OpTraceAppends(told, more, m.world, m.lsn, DeleteOp(pos, txid));
  }

  /** The trace of n marks begins with what was told before them; sealed. */
  ghost predicate TraceSplits(told: seq<Blocks>, w: Blocks, lsn: int, ms: seq<Scanned>, txid: int, n: nat)
    requires n <= |ms|
  {
    forall b {:trigger Open(OfCall, b)} :: Open(OfCall, b) ==>
      MarkAllTrace(told, w, lsn, ms, txid, n) == told + MarkAllTrace([], w, lsn, ms, txid, n)
  }

  lemma {:induction false} TraceSplitsNext(told: seq<Blocks>, w: Blocks, lsn: int, ms: seq<Scanned>, txid: int, n: nat)
    requires n < |ms| && TraceSplits(told, w, lsn, ms, txid, n)
    ensures TraceSplits(told, w, lsn, ms, txid, n + 1)
  {
    assert Open(OfCall, true);
    TraceStep(told, w, lsn, ms, txid, n);
    TraceStep([], w, lsn, ms, txid, n);
    MarkTraceAppends(told, MarkAllTrace([], w, lsn, ms, txid, n), MarkAll(w, lsn, ms, txid, n), ms[n].pos, txid);
  }

  lemma {:induction false} NoTraceSplits(told: seq<Blocks>, w: Blocks, lsn: int, ms: seq<Scanned>, txid: int)
    ensures TraceSplits(told, w, lsn, ms, txid, 0)
  {
    assert told + [] == told;
  }

  lemma {:induction false} AllTraceSplits(told: seq<Blocks>, w: Blocks, lsn: int, ms: seq<Scanned>, txid: int, n: nat)
    requires n <= |ms|
    ensures TraceSplits(told, w, lsn, ms, txid, n)
  {
    var splits := (k: nat) => k <= |ms| ==> TraceSplits(told, w, lsn, ms, txid, k);
    NoTraceSplits(told, w, lsn, ms, txid);
    forall k: nat | k < |ms| ensures Carries(splits, k) {
      if splits(k) {
        TraceSplitsNext(told, w, lsn, ms, txid, k);
      }
    }
    CountUp(splits, n);
  }

  lemma {:induction false} MarkAllTraceAppends(told: seq<Blocks>, w: Blocks, lsn: int, ms: seq<Scanned>, txid: int)
    ensures MarkAllTrace(told, w, lsn, ms, txid, |ms|) == told + MarkAllTrace([], w, lsn, ms, txid, |ms|)
  {
    AllTraceSplits(told, w, lsn, ms, txid, |ms|);
    assert Open(OfCall, true);
  }

  /** A statement only adds to the worlds told before it. */
  lemma {:induction false} TraceAppends(told: seq<Blocks>, db: DB, json: Json, floats: Floats, stmt: Stmt, txid: int)
    ensures ExecTrace(told, db, json, floats, stmt, txid) == told + ExecTrace([], db, json, floats, stmt, txid)
  {
    assert told + [] == told;
    if !stmt.Unsupported? && stmt.table in db.tables {
      var meta := db.tables[stmt.table];
      match stmt
      case InsertStmt(_, names, values) =>
        OpTraceAppends(told, [], db.world, db.nextLSN,
                       InsertOp(meta, InsertValues(meta.columns, names, values), txid, json));
      case DeleteStmt(_, where) =>
        var keep := Keep(meta.columns, where, floats);
        MarkAllTraceAppends(told, db.world, db.nextLSN, Matching(db.world, meta, keep, txid, meta.rowCount), txid);
      case _ =>
    }
  }

  /** The worlds statement c of a run goes through. */
  function StatementTrace(json: Json, floats: Floats, run: seq<Call>, c: nat): (worlds: seq<Blocks>)
    requires c < |run|
  {
    ExecTrace([], StoreAfter(json, floats, run, c), json, floats, run[c].stmt, run[c].txid)
  }

  function StatementTraces(json: Json, floats: Floats, run: seq<Call>): nat -> seq<Blocks> {
    (c: nat) => if c < |run| then StatementTrace(json, floats, run, c) else []
  }

  /** The worlds the first n statements go through. */
  function RunTrace(json: Json, floats: Floats, run: seq<Call>, n: nat): (worlds: seq<Blocks>) {
    Flat(StatementTraces(json, floats, run), n)
  }

  // ----- a run call by call -----

  function OutcomeOf(json: Json, floats: Floats, run: seq<Call>, i: nat): Outcome
    requires i < |run|
  {
    Exec(StoreAfter(json, floats, run, i), json, floats, run[i].stmt, run[i].txid).0
  }

  /** The state, the worlds written and the answers after i calls; sealed. */
  ghost predicate AtCall(json: Json, floats: Floats, run: seq<Call>, i: nat, db: DB, trace: seq<Blocks>,
                         outs: seq<Outcome>)
    requires i <= |run|
  {
    forall b {:trigger Open(OfCall, b)} :: Open(OfCall, b) ==>
      && db == StoreAfter(json, floats, run, i) && trace == RunTrace(json, floats, run, i)
      && |outs| == i && forall k | 0 <= k < i :: outs[k] == OutcomeOf(json, floats, run, k)
  }

  lemma {:induction false} AtFirstCall(json: Json, floats: Floats, run: seq<Call>)
    ensures AtCall(json, floats, run, 0, EMPTY, [], [])
  {
  }

  lemma {:induction false} TraceAtNext(json: Json, floats: Floats, run: seq<Call>, i: nat, db: DB)
    requires i < |run| && db == StoreAfter(json, floats, run, i)
    ensures RunTrace(json, floats, run, i + 1)
            == ExecTrace(RunTrace(json, floats, run, i), db, json, floats, run[i].stmt, run[i].txid)
  {
    FlatNext(StatementTraces(json, floats, run), i);
    TraceAppends(RunTrace(json, floats, run, i), db, json, floats, run[i].stmt, run[i].txid);
  }

  lemma {:induction false} AtNextCall(json: Json, floats: Floats, run: seq<Call>, i: nat, db: DB, trace: seq<Blocks>,
                                      outs: seq<Outcome>, r: Outcome, db': DB, trace': seq<Blocks>)
    requires i < |run| && AtCall(json, floats, run, i, db, trace, outs)
    requires (r, db') == Exec(db, json, floats, run[i].stmt, run[i].txid)
    requires trace' == ExecTrace(trace, db, json, floats, run[i].stmt, run[i].txid)
    ensures AtCall(json, floats, run, i + 1, db', trace', outs + [r])
  {
    assert Open(OfCall, true);
    TraceAtNext(json, floats, run, i, db);
    StateAtNext(json, floats, run, i);
    OutcomesNext(json, floats, run, i, outs, r);
  }

  lemma {:induction false} OutcomesNext(json: Json, floats: Floats, run: seq<Call>, i: nat, outs: seq<Outcome>,
                                        r: Outcome)
    requires i < |run| && |outs| == i && r == OutcomeOf(json, floats, run, i)
    requires forall k | 0 <= k < i :: outs[k] == OutcomeOf(json, floats, run, k)
    ensures forall k | 0 <= k < i + 1 :: (outs + [r])[k] == OutcomeOf(json, floats, run, k)
  {
  }
}
