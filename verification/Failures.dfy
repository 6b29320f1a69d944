/** Runs in which the code does not do what one would hope. */
module Failures {
  import opened GoText
  import opened World
  import opened Wal
  import opened Recovery
  import opened Layout
  import opened Store
  import opened WriteSequence
  import opened Crash
  import opened Query
  import opened Refine
  import opened RefineDelete
  import opened Catalog
  import opened Engine
  import opened CrashRuns

  // ----- a table without a name -----

  function Nameless(): seq<Call> {
    [Call(CreateStmt("", []), 1)]
  }

  /** CREATE TABLE "" is acknowledged, and gone after LoadCatalog. */
  lemma {:induction false} NamelessIsLost(json: Json, floats: Floats, run: seq<Call>)
    requires Writable(json) && Rereads(json) && run == Nameless()
    ensures var db := StoreAfter(json, floats, run, 1);
            "" in db.tables && !Rebuilt(db, CatalogOf(db.world, json, map[]))
  {
    assert Runnable(json, floats, run) by {
      assert forall i | 0 <= i < |run| :: Room(TablesAfter(floats, run, i), run[i].stmt);
    }
    RunRefines(json, floats, run, 1);
    NamelessTables(floats, run);
    CatalogRebuild(StoreAfter(json, floats, run, 1), TablesAfter(floats, run, 1), json);
  }

  lemma {:induction false} NamelessTables(floats: Floats, run: seq<Call>)
    requires run == Nameless()
    ensures "" in TablesAfter(floats, run, 1).byName
  {
    assert TablesAfter(floats, run, 0) == NO_TABLES;
  }

  // ----- transaction -1 -----

  /** One table without columns, one row by transaction -1. */
  function OneRow(): seq<Call> {
    [Call(CreateStmt("t", []), 1), Call(InsertStmt("t", [], []), -1)]
  }

  lemma {:induction false} OneRowTables(floats: Floats, run: seq<Call>)
    requires run == OneRow()
    ensures TablesAfter(floats, run, 1).byName == map["t" := Table([], [])]
    ensures TablesAfter(floats, run, 2).byName == map["t" := Table([], [Row(-1, None, map[])])]
  {
    var none: seq<Column> := [];
    assert Columns([]) == none;
    var ts := Created(NO_TABLES, "t", none);
    OneAnswer(floats, NO_TABLES, run[0], ts);
    NextTables(floats, run, 0);
    assert TablesAfter(floats, run, 0) == NO_TABLES && TablesAfter(floats, run, 1) == ts;
    assert ts.byName == map["t" := Table(none, [])];
    NoColumns(InsertValues(none, [], []));
    var ts' := InsertInto(ts, "t", InsertValues(none, [], []), -1);
    OneAnswer(floats, ts, run[1], ts');
    NextTables(floats, run, 1);
    assert TablesAfter(floats, run, 2) == ts';
    assert ts'.byName["t"].rows == [Row(-1, None, map[])];
    assert ts'.byName == map["t" := Table(none, [Row(-1, None, map[])])];
  }

  lemma {:induction false} NextTables(floats: Floats, run: seq<Call>, n: nat)
    requires n < |run|
    ensures TablesAfter(floats, run, n + 1) == Answer(TablesAfter(floats, run, n), floats, run[n].stmt, run[n].txid).1
  {
  }

  lemma {:induction false} NoColumns(values: Values)
    ensures StoredColumns([], values) == map[]
  {
  }

  lemma {:induction false} OneAnswer(floats: Floats, ts: Tables, call: Call, ts': Tables)
    requires call == OneRow()[0] ==> ts' == Created(ts, "t", Columns([])) && "t" !in ts.byName
    requires call == OneRow()[1] ==>
               "t" in ts.byName && ts' == InsertInto(ts, "t", InsertValues(ts.byName["t"].columns, [], []), -1)
    requires call in OneRow()
    ensures Answer(ts, floats, call.stmt, call.txid).1 == ts'
  {
  }

  lemma {:induction false} OneRowRuns(json: Json, floats: Floats, run: seq<Call>)
    requires Writable(json) && run == OneRow()
    ensures Runnable(json, floats, run)
  {
    OneRowTables(floats, run);
    assert Room(TablesAfter(floats, run, 0), run[0].stmt);
    assert Room(TablesAfter(floats, run, 1), run[1].stmt);
  }

  /** Then DELETE FROM t by transaction -1, stopped right after its log entry: recovery marks the entry
      committed and leaves the row undeleted. */
  lemma {:induction false} DeleteIsLost(json: Json, floats: Floats, run: seq<Call>, db: DB)
    requires Writable(json) && run == OneRow() && db == StoreAfter(json, floats, run, 2)
    ensures "t" in db.tables
    ensures var pos := Pos(0, TABLE_Y, 0);
            && Midway(db, json, floats, DeleteStmt("t", []), -1, 0, 1) == AfterAppend(db.world, db.nextLSN, DeleteOp(pos, -1))
            && XmaxAt(Recovered(AfterAppend(db.world, db.nextLSN, DeleteOp(pos, -1))), TABLE_Y, 0) == Some(None)
            && XmaxAt(Finished(db.world, db.nextLSN, DeleteOp(pos, -1)), TABLE_Y, 0) == Some(Some(-1))
  {
    OneRowRuns(json, floats, run);
    OneRowTables(floats, run);
    var ts := TablesAfter(floats, run, 2);
    RunRefines(json, floats, run, 2);
    RunFitsTwo(json, floats, run, db);
    PlacedFields(db, ts, json, "t");
    LostFrom(db, ts, json, floats, Row(-1, None, map[]));
  }

  lemma {:induction false} RunFitsTwo(json: Json, floats: Floats, run: seq<Call>, db: DB)
    requires Runnable(json, floats, run) && |run| == 2 && db == StoreAfter(json, floats, run, 2)
    ensures IsInt64(db.nextLSN)
  {
    var db', ts := ReachedAll(json, floats, run, 2);
    assert Open(OfRun, true);
  }

  lemma {:induction false} LostFrom(db: DB, ts: Tables, json: Json, floats: Floats, row: Row)
    requires Represents(db, ts, json) && IsInt64(db.nextLSN) && row == Row(-1, None, map[])
    requires "t" in db.tables && ts.byName == map["t" := Table([], [row])]
    ensures var pos := Pos(0, TABLE_Y, 0);
            && Midway(db, json, floats, DeleteStmt("t", []), -1, 0, 1) == AfterAppend(db.world, db.nextLSN, DeleteOp(pos, -1))
            && XmaxAt(Recovered(AfterAppend(db.world, db.nextLSN, DeleteOp(pos, -1))), TABLE_Y, 0) == Some(None)
            && XmaxAt(Finished(db.world, db.nextLSN, DeleteOp(pos, -1)), TABLE_Y, 0) == Some(Some(-1))
  {
    var meta, pos := db.tables["t"], Pos(0, TABLE_Y, 0);
    PlacedFields(db, ts, json, "t");
    OnlyTableIsFirst(db, ts, json);
    assert ts.byName["t"].rows[0] == row;
    assert Decodes(db.world, meta, 0, ts.byName["t"].rows[0]);
    LostAt(db.world, db.nextLSN, meta, row);
    FirstMark(db, floats, json, row);
  }

  lemma {:induction false} LostAt(w: Blocks, lsn: int, meta: Meta, row: Row)
    requires Quiet(w, lsn) && IsInt64(lsn) && Decodes(w, meta, 0, row) && row.xmax == None
    requires meta.zStart == 0 && meta.yLevel == TABLE_Y && meta.stripWidth >= 4
    ensures var op := DeleteOp(Pos(0, TABLE_Y, 0), -1);
            && XmaxAt(Recovered(AfterAppend(w, lsn, op)), TABLE_Y, 0) == Some(None)
            && XmaxAt(Finished(w, lsn, op), TABLE_Y, 0) == Some(Some(-1))
  {
    RowHasXmax(w, meta, 0, row);
    DeleteIsLoggable(Pos(0, TABLE_Y, 0), -1, lsn);
    MinusOneIsLost(w, lsn, Pos(0, TABLE_Y, 0));
  }

  lemma {:induction false} OnlyTableIsFirst(db: DB, ts: Tables, json: Json)
    requires Represents(db, ts, json) && ts.byName.Keys == {"t"} && "t" in db.tables
    ensures db.tables["t"].zStart == 0
  {
    PlacedFields(db, ts, json, "t");
    var id := db.tables["t"].id;
    assert ts.order[0] in db.tables && db.tables[ts.order[0]].id == 1;
    assert ts.order[0] == "t";
  }

  lemma {:induction false} FirstMark(db: DB, floats: Floats, json: Json, row: Row)
    requires "t" in db.tables && db.tables["t"].columns == [] && db.tables["t"].rowCount == 1
    requires db.tables["t"].zStart == 0 && db.tables["t"].yLevel == TABLE_Y
    requires Decodes(db.world, db.tables["t"], 0, row) && row == Row(-1, None, map[])
    ensures Midway(db, json, floats, DeleteStmt("t", []), -1, 0, 1)
            == AfterAppend(db.world, db.nextLSN, DeleteOp(Pos(0, TABLE_Y, 0), -1))
  {
    var keep := Keep([], [], floats);
    KeepsAll(floats, row);
    MidDeleteFirst(db, keep, row);
    MidwayIsDelete(db, json, floats);
  }

  lemma {:induction false} KeepsAll(floats: Floats, row: Row)
    ensures Keep([], [], floats)(row)
  {
  }

  lemma {:induction false} MidwayIsDelete(db: DB, json: Json, floats: Floats)
    requires "t" in db.tables
    ensures Midway(db, json, floats, DeleteStmt("t", []), -1, 0, 1)
            == MidDelete(db, "t", Keep(db.tables["t"].columns, [], floats), -1, 0, 1)
  {
  }

  lemma {:induction false} MidDeleteFirst(db: DB, keep: Row -> bool, row: Row)
    requires "t" in db.tables && db.tables["t"].rowCount == 1 && keep(row) && row == Row(-1, None, map[])
    requires db.tables["t"].zStart == 0 && db.tables["t"].yLevel == TABLE_Y && Decodes(db.world, db.tables["t"], 0, row)
    ensures MidDelete(db, "t", keep, -1, 0, 1) == AfterAppend(db.world, db.nextLSN, DeleteOp(Pos(0, TABLE_Y, 0), -1))
  {
    ScanSlotOf(db.world, db.tables["t"], 0, row, -1);
    assert AllMarked(db.world, db.nextLSN, db.tables["t"], keep, -1, 0) == Marks(db.world, db.nextLSN, true);
  }
}
