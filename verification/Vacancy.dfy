/** No run leaves a block where no row is: beyond its rows a table's slots are empty. */
module Vacancy {
  import opened GoText
  import opened World
  import opened Layout
  import opened Store
  import opened Query
  import opened Refine
  import opened RefineDelete
  import opened Engine

  predicate InRows(meta: Meta, z: int) {
    meta.zStart <= z < meta.zStart + meta.rowCount
  }

  ghost predicate Owned(tables: map<string, Meta>, z: int) {
    exists n | n in tables :: InRows(tables[n], z)
  }

  /** Every block of the table region belongs to a row of some table. */
  ghost predicate Tidy(w: Blocks, tables: map<string, Meta>) {
    forall p: Pos | p.y == TABLE_Y && p.z >= 0 && Get(w, p) != "" :: Owned(tables, p.z)
  }

  lemma {:induction false} TidyTouch(w: Blocks, w': Blocks, lsn: int, z: int, tables: map<string, Meta>,
                                     tables': map<string, Meta>)
    requires Tidy(w, tables) && OnlyTouches(w, w', lsn, z) && lsn >= 1 && Owned(tables', z)
    requires forall z' | Owned(tables, z') :: Owned(tables', z')
    ensures Tidy(w', tables')
  {
    forall p: Pos | p.y == TABLE_Y && p.z >= 0 && Get(w', p) != "" ensures Owned(tables', p.z) {
      if p.z != z {
        assert Get(w, p) != "";
      }
    }
  }

  lemma {:induction false} GrownOwns(tables: map<string, Meta>, name: string, z: int)
    requires name in tables
    ensures var meta := tables[name];
            var tables' := tables[name := meta.(rowCount := meta.rowCount + 1)];
            && Owned(tables', meta.zStart + meta.rowCount)
            && (Owned(tables, z) ==> Owned(tables', z))
  {
    var meta := tables[name];
    var tables' := tables[name := meta.(rowCount := meta.rowCount + 1)];
    assert InRows(tables'[name], meta.zStart + meta.rowCount);
    if Owned(tables, z) {
      var n :| n in tables && InRows(tables[n], z);
      assert InRows(tables'[n], z);
    }
  }

  lemma {:induction false} InsertTidy(db: DB, ts: Tables, json: Json, name: string, values: Values, txid: int64)
    requires Writable(json) && Represents(db, ts, json) && Fits(db, 1) && Tidy(db.world, db.tables)
    requires name in db.tables && db.tables[name].rowCount < SPACING
    ensures var db' := InsertRow(db, json, name, values, txid); Tidy(db'.world, db'.tables)
  {
    var meta := db.tables[name];
    var strip, newValue := Strip(meta.columns, values, txid), json.marshal(values);
    MarshalIsOneLine(json, values);
    InsertLands(db, ts, json, name, strip, newValue, values, txid);
    InsertedWorld(db, json, name, values, txid);
    GrownTidy(db, name, InsertRow(db, json, name, values, txid).world);
    InsertIsGrown(db, json, name, values, txid);
  }

  lemma {:induction false} InsertIsGrown(db: DB, json: Json, name: string, values: Values, txid: int)
    requires name in db.tables
    ensures InsertRow(db, json, name, values, txid) == Grown(db, name, InsertRow(db, json, name, values, txid).world)
  {
  }

  lemma {:induction false} GrownTidy(db: DB, name: string, w': Blocks)
    requires Tidy(db.world, db.tables) && name in db.tables && db.nextLSN >= 1
    requires OnlyTouches(db.world, w', db.nextLSN, db.tables[name].zStart + db.tables[name].rowCount)
    ensures Tidy(Grown(db, name, w').world, Grown(db, name, w').tables)
  {
    forall z | Owned(db.tables, z) ensures Owned(Grown(db, name, w').tables, z) {
      GrownOwns(db.tables, name, z);
    }
    GrownOwns(db.tables, name, 0);
    TidyTouch(db.world, w', db.nextLSN, db.tables[name].zStart + db.tables[name].rowCount, db.tables,
              Grown(db, name, w').tables);
  }

  lemma {:induction false} DeleteTidy(db: DB, ts: Tables, json: Json, name: string, keep: Row -> bool, txid: int64)
    requires Represents(db, ts, json) && name in db.tables && Fits(db, db.tables[name].rowCount)
    requires Tidy(db.world, db.tables)
    ensures Tidy(DeleteRows(db, name, keep, txid).world, db.tables)
  {
    var meta := db.tables[name];
    var m := MarkingReached(db, ts, json, name, keep, txid, meta.rowCount);
    MarkedTidy(db.world, m.world, name, db.tables);
  }

  lemma {:induction false} MarkedTidy(w: Blocks, w': Blocks, name: string, tables: map<string, Meta>)
    requires name in tables && Tidy(w, tables)
    requires forall p | Beyond(p, tables[name], tables[name].rowCount) :: Get(w', p) == Get(w, p)
    ensures Tidy(w', tables)
  {
    forall p: Pos | p.y == TABLE_Y && p.z >= 0 && Get(w', p) != "" ensures Owned(tables, p.z) {
      if !InRows(tables[name], p.z) {
        assert Beyond(p, tables[name], tables[name].rowCount);
      }
    }
  }

  lemma {:induction false} CreateTidy(db: DB, json: Json, name: string, cols: seq<Column>)
    requires name !in db.tables && Tidy(db.world, db.tables)
    ensures var db' := CreateTable(db, json, name, cols); Tidy(db'.world, db'.tables)
  {
    var db' := CreateTable(db, json, name, cols);
    forall p: Pos | p.y == TABLE_Y && p.z >= 0 && Get(db'.world, p) != "" ensures Owned(db'.tables, p.z) {
      assert Get(db.world, p) != "";
      var n :| n in db.tables && InRows(db.tables[n], p.z);
      assert InRows(db'.tables[n], p.z);
    }
  }

  // ----- every run -----

  lemma {:induction false} InsertStatementTidy(db: DB, ts: Tables, json: Json, floats: Floats, table: string,
                                               names: seq<string>, values: seq<Value>, txid: int64)
    requires Writable(json) && Represents(db, ts, json) && Fits(db, SPACING) && table in db.tables
    requires Room(ts, InsertStmt(table, names, values)) && Tidy(db.world, db.tables)
    ensures var db' := Exec(db, json, floats, InsertStmt(table, names, values), txid).1; Tidy(db'.world, db'.tables)
  {
    SameColumns(db, ts, json, table);
    var m := InsertValues(db.tables[table].columns, names, values);
    InsertTidy(db, ts, json, table, m, txid);
    ExecIsInsert(db, json, floats, table, names, values, txid, m);
    ExecInsertState(db, json, table, m, txid);
  }

  lemma {:induction false} DeleteStatementTidy(db: DB, ts: Tables, json: Json, floats: Floats, table: string,
                                               where: seq<Condition>, txid: int64)
    requires Represents(db, ts, json) && Fits(db, SPACING) && table in db.tables && Tidy(db.world, db.tables)
    ensures var db' := Exec(db, json, floats, DeleteStmt(table, where), txid).1; Tidy(db'.world, db'.tables)
  {
    SameColumns(db, ts, json, table);
    var cols := db.tables[table].columns;
    DeleteTidy(db, ts, json, table, Keep(cols, where, floats), txid);
    ExecIsDelete(db, json, floats, table, where, txid, cols);
    ExecDeleteState(db, table, Keep(cols, where, floats), txid);
  }

  lemma {:induction false} StatementTidy(db: DB, ts: Tables, json: Json, floats: Floats, stmt: Stmt, txid: int64)
    requires Writable(json) && Represents(db, ts, json) && Fits(db, SPACING) && Room(ts, stmt)
    requires Tidy(db.world, db.tables)
    ensures var db' := Exec(db, json, floats, stmt, txid).1; Tidy(db'.world, db'.tables)
  {
    if !stmt.Unsupported? && stmt.table in db.tables {
      match stmt
      case InsertStmt(table, names, values) => InsertStatementTidy(db, ts, json, floats, table, names, values, txid);
      case DeleteStmt(table, where) => DeleteStatementTidy(db, ts, json, floats, table, where, txid);
      case _ =>
    } else if stmt.CreateStmt? {
      CreateTidy(db, json, stmt.table, Columns(stmt.specs));
    }
  }

  lemma {:induction false} ExecDeleteState(db: DB, table: string, keep: Row -> bool, txid: int)
    requires table in db.tables
    ensures ExecDelete(db, table, keep, txid).1 == Remarked(db, DeleteRows(db, table, keep, txid))
  {
  }

  ghost predicate TidyAfter(json: Json, floats: Floats, run: seq<Call>, n: nat)
    requires n <= |run|
  {
    exists db, ts :: Reached(json, floats, run, n, db, ts) && Tidy(db.world, db.tables)
  }

  lemma {:induction false} TidyNext(json: Json, floats: Floats, run: seq<Call>, n: nat)
    requires SealedRunnable(json, floats, run) && n < |run| && TidyAfter(json, floats, run, n)
    ensures TidyAfter(json, floats, run, n + 1)
  {
    var db, ts :| Reached(json, floats, run, n, db, ts) && Tidy(db.world, db.tables);
    var db', ts' := ReachedNext(json, floats, run, n, db, ts);
    assert Open(OfRun, true) && Open(OfStage, true);
    StatementTidy(db, ts, json, floats, run[n].stmt, run[n].txid);
    StateAtNext(json, floats, run, n);
  }

  lemma {:induction false} NothingIsTidy(json: Json, floats: Floats, run: seq<Call>)
    ensures TidyAfter(json, floats, run, 0)
  {
    ReachedNone(json, floats, run);
    assert Tidy(EMPTY.world, EMPTY.tables);
  }

  lemma {:induction false} TidyAlways(json: Json, floats: Floats, run: seq<Call>, n: nat)
    requires SealedRunnable(json, floats, run) && n <= |run|
    ensures TidyAfter(json, floats, run, n)
  {
    var tidy := (k: nat) => k <= |run| ==> TidyAfter(json, floats, run, k);
    NothingIsTidy(json, floats, run);
    forall k: nat | k < |run| ensures Carries(tidy, k) {
      if tidy(k) {
        TidyNext(json, floats, run, k);
      }
    }
    CountUp(tidy, n);
  }

  /** After any run the blocks represent the tables and nothing lies beyond their rows. */
  lemma {:induction false} RunIsTidy(json: Json, floats: Floats, run: seq<Call>, n: nat)
    requires Runnable(json, floats, run) && n <= |run|
    ensures var db := StoreAfter(json, floats, run, n);
            Represents(db, TablesAfter(floats, run, n), json) && Tidy(db.world, db.tables)
  {
    TidyAlways(json, floats, run, n);
    var db, ts :| Reached(json, floats, run, n, db, ts) && Tidy(db.world, db.tables);
    assert Open(OfRun, true);
  }
}
