/** One statement, twice: on blocks as internal/executor/executor.go runs it, and on lists of row
    versions as one would specify it. The two give the same answers. */
module Engine {
  import opened GoText
  import opened World
  import opened Codec
  import opened Signs
  import opened Layout
  import opened Store
  import opened Query
  import opened Refine
  import opened RefineDelete
  import opened Streaming
  import opened Catalog

  function SelectResult(out: seq<Column>, rows: seq<Row>): Result {
    Result(Names(out), TypeNames(out), ProjectAll(rows, out), "SELECT " + Itoa(|rows|))
  }

  // ----- on blocks -----

  function ExecInsert(db: DB, json: Json, table: string, values: Values, txid: int): (r: (Outcome, DB))
    requires table in db.tables
  {
    var ok := AfterCommit(db.world, db.nextLSN, InsertOp(db.tables[table], values, txid, json)).Some?;
    (if ok then Tagged("INSERT 0 1") else Failed, InsertRow(db, json, table, values, txid))
  }

  function ExecSelect(db: DB, table: string, out: seq<Column>, keep: Row -> bool, txid: int): (r: Outcome)
    requires table in db.tables
  {
    var meta := db.tables[table];
    Done(SelectResult(out, RowsOf(Matching(db.world, meta, keep, txid, meta.rowCount))))
  }

  function ExecDelete(db: DB, table: string, keep: Row -> bool, txid: int): (r: (Outcome, DB))
    requires table in db.tables
  {
    var m, meta := DeleteRows(db, table, keep, txid), db.tables[table];
    (if m.ok then Tagged("DELETE " + Itoa(|Matching(db.world, meta, keep, txid, meta.rowCount)|)) else Failed,
     Remarked(db, m))
  }

  function Exec(db: DB, json: Json, floats: Floats, stmt: Stmt, txid: int): (r: (Outcome, DB)) {
    match stmt
    case CreateStmt(table, specs) =>
      if table in db.tables then (Failed, db)
      else (Tagged("CREATE TABLE"), CreateTable(db, json, table, Columns(specs)))
    case InsertStmt(table, names, values) =>
      if table !in db.tables then (Failed, db)
      else ExecInsert(db, json, table, InsertValues(db.tables[table].columns, names, values), txid)
    case SelectStmt(table, columns, where) =>
      if table !in db.tables then (Failed, db)
      else
        var cols := db.tables[table].columns;
        (ExecSelect(db, table, OutputColumns(columns, cols), Keep(cols, where, floats), txid), db)
    case DeleteStmt(table, where) =>
      if table !in db.tables then (Failed, db)
      else ExecDelete(db, table, Keep(db.tables[table].columns, where, floats), txid)
    case Unsupported => (Failed, db)
  }

  /** The worlds a statement goes through, one per HAL write, added to those told before. */
  function ExecTrace(told: seq<Blocks>, db: DB, json: Json, floats: Floats, stmt: Stmt,
                     txid: int): (worlds: seq<Blocks>) {
    match stmt
    case CreateStmt(table, specs) =>
      if table in db.tables then told else told + [CreateTable(db, json, table, Columns(specs)).world]
    case InsertStmt(table, names, values) =>
      if table !in db.tables then told
      else
        var meta := db.tables[table];
        OpTrace(told, db.world, db.nextLSN, InsertOp(meta, InsertValues(meta.columns, names, values), txid, json))
    case DeleteStmt(table, where) =>
      if table !in db.tables then told
      else
        var meta := db.tables[table];
        AllMarkedTrace(told, db.world, db.nextLSN, meta, Keep(meta.columns, where, floats), txid, meta.rowCount)
    case _ => told
  }

  // ----- on lists -----

  function InsertInto(ts: Tables, table: string, values: Values, txid: int): Tables
    requires table in ts.byName
  {
    ts.(byName := ts.byName[table := Inserted(ts.byName[table], values, txid)])
  }

  function Answer(ts: Tables, floats: Floats, stmt: Stmt, txid: int): (r: (Outcome, Tables)) {
    match stmt
    case CreateStmt(table, specs) =>
      if table in ts.byName then (Failed, ts) else (Tagged("CREATE TABLE"), Created(ts, table, Columns(specs)))
    case InsertStmt(table, names, values) =>
      if table !in ts.byName then (Failed, ts)
      else
        var t := ts.byName[table];
        (Tagged("INSERT 0 1"), InsertInto(ts, table, InsertValues(t.columns, names, values), txid))
    case SelectStmt(table, columns, where) =>
      if table !in ts.byName then (Failed, ts)
      else
        var t := ts.byName[table];
        (Done(SelectResult(OutputColumns(columns, t.columns),
                           Selected(t.rows, Keep(t.columns, where, floats), txid))), ts)
    case DeleteStmt(table, where) =>
      if table !in ts.byName then (Failed, ts)
      else
        var t := ts.byName[table];
        var keep := Keep(t.columns, where, floats);
        (Tagged("DELETE " + Itoa(|Selected(t.rows, keep, txid)|)), Purged(ts, table, keep, txid))
    case Unsupported => (Failed, ts)
  }

  /** An INSERT needs a table with fewer than 10000 rows: the code does not check. */
  predicate Room(ts: Tables, stmt: Stmt) {
    stmt.InsertStmt? && stmt.table in ts.byName ==> |ts.byName[stmt.table].rows| < SPACING
  }

  // ----- they agree -----

  lemma {:induction false} SameColumns(db: DB, ts: Tables, json: Json, table: string)
    requires Represents(db, ts, json) && table in db.tables
    ensures table in ts.byName && db.tables[table].columns == ts.byName[table].columns
    ensures db.tables[table].rowCount == |ts.byName[table].rows| <= SPACING
  {
    PlacedFields(db, ts, json, table);
  }

  /** The same answer, tables still represented, and at most 10000 log entries used. */
  ghost predicate Match(db: DB, json: Json, r: (Outcome, DB), a: (Outcome, Tables)) {
    && r.0 == a.0 && Represents(r.1, a.1, json)
    && db.nextLSN <= r.1.nextLSN <= db.nextLSN + SPACING && r.1.nextTableID <= db.nextTableID + 1
  }

  ghost predicate Agrees(db: DB, ts: Tables, json: Json, floats: Floats, stmt: Stmt, txid: int) {
    Match(db, json, Exec(db, json, floats, stmt, txid), Answer(ts, floats, stmt, txid))
  }

  lemma {:induction false} ExecInsertOutcome(db: DB, json: Json, table: string, values: Values, txid: int)
    requires table in db.tables && AfterCommit(db.world, db.nextLSN, InsertOp(db.tables[table], values, txid,
                                               json)).Some?
    ensures ExecInsert(db, json, table, values, txid).0 == Tagged("INSERT 0 1")
  {
  }

  lemma {:induction false} ExecInsertState(db: DB, json: Json, table: string, values: Values, txid: int)
    requires table in db.tables
    ensures ExecInsert(db, json, table, values, txid).1 == InsertRow(db, json, table, values, txid)
  {
  }

  lemma {:induction false} InsertRowCounters(db: DB, json: Json, table: string, values: Values, txid: int)
    requires table in db.tables
    ensures InsertRow(db, json, table, values, txid).nextLSN == db.nextLSN + 1
    ensures InsertRow(db, json, table, values, txid).nextTableID == db.nextTableID
  {
  }

  lemma {:induction false} InsertMatches(db: DB, ts: Tables, json: Json, table: string, values: Values, txid: int64)
    requires Writable(json) && Represents(db, ts, json) && Fits(db, SPACING) && table in db.tables
    requires db.tables[table].rowCount < SPACING && table in ts.byName
    ensures Match(db, json, ExecInsert(db, json, table, values, txid),
                  (Tagged("INSERT 0 1"), InsertInto(ts, table, values, txid)))
  {
    InsertRefines(db, ts, json, table, values, txid);
    ExecInsertOutcome(db, json, table, values, txid);
    ExecInsertState(db, json, table, values, txid);
    InsertRowCounters(db, json, table, values, txid);
  }

  lemma {:induction false} InsertAgrees(db: DB, ts: Tables, json: Json, floats: Floats, table: string,
                                        names: seq<string>,
                                        values: seq<Value>, txid: int64)
    requires Writable(json) && Represents(db, ts, json) && Fits(db, SPACING) && table in db.tables
    requires Room(ts, InsertStmt(table, names, values))
    ensures Agrees(db, ts, json, floats, InsertStmt(table, names, values), txid)
  {
    SameColumns(db, ts, json, table);
    var m := InsertValues(db.tables[table].columns, names, values);
    InsertMatches(db, ts, json, table, m, txid);
    ExecIsInsert(db, json, floats, table, names, values, txid, m);
    AnswerIsInsert(ts, floats, table, names, values, txid, m);
  }

  lemma {:induction false} ExecIsInsert(db: DB, json: Json, floats: Floats, table: string, names: seq<string>,
                                        values: seq<Value>, txid: int, m: Values)
    requires table in db.tables && m == InsertValues(db.tables[table].columns, names, values)
    ensures Exec(db, json, floats, InsertStmt(table, names, values), txid) == ExecInsert(db, json, table, m, txid)
  {
  }

  lemma {:induction false} AnswerIsInsert(ts: Tables, floats: Floats, table: string, names: seq<string>,
                                          values: seq<Value>, txid: int, m: Values)
    requires table in ts.byName && m == InsertValues(ts.byName[table].columns, names, values)
    ensures Answer(ts, floats, InsertStmt(table, names, values), txid)
            == (Tagged("INSERT 0 1"), InsertInto(ts, table, m, txid))
  {
  }

  lemma {:induction false} SelectAgrees(db: DB, ts: Tables, json: Json, floats: Floats, table: string,
                                        columns: Option<seq<string>>, where: seq<Condition>, txid: int)
    requires Represents(db, ts, json) && table in db.tables
    ensures Agrees(db, ts, json, floats, SelectStmt(table, columns, where), txid)
  {
    SameColumns(db, ts, json, table);
    SelectRefines(db, ts, json, table, Keep(db.tables[table].columns, where, floats), txid);
  }

  lemma {:induction false} DeleteMatches(db: DB, ts: Tables, json: Json, table: string, keep: Row -> bool, txid: int64)
    requires Represents(db, ts, json) && Fits(db, SPACING) && table in db.tables && table in ts.byName
    ensures Match(db, json, ExecDelete(db, table, keep, txid),
                  (Tagged("DELETE " + Itoa(|Selected(ts.byName[table].rows, keep, txid)|)), Purged(ts, table, keep, txid)))
  {
    SameColumns(db, ts, json, table);
    DeleteRefines(db, ts, json, table, keep, txid);
    SelectRefines(db, ts, json, table, keep, txid);
    SelectedCount(ts.byName[table].rows, keep, txid);
    var meta := db.tables[table];
    assert |Matching(db.world, meta, keep, txid, meta.rowCount)| == |Selected(ts.byName[table].rows, keep, txid)|;
  }

  lemma {:induction false} DeleteAgrees(db: DB, ts: Tables, json: Json, floats: Floats, table: string,
                                        where: seq<Condition>, txid: int64)
    requires Represents(db, ts, json) && Fits(db, SPACING) && table in db.tables
    ensures Agrees(db, ts, json, floats, DeleteStmt(table, where), txid)
  {
    SameColumns(db, ts, json, table);
    var cols := db.tables[table].columns;
    DeleteMatches(db, ts, json, table, Keep(cols, where, floats), txid);
    ExecIsDelete(db, json, floats, table, where, txid, cols);
    AnswerIsDelete(ts, floats, table, where, txid, cols);
  }

  lemma {:induction false} ExecIsDelete(db: DB, json: Json, floats: Floats, table: string, where: seq<Condition>,
                                        txid: int,
                                        cols: seq<Column>)
    requires table in db.tables && cols == db.tables[table].columns
    ensures Exec(db, json, floats, DeleteStmt(table, where), txid) == ExecDelete(db, table, Keep(cols, where, floats),
                                                                                 txid)
  {
  }

  lemma {:induction false} AnswerIsDelete(ts: Tables, floats: Floats, table: string, where: seq<Condition>, txid: int,
                                          cols: seq<Column>)
    requires table in ts.byName && cols == ts.byName[table].columns
    ensures var keep := Keep(cols, where, floats);
            Answer(ts, floats, DeleteStmt(table, where), txid)
            == (Tagged("DELETE " + Itoa(|Selected(ts.byName[table].rows, keep, txid)|)), Purged(ts, table, keep, txid))
  {
  }

  lemma {:induction false} CreateAgrees(db: DB, ts: Tables, json: Json, floats: Floats, table: string,
                                        specs: seq<ColumnSpec>, txid: int)
    requires Writable(json) && Represents(db, ts, json) && table !in db.tables
    ensures Agrees(db, ts, json, floats, CreateStmt(table, specs), txid)
  {
    CreateRefines(db, ts, json, table, Columns(specs));
  }

  /** Each statement, from represented tables, does on blocks what it does on lists. */
  lemma {:induction false} StatementRefines(db: DB, ts: Tables, json: Json, floats: Floats, stmt: Stmt, txid: int64)
    requires Writable(json) && Represents(db, ts, json) && Fits(db, SPACING) && Room(ts, stmt)
    ensures Agrees(db, ts, json, floats, stmt, txid)
  {
    if !stmt.Unsupported? && stmt.table in db.tables {
      match stmt
      case InsertStmt(table, names, values) => InsertAgrees(db, ts, json, floats, table, names, values, txid);
      case SelectStmt(table, columns, where) => SelectAgrees(db, ts, json, floats, table, columns, where, txid);
      case DeleteStmt(table, where) => DeleteAgrees(db, ts, json, floats, table, where, txid);
      case _ =>
    } else if stmt.CreateStmt? {
      CreateAgrees(db, ts, json, floats, stmt.table, stmt.specs, txid);
    }
  }

  lemma {:induction false} SelectedCount(rows: seq<Row>, keep: Row -> bool, txid: int)
    ensures |Selected(rows, keep, txid)| <= |rows|
    decreases |rows|
  {
    if rows != [] {
      SelectedCount(rows[..|rows| - 1], keep, txid);
    }
  }

  // ----- whole runs -----

  datatype Call = Call(stmt: Stmt, txid: int64)

  /** A fresh engine over a world without blocks. */
  const EMPTY := DB(map[], 1, map[], 0, 1)
  const NO_TABLES := Tables(map[], [])

  /** The state after the first n calls. */
  function StoreAfter(json: Json, floats: Floats, run: seq<Call>, n: nat): DB
    requires n <= |run|
  {
    if n == 0 then EMPTY
    else Exec(StoreAfter(json, floats, run, n - 1), json, floats, run[n - 1].stmt, run[n - 1].txid).1
  }

  function TablesAfter(floats: Floats, run: seq<Call>, n: nat): Tables
    requires n <= |run|
  {
    if n == 0 then NO_TABLES else Answer(TablesAfter(floats, run, n - 1), floats, run[n - 1].stmt, run[n - 1].txid).1
  }

  /** Every INSERT of the run finds room. */
  predicate RoomThroughout(floats: Floats, run: seq<Call>) {
    forall i | 0 <= i < |run| :: Room(TablesAfter(floats, run, i), run[i].stmt)
  }

  lemma {:induction false} EmptyRepresents(json: Json)
    ensures Represents(EMPTY, NO_TABLES, json)
  {
  }

  ghost predicate InStep(db: DB, ts: Tables, json: Json, n: nat) {
    && Represents(db, ts, json)
    && 1 <= db.nextLSN <= 1 + n * SPACING && 1 <= db.nextTableID <= 1 + n
  }

  lemma {:induction false} RunStep(db: DB, ts: Tables, json: Json, floats: Floats, call: Call, n: nat)
    requires Writable(json) && InStep(db, ts, json, n) && Room(ts, call.stmt) && IsInt64((n + 2) * SPACING)
    ensures var (o, db') := Exec(db, json, floats, call.stmt, call.txid);
            var (a, ts') := Answer(ts, floats, call.stmt, call.txid);
            o == a && InStep(db', ts', json, n + 1)
  {
    StatementRefines(db, ts, json, floats, call.stmt, call.txid);
  }

  /** n calls from an empty world lead to these two states, in step with each other; sealed so that an
      induction over the calls never unfolds a statement. */
  ghost predicate Reached(json: Json, floats: Floats, run: seq<Call>, n: nat, db: DB, ts: Tables)
    requires n <= |run|
  {
    forall k {:trigger Open(OfRun, k)} :: Open(OfRun, k) ==>
      && db == StoreAfter(json, floats, run, n) && ts == TablesAfter(floats, run, n)
      && InStep(db, ts, json, n)
  }

  /** What a run needs: room for every INSERT, and counters that fit. */
  ghost predicate Runnable(json: Json, floats: Floats, run: seq<Call>) {
    Writable(json) && IsInt64((|run| + 1) * SPACING) && RoomThroughout(floats, run)
  }

  ghost predicate SealedRunnable(json: Json, floats: Floats, run: seq<Call>) {
    forall k {:trigger Open(OfStage, k)} :: Open(OfStage, k) ==> Runnable(json, floats, run)
  }

  lemma {:induction false} ReachedNone(json: Json, floats: Floats, run: seq<Call>)
    ensures Reached(json, floats, run, 0, EMPTY, NO_TABLES)
  {
    EmptyRepresents(json);
  }

  lemma {:induction false} ReachedNext(json: Json, floats: Floats, run: seq<Call>, n: nat, db: DB, ts: Tables)
    returns (db': DB, ts': Tables)
    requires SealedRunnable(json, floats, run) && n < |run|
    requires Reached(json, floats, run, n, db, ts)
    ensures Reached(json, floats, run, n + 1, db', ts')
    ensures Exec(db, json, floats, run[n].stmt, run[n].txid).0 == Answer(ts, floats, run[n].stmt, run[n].txid).0
  {
    assert Open(OfRun, true) && Open(OfStage, true);
    RunStep(db, ts, json, floats, run[n], n);
    db', ts' := Exec(db, json, floats, run[n].stmt, run[n].txid).1, Answer(ts, floats, run[n].stmt, run[n].txid).1;
  }

  lemma {:induction false} ReachedAll(json: Json, floats: Floats, run: seq<Call>, n: nat)
    returns (db: DB, ts: Tables)
    requires SealedRunnable(json, floats, run) && n <= |run|
    ensures Reached(json, floats, run, n, db, ts)
  {
    if n == 0 {
      db, ts := EMPTY, NO_TABLES;
      ReachedNone(json, floats, run);
    } else {
      db, ts := ReachedAll(json, floats, run, n - 1);
      db, ts := ReachedNext(json, floats, run, n - 1, db, ts);
    }
  }

  /** Full-stack refinement: from an empty world, after any run of statements, the blocks represent
      the tables of the specification, and every statement answers as the specification says. Only
      the 10000-row bound and the width of the counters limit the run. */
  lemma {:induction false} RunRefines(json: Json, floats: Floats, run: seq<Call>, n: nat)
    requires Runnable(json, floats, run) && n <= |run|
    ensures Represents(StoreAfter(json, floats, run, n), TablesAfter(floats, run, n), json)
    ensures n < |run| ==>
              Exec(StoreAfter(json, floats, run, n), json, floats, run[n].stmt, run[n].txid).0
              == Answer(TablesAfter(floats, run, n), floats, run[n].stmt, run[n].txid).0
  {
    var db, ts := ReachedAll(json, floats, run, n);
    if n < |run| {
      var db', ts' := ReachedNext(json, floats, run, n, db, ts);
    }
    assert Open(OfRun, true);
  }

  lemma {:induction false} StateAtNext(json: Json, floats: Floats, run: seq<Call>, i: nat)
    requires i < |run|
    ensures StoreAfter(json, floats, run, i + 1)
            == Exec(StoreAfter(json, floats, run, i), json, floats, run[i].stmt, run[i].txid).1
  {
  }

  // ----- what a stored row gives back -----

  /** A literal the parser can give for a column of this type, within the type's range. */
  predicate Fitting(typ: ColType, v: Value) {
    match typ
    case INT => v.Int64? && IsInt32(v.l)
    case BIGINT => v.Int64?
    case BOOLEAN => v.Bool?
    case TEXT => v.Text? && Free(v.s, NUL)
    case OTHER(_) => false
  }

  /** The value as given; text cut to 61 characters and "..." beyond 64. */
  function ReadBack(typ: ColType, v: Value): Value
    requires Fitting(typ, v)
  {
    match typ
    case INT => Int32(v.l)
    case TEXT => Text(if |v.s| <= 64 then v.s else v.s[..61] + "...")
    case _ => v
  }

  lemma {:induction false} FittingIsStored(typ: ColType, v: Value)
    requires Fitting(typ, v)
    ensures StoredCell(typ, v) == Some(ReadBack(typ, v))
  {
    match typ
    case INT => Int32RoundTrip(v.l);
    case TEXT => TextThroughSign(v.s);
    case _ =>
  }

  /** An INSERT into a created table, with listed or implied column names, adds a version that shows a
      value under the column it was given for, if the SQL type of the column takes it. */
  lemma {:induction false} InsertShowsValues(specs: seq<ColumnSpec>, names: seq<string>, values: seq<Value>, txid: int,
                                             k: nat, j: nat)
    requires var given := NamesGiven(Columns(specs), names);
             && Distinct(given) && k < |specs| && j < |given| && j < |values| && given[j] == specs[k].name
    ensures var cols, sql, v := Columns(specs), specs[k].typ, values[j];
            var row := Row(txid, None, StoredColumns(cols, InsertValues(cols, names, values)));
            && (sql in ["int4", "integer"] && v.Int64? && IsInt32(v.l) ==>
                  k in row.cols && row.cols[k] == Int32(v.l))
            && (sql in ["int8", "bigint"] && v.Int64? ==> k in row.cols && row.cols[k] == v)
            && (sql in ["bool", "boolean"] && v.Bool? ==> k in row.cols && row.cols[k] == v)
            && (sql in ["text", "varchar", "bpchar"] && v.Text? && Free(v.s, NUL) ==>
                  k in row.cols && row.cols[k] == Text(if |v.s| <= 64 then v.s else v.s[..61] + "..."))
  {
    var cols, v := Columns(specs), values[j];
    assert cols[k] == Column(specs[k].name, k, NormalizeType(specs[k].typ));
    TypesByName(specs[k].typ);
    EveryColumnGetsItsValue(cols, names, values, k, j);
    if Fitting(cols[k].typ, v) {
      FittingIsStored(cols[k].typ, v);
    }
    CollectedUnderOrdinal(cols, StoredCells(cols, InsertValues(cols, names, values)), |cols|, k);
  }
}
