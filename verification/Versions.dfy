/** What any run does to row versions: they age in one direction only, snapshots stay as they were,
    and DELETE removes exactly what it counts. */
module Versions {
  import opened GoText
  import opened World
  import opened Layout
  import opened Store
  import opened Query
  import opened Refine
  import opened RefineDelete
  import opened Engine

  // ----- versions age -----

  /** The deleter is set once or replaced by an earlier one; creator and values never change. */
  predicate Ages(r: Row, r': Row) {
    && r'.xmin == r.xmin && r'.cols == r.cols
    && (r'.xmax == r.xmax || (r'.xmax.Some? && (r.xmax.None? || r'.xmax.value < r.xmax.value)))
  }

  /** No version is deleted before it is created. */
  predicate Sane(r: Row) {
    r.xmax.None? || r.xmin <= r.xmax.value
  }

  predicate TableAges(t: Table, t': Table) {
    t'.columns == t.columns && |t.rows| <= |t'.rows| && forall i | 0 <= i < |t.rows| :: Ages(t.rows[i], t'.rows[i])
  }

  predicate TablesAge(ts: Tables, ts': Tables) {
    forall n | n in ts.byName :: n in ts'.byName && TableAges(ts.byName[n], ts'.byName[n])
  }

  predicate AllSane(ts: Tables) {
    forall n | n in ts.byName :: TableSane(ts.byName[n])
  }

  predicate TableSane(t: Table) {
    forall i | 0 <= i < |t.rows| :: Sane(t.rows[i])
  }

  lemma {:induction false} DeletedAges(row: Row, keep: Row -> bool, txid: int)
    ensures Ages(row, Deleted(row, keep, txid))
    ensures Sane(row) ==> Sane(Deleted(row, keep, txid))
  {
  }

  lemma {:induction false} DeletedFromAges(t: Table, keep: Row -> bool, txid: int)
    ensures TableAges(t, DeletedFrom(t, keep, txid))
    ensures TableSane(t) ==> TableSane(DeletedFrom(t, keep, txid))
  {
    var t' := DeletedFrom(t, keep, txid);
    forall i | 0 <= i < |t.rows| ensures Ages(t.rows[i], t'.rows[i]) && (Sane(t.rows[i]) ==> Sane(t'.rows[i])) {
      DeletedAges(t.rows[i], keep, txid);
    }
  }

  lemma {:induction false} InsertedAges(t: Table, values: Values, txid: int)
    ensures TableAges(t, Inserted(t, values, txid))
    ensures TableSane(t) ==> TableSane(Inserted(t, values, txid))
  {
  }

  lemma {:induction false} StatementAges(ts: Tables, floats: Floats, stmt: Stmt, txid: int)
    ensures var ts' := Answer(ts, floats, stmt, txid).1; TablesAge(ts, ts') && (AllSane(ts) ==> AllSane(ts'))
  {
    if !stmt.Unsupported? && stmt.table in ts.byName {
      var t := ts.byName[stmt.table];
      match stmt
      case InsertStmt(_, names, values) => InsertedAges(t, InsertValues(t.columns, names, values), txid);
      case DeleteStmt(_, where) => DeletedFromAges(t, Keep(t.columns, where, floats), txid);
      case _ =>
    }
  }

  lemma {:induction false} AgesOn(a: Tables, b: Tables, c: Tables)
    requires TablesAge(a, b) && TablesAge(b, c)
    ensures TablesAge(a, c)
  {
    forall n | n in a.byName ensures n in c.byName && TableAges(a.byName[n], c.byName[n]) {
      var t, u, v := a.byName[n], b.byName[n], c.byName[n];
      forall i | 0 <= i < |t.rows| ensures Ages(t.rows[i], v.rows[i]) {
        assert Ages(t.rows[i], u.rows[i]) && Ages(u.rows[i], v.rows[i]);
      }
    }
  }

  /** The version invariant of every run, between any two of its points. */
  lemma {:induction false} RunAges(floats: Floats, run: seq<Call>, m: nat, n: nat)
    requires m <= n <= |run|
    ensures TablesAge(TablesAfter(floats, run, m), TablesAfter(floats, run, n))
    ensures AllSane(TablesAfter(floats, run, n))
    decreases n
  {
    var ts := TablesAfter(floats, run, m);
    if m < n {
      RunAges(floats, run, m, n - 1);
      var mid := TablesAfter(floats, run, n - 1);
      StatementAges(mid, floats, run[n - 1].stmt, run[n - 1].txid);
      AgesOn(ts, mid, TablesAfter(floats, run, n));
    } else {
      SaneAfter(floats, run, n);
    }
  }

  lemma {:induction false} SaneAfter(floats: Floats, run: seq<Call>, n: nat)
    requires n <= |run|
    ensures AllSane(TablesAfter(floats, run, n))
  {
    if n > 0 {
      SaneAfter(floats, run, n - 1);
      StatementAges(TablesAfter(floats, run, n - 1), floats, run[n - 1].stmt, run[n - 1].txid);
    }
  }

  /** The same on blocks: slot ri of a table, once filled, decodes at every later point, to the same
      version or an aged one. */
  lemma {:induction false} StripsAge(json: Json, floats: Floats, run: seq<Call>, m: nat, n: nat, table: string, ri: nat)
    requires Runnable(json, floats, run) && m <= n <= |run|
    requires table in StoreAfter(json, floats, run, m).tables
    requires ri < StoreAfter(json, floats, run, m).tables[table].rowCount
    ensures var db, db' := StoreAfter(json, floats, run, m), StoreAfter(json, floats, run, n);
            && table in db'.tables
            && var r, r' := RowAt(db.world, db.tables[table], ri), RowAt(db'.world, db'.tables[table], ri);
               r.Some? && r'.Some? && Ages(r.value, r'.value) && Sane(r'.value)
  {
    RunRefines(json, floats, run, m);
    RunRefines(json, floats, run, n);
    RunAges(floats, run, m, n);
    var ts, ts' := TablesAfter(floats, run, m), TablesAfter(floats, run, n);
    var r := SlotOf(StoreAfter(json, floats, run, m), ts, json, table, ri);
    var r' := SlotOf(StoreAfter(json, floats, run, n), ts', json, table, ri);
    assert TableAges(ts.byName[table], ts'.byName[table]) && TableSane(ts'.byName[table]);
  }

  lemma {:induction false} SlotOf(db: DB, ts: Tables, json: Json, table: string, ri: nat) returns (row: Row)
    requires Represents(db, ts, json) && table in db.tables && table in ts.byName && ri < |ts.byName[table].rows|
    ensures RowAt(db.world, db.tables[table], ri) == Some(row) && row == ts.byName[table].rows[ri]
  {
    PlacedFields(db, ts, json, table);
    row := ts.byName[table].rows[ri];
    assert Decodes(db.world, db.tables[table], ri, row);
    DecodesTo(db.world, db.tables[table], ri, row);
  }

  // ----- snapshots -----

  /** The two lists look the same at t: shared versions agree in values and visibility, further ones
      are invisible. */
  predicate SameAt(rows: seq<Row>, rows': seq<Row>, t: int) {
    && |rows| <= |rows'|
    && (forall i | 0 <= i < |rows| ::
          rows'[i].cols == rows[i].cols && (IsVisible(rows'[i], t) <==> IsVisible(rows[i], t)))
    && (forall i | |rows| <= i < |rows'| :: !IsVisible(rows'[i], t))
  }

  predicate TablesSameAt(ts: Tables, ts': Tables, t: int) {
    forall n | n in ts.byName :: n in ts'.byName && ts'.byName[n].columns == ts.byName[n].columns
                                 && SameAt(ts.byName[n].rows, ts'.byName[n].rows, t)
  }

  /** A later DELETE never changes what an earlier snapshot sees, because it marks only versions it
      sees itself. */
  lemma {:induction false} DeletedKeepsSnapshot(row: Row, keep: Row -> bool, txid: int, t: int)
    requires txid > t
    ensures IsVisible(Deleted(row, keep, txid), t) <==> IsVisible(row, t)
    ensures Deleted(row, keep, txid).cols == row.cols
  {
  }

  lemma {:induction false} DeletedFromSameAt(rows: seq<Row>, u: Table, keep: Row -> bool, txid: int, t: int)
    requires SameAt(rows, u.rows, t) && txid > t
    ensures SameAt(rows, DeletedFrom(u, keep, txid).rows, t)
  {
    var rows' := DeletedFrom(u, keep, txid).rows;
    forall i | 0 <= i < |rows'|
      ensures rows'[i].cols == u.rows[i].cols && (IsVisible(rows'[i], t) <==> IsVisible(u.rows[i], t))
    {
      DeletedKeepsSnapshot(u.rows[i], keep, txid, t);
    }
  }

  lemma {:induction false} InsertedSameAt(rows: seq<Row>, u: Table, values: Values, txid: int, t: int)
    requires SameAt(rows, u.rows, t) && txid > t
    ensures SameAt(rows, Inserted(u, values, txid).rows, t)
  {
  }

  lemma {:induction false} StatementSameAt(ts: Tables, mid: Tables, floats: Floats, stmt: Stmt, txid: int, t: int)
    requires TablesSameAt(ts, mid, t) && txid > t
    ensures TablesSameAt(ts, Answer(mid, floats, stmt, txid).1, t)
  {
    if !stmt.Unsupported? && stmt.table in mid.byName && stmt.table in ts.byName {
      var u, rows := mid.byName[stmt.table], ts.byName[stmt.table].rows;
      match stmt
      case InsertStmt(_, names, values) => InsertedSameAt(rows, u, InsertValues(u.columns, names, values), txid, t);
      case DeleteStmt(_, where) => DeletedFromSameAt(rows, u, Keep(u.columns, where, floats), txid, t);
      case _ =>
    }
  }

  lemma {:induction false} RunSameAt(floats: Floats, run: seq<Call>, m: nat, n: nat, t: int)
    requires m <= n <= |run| && forall i | m <= i < n :: run[i].txid > t
    ensures TablesSameAt(TablesAfter(floats, run, m), TablesAfter(floats, run, n), t)
    decreases n
  {
    if m < n {
      RunSameAt(floats, run, m, n - 1, t);
      StatementSameAt(TablesAfter(floats, run, m), TablesAfter(floats, run, n - 1), floats,
                      run[n - 1].stmt, run[n - 1].txid, t);
    }
  }

  lemma {:induction false} NothingSelected(rows: seq<Row>, keep: Row -> bool, t: int, n: nat)
    requires n <= |rows| && forall i | n <= i < |rows| :: !IsVisible(rows[i], t)
    ensures Selected(rows, keep, t) == Selected(rows[..n], keep, t)
    decreases |rows|
  {
    if n < |rows| {
      var init := rows[..|rows| - 1];
      NothingSelected(init, keep, t, n);
      assert init[..n] == rows[..n];
    } else {
      assert rows[..n] == rows;
    }
  }

  /** Selecting by values from lists that look the same gives the same values. */
  lemma {:induction false} SelectedSame(rows: seq<Row>, rows': seq<Row>, keep: Row -> bool, t: int, out: seq<Column>)
    requires |rows| == |rows'| && SameAt(rows, rows', t)
    requires forall r: Row, r': Row | r.cols == r'.cols :: keep(r) == keep(r')
    ensures ProjectAll(Selected(rows', keep, t), out) == ProjectAll(Selected(rows, keep, t), out)
    decreases |rows|
  {
    if rows != [] {
      var n := |rows| - 1;
      SelectedSame(rows[..n], rows'[..n], keep, t, out);
      assert rows'[n].cols == rows[n].cols && (IsVisible(rows'[n], t) <==> IsVisible(rows[n], t));
      assert Project(rows'[n], out) == Project(rows[n], out);
      ProjectAppend(Selected(rows[..n], keep, t), rows[n], out);
      ProjectAppend(Selected(rows'[..n], keep, t), rows'[n], out);
    }
  }

  lemma {:induction false} ProjectAppend(rows: seq<Row>, one: Row, out: seq<Column>)
    ensures ProjectAll(rows + [one], out) == ProjectAll(rows, out) + [Project(one, out)]
    ensures ProjectAll(rows + [], out) == ProjectAll(rows, out)
  {
    assert rows + [] == rows;
  }

  lemma {:induction false} SelectSame(ts: Tables, ts': Tables, floats: Floats, table: string,
                                      columns: Option<seq<string>>, where: seq<Condition>, t: int)
    requires TablesSameAt(ts, ts', t) && table in ts.byName
    ensures Answer(ts', floats, SelectStmt(table, columns, where), t).0
            == Answer(ts, floats, SelectStmt(table, columns, where), t).0
  {
    var u, u' := ts.byName[table], ts'.byName[table];
    var keep, out := Keep(u.columns, where, floats), OutputColumns(columns, u.columns);
    SelectSameRows(u.rows, u'.rows, u.columns, where, floats, t, out);
    assert |ProjectAll(Selected(u'.rows, keep, t), out)| == |Selected(u'.rows, keep, t)|;
    assert |ProjectAll(Selected(u.rows, keep, t), out)| == |Selected(u.rows, keep, t)|;
  }

  lemma {:induction false} SelectSameRows(rows: seq<Row>, rows': seq<Row>, cols: seq<Column>, where: seq<Condition>,
                                          floats: Floats, t: int, out: seq<Column>)
    requires SameAt(rows, rows', t)
    ensures var keep := Keep(cols, where, floats);
            ProjectAll(Selected(rows', keep, t), out) == ProjectAll(Selected(rows, keep, t), out)
  {
    var keep := Keep(cols, where, floats);
    forall r: Row, r': Row | r.cols == r'.cols ensures keep(r) == keep(r') {
      KeepIgnoresVersions(cols, where, floats, r, r');
    }
    NothingSelected(rows', keep, t, |rows|);
    SelectedSame(rows, rows'[..|rows|], keep, t, out);
  }

  // ----- the same on blocks -----

  lemma {:induction false} SelectAnswers(db: DB, ts: Tables, json: Json, floats: Floats, table: string,
                                         columns: Option<seq<string>>, where: seq<Condition>, t: int)
    requires Represents(db, ts, json)
    ensures Exec(db, json, floats, SelectStmt(table, columns, where), t).0
            == Answer(ts, floats, SelectStmt(table, columns, where), t).0
  {
    if table in db.tables {
      SameColumns(db, ts, json, table);
      SelectRefines(db, ts, json, table, Keep(db.tables[table].columns, where, floats), t);
    }
  }

  /** Snapshot stability on blocks: whatever runs with ids greater than t between points m and n, a
      SELECT at t answers the same at both. */
  lemma {:induction false} SnapshotStability(json: Json, floats: Floats, run: seq<Call>, m: nat, n: nat, table: string,
                                             columns: Option<seq<string>>, where: seq<Condition>, t: int)
    requires Runnable(json, floats, run) && m <= n <= |run| && forall i | m <= i < n :: run[i].txid > t
    requires table in StoreAfter(json, floats, run, m).tables
    ensures Exec(StoreAfter(json, floats, run, n), json, floats, SelectStmt(table, columns, where), t).0
            == Exec(StoreAfter(json, floats, run, m), json, floats, SelectStmt(table, columns, where), t).0
  {
    RunRefines(json, floats, run, m);
    RunRefines(json, floats, run, n);
    RunSameAt(floats, run, m, n, t);
    var ts, ts' := TablesAfter(floats, run, m), TablesAfter(floats, run, n);
    SelectSame(ts, ts', floats, table, columns, where, t);
    SelectAnswers(StoreAfter(json, floats, run, m), ts, json, floats, table, columns, where, t);
    SelectAnswers(StoreAfter(json, floats, run, n), ts', json, floats, table, columns, where, t);
  }

  // ----- DELETE conserves -----

  function Every(): Row -> bool {
    (row: Row) => true
  }

  function Not(keep: Row -> bool): Row -> bool {
    (row: Row) => !keep(row)
  }

  /** What txid sees splits into what the condition selects and what it does not. */
  lemma {:induction false} SelectedSplits(rows: seq<Row>, keep: Row -> bool, txid: int)
    ensures |Selected(rows, Every(), txid)| == |Selected(rows, keep, txid)| + |Selected(rows, Not(keep), txid)|
    decreases |rows|
  {
    if rows != [] {
      SelectedSplits(rows[..|rows| - 1], keep, txid);
    }
  }

  /** After DELETE, txid sees exactly the versions the condition did not select, unchanged, and the
      condition selects nothing any more. */
  lemma {:induction false} DeleteRemovesExactly(t: Table, keep: Row -> bool, txid: int)
    ensures Selected(DeletedFrom(t, keep, txid).rows, Every(), txid) == Selected(t.rows, Not(keep), txid)
    ensures Selected(DeletedFrom(t, keep, txid).rows, keep, txid) == []
    decreases |t.rows|
  {
    if t.rows != [] {
      var n := |t.rows| - 1;
      var u := t.(rows := t.rows[..n]);
      DeleteRemovesExactly(u, keep, txid);
      assert DeletedFrom(t, keep, txid).rows[..n] == DeletedFrom(u, keep, txid).rows;
    }
  }

  /** DELETE conservation on blocks. */
  lemma {:induction false} DeleteConserves(db: DB, ts: Tables, json: Json, name: string, keep: Row -> bool, txid: int64)
    requires Represents(db, ts, json) && name in db.tables && Fits(db, db.tables[name].rowCount)
    ensures var m := DeleteRows(db, name, keep, txid);
            var meta := db.tables[name];
            var seen := (w: Blocks, c: Row -> bool) => RowsOf(Matching(w, meta, c, txid, meta.rowCount));
            && m.ok && m.lsn - db.nextLSN == |seen(db.world, Every())| - |seen(m.world, Every())|
            && seen(m.world, Every()) == seen(db.world, Not(keep))
            && seen(m.world, keep) == []
  {
    DeleteRefines(db, ts, json, name, keep, txid);
    var m, t := DeleteRows(db, name, keep, txid), ts.byName[name];
    SelectRefines(db, ts, json, name, Every(), txid);
    SelectRefines(db, ts, json, name, Not(keep), txid);
    SelectRefines(Remarked(db, m), Purged(ts, name, keep, txid), json, name, Every(), txid);
    SelectRefines(Remarked(db, m), Purged(ts, name, keep, txid), json, name, keep, txid);
    SelectedSplits(t.rows, keep, txid);
    DeleteRemovesExactly(t, keep, txid);
  }
}
