/** The executor object: internal/executor/executor.go as code over the storage object. */
module ExecutorCode {
  import opened GoText
  import opened World
  import opened Layout
  import opened Store
  import opened MarkSteps
  import opened StorageCode
  import opened Query
  import opened RefineDelete
  import opened Streaming
  import opened Engine
  import opened CrashRuns

  ghost predicate InsertAnswers(db: DB, json: Json, table: string, m: Values, txid: int, r: Outcome, db': DB)
    requires table in db.tables
  {
    forall k {:trigger Open(OfInsert, k)} :: Open(OfInsert, k) ==> (r, db') == ExecInsert(db, json, table, m, txid)
  }

  lemma {:induction false} InsertIsAnswer(db: DB, json: Json, table: string, m: Values, txid: int, w': Blocks, ok: bool)
    requires table in db.tables
    requires InsertDone(db.world, db.nextLSN, db.tables[table], m, txid, json, w', ok)
    ensures InsertAnswers(db, json, table, m, txid, if ok then Tagged("INSERT 0 1") else Failed, Grown(db, table, w'))
  {
    assert Open(OfInsert, true);
    InsertIs(db, json, table, m, txid, InsertOp(db.tables[table], m, txid, json));
  }

  lemma {:induction false} InsertIs(db: DB, json: Json, table: string, m: Values, txid: int, op: LoggedOp)
    requires table in db.tables && op == InsertOp(db.tables[table], m, txid, json)
    ensures ExecInsert(db, json, table, m, txid)
            == (if AfterCommit(db.world, db.nextLSN, op).Some? then Tagged("INSERT 0 1") else Failed,
                Grown(db, table, Finished(db.world, db.nextLSN, op)))
  {
  }

  /** The values an INSERT gives its table, sealed. */
  ghost predicate GivenValues(m: Values, cols: seq<Column>, names: seq<string>, values: seq<Value>) {
    forall k {:trigger Open(OfInsert, k)} :: Open(OfInsert, k) ==> m == InsertValues(cols, names, values)
  }

  lemma {:induction false} InsertAnswered(db: DB, json: Json, floats: Floats, table: string, names: seq<string>,
                                          values: seq<Value>, m: Values, txid: int, r: Outcome, db': DB)
    requires table in db.tables && GivenValues(m, db.tables[table].columns, names, values)
    requires InsertAnswers(db, json, table, m, txid, r, db')
    ensures Answered(db, json, floats, InsertStmt(table, names, values), txid, r, db')
  {
    assert Open(OfInsert, true);
  }

  lemma {:induction false} InsertIsCall(told: seq<Blocks>, db: DB, json: Json, floats: Floats, table: string,
                                        names: seq<string>, values: seq<Value>, m: Values, txid: int, r: Outcome, db': DB,
                                        trace: seq<Blocks>)
    requires table in db.tables && GivenValues(m, db.tables[table].columns, names, values)
    requires InsertAnswers(db, json, table, m, txid, r, db')
    requires InsertTraced(told, db.world, db.nextLSN, db.tables[table], m, txid, json, trace)
    ensures Answered(db, json, floats, InsertStmt(table, names, values), txid, r, db')
    ensures Traced(told, db, json, floats, InsertStmt(table, names, values), txid, trace)
  {
    InsertAnswered(db, json, floats, table, names, values, m, txid, r, db');
    InsertIsTraced(told, db, json, floats, table, names, values, m, txid, trace);
  }

  /** What executeInsert answers, sealed. */
  ghost predicate Answered(db: DB, json: Json, floats: Floats, stmt: Stmt, txid: int, r: Outcome, db': DB) {
    forall k {:trigger Open(OfAnswer, k)} :: Open(OfAnswer, k) ==> (r, db') == Exec(db, json, floats, stmt, txid)
  }

  ghost predicate Traced(told: seq<Blocks>, db: DB, json: Json, floats: Floats, stmt: Stmt, txid: int,
                         trace: seq<Blocks>) {
    forall k {:trigger Open(OfAnswer, k)} :: Open(OfAnswer, k) ==> trace == ExecTrace(told, db, json, floats, stmt,
                                                                                      txid)
  }

  lemma {:induction false} InsertIsTraced(told: seq<Blocks>, db: DB, json: Json, floats: Floats, table: string,
                                          names: seq<string>, values: seq<Value>, m: Values, txid: int, trace: seq<Blocks>)
    requires table in db.tables && GivenValues(m, db.tables[table].columns, names, values)
    requires InsertTraced(told, db.world, db.nextLSN, db.tables[table], m, txid, json, trace)
    ensures Traced(told, db, json, floats, InsertStmt(table, names, values), txid, trace)
  {
    assert Open(OfInsert, true);
  }

  /** LSNs and table ids start at 1, so tables lie at Z >= 0. */
  ghost predicate InPlace(db: DB) {
    db.nextLSN >= 1 && db.nextTableID >= 1 && forall n | n in db.tables :: db.tables[n].zStart >= 0
  }

  lemma {:induction false} MarksMoveOn(w: Blocks, lsn: int, ms: seq<Scanned>, txid: int, n: nat)
    requires n <= |ms|
    ensures lsn <= MarkAll(w, lsn, ms, txid, n).lsn
  {
    if n > 0 {
      MarksMoveOn(w, lsn, ms, txid, n - 1);
      MarkMoves(MarkAll(w, lsn, ms, txid, n - 1), ms[n - 1].pos, txid);
    }
  }

  lemma {:induction false} ExecKeepsPlace(db: DB, json: Json, floats: Floats, stmt: Stmt, txid: int)
    requires InPlace(db)
    ensures InPlace(Exec(db, json, floats, stmt, txid).1)
  {
    if stmt.DeleteStmt? && stmt.table in db.tables {
      var meta := db.tables[stmt.table];
      var ms := Matching(db.world, meta, Keep(meta.columns, stmt.where, floats), txid, meta.rowCount);
      MarksMoveOn(db.world, db.nextLSN, ms, txid, |ms|);
    }
  }

  class Executor {
    const store: Storage
    const floats: Floats

    constructor (s: Storage, f: Floats)
      ensures store == s && floats == f
    {
      store, floats := s, f;
    }

    /** What NewWAL and CreateTable set up and nothing undoes: LSNs start at 1 and tables lie at Z >= 0. */
    ghost predicate Ready()
      reads this, store, store.log
    {
      && store.Valid()
      && store.log.nextLSN >= 1 && store.nextTableID >= 1
      && (forall n | n in store.tables :: store.tables[n].zStart >= 0)
    }

    method InsertInto(table: string, m: Values, txid: int64) returns (r: Outcome)
      requires store.Valid() && table in store.tables
      modifies store.hal, store.log`nextLSN, store.metas
      ensures store.Valid()
      ensures InsertAnswers(old(store.State()), store.json, table, m, txid, r, store.State())
      ensures InsertTraced(old(store.hal.trace), old(store.hal.store), old(store.log.nextLSN),
                           old(store.State()).tables[table],
                           m, txid, store.json, store.hal.trace)
    {
      var meta := store.tables[table];
      var pos := store.InsertRow(meta, m, txid);
      assert store.TablesValue() == old(store.TablesValue())[table := meta.Value()];
      r := if pos.Some? then Tagged("INSERT 0 1") else Failed;
      assert store.State() == Grown(old(store.State()), table, store.hal.store);
      InsertIsAnswer(old(store.State()), store.json, table, m, txid, store.hal.store, pos.Some?);
    }

    method ExecuteInsert(table: string, names: seq<string>, values: seq<Value>, txid: int64) returns (r: Outcome)
      requires store.Valid()
      modifies store.hal, store.log`nextLSN, store.metas
      ensures store.Valid()
      ensures Answered(old(store.State()), store.json, floats, InsertStmt(table, names, values), txid, r, store.State())
      ensures Traced(old(store.hal.trace), old(store.State()), store.json, floats, InsertStmt(table, names, values),
                     txid, store.hal.trace)
    {
      var meta := store.GetTable(table);
      if meta.None? {
        return Failed;
      }
      r := InsertNamed(table, names, values, txid);
    }

    method InsertNamed(table: string, names: seq<string>, values: seq<Value>, txid: int64) returns (r: Outcome)
      requires store.Valid() && table in store.tables
      modifies store.hal, store.log`nextLSN, store.metas
      ensures store.Valid()
      ensures Answered(old(store.State()), store.json, floats, InsertStmt(table, names, values), txid, r, store.State())
      ensures Traced(old(store.hal.trace), old(store.State()), store.json, floats, InsertStmt(table, names, values),
                     txid, store.hal.trace)
    {
      ghost var db, told := store.State(), store.hal.trace;
      var m := ValuesFor(table, names, values);
      r := InsertInto(table, m, txid);
      InsertIsCall(told, db, store.json, floats, table, names, values, m, txid, r, store.State(), store.hal.trace);
    }

    method ValuesFor(table: string, names: seq<string>, values: seq<Value>) returns (m: Values)
      requires store.Valid() && table in store.tables
      ensures GivenValues(m, store.State().tables[table].columns, names, values)
    {
      m := CollectValues(store.tables[table].columns, names, values);
    }

    method ExecuteSelect(table: string, columns: Option<seq<string>>, where: seq<Condition>, txid: int64)
      returns (r: Outcome)
      requires store.Valid()
      ensures r == Exec(store.State(), store.json, floats, SelectStmt(table, columns, where), txid).0
    {
      var meta := store.GetTable(table);
      if meta.None? {
        return Failed;
      }
      var cols := meta.value.columns;
      var colMap := BuildColumnMap(cols);
      var out := ResolveOutputColumns(columns, cols);
      var scanned := store.SeqScan(meta.value, txid);
      var rows := FilterAndProject(scanned, cols, where, colMap, out);
      ghost var keep := Keep(cols, where, floats);
      KeptScanIsMatching(store.hal.store, meta.value.Value(), keep, txid, meta.value.rowCount);
      r := Done(Result(Names(out), TypeNames(out), rows, "SELECT " + Itoa(|rows|)));
    }

    /** The loop of executeSelect over the scanned rows. */
    method FilterAndProject(scanned: seq<Scanned>, cols: seq<Column>, where: seq<Condition>, colMap: map<string, int>,
                            out: seq<Column>)
      returns (rows: seq<seq<Value>>)
      requires colMap == ColumnMap(cols, |cols|)
      ensures rows == ProjectAll(RowsOf(Kept(scanned, Keep(cols, where, floats))), out)
    {
      ghost var keep := Keep(cols, where, floats);
      rows := [];
      for i := 0 to |scanned|
        invariant rows == ProjectAll(RowsOf(Kept(scanned[..i], keep)), out)
      {
        assert scanned[..i + 1] == scanned[..i] + [scanned[i]];
        KeptAppend(scanned[..i], scanned[i], keep);
        var ok := EvaluateWhere(scanned[i].row, where, colMap, floats);
        if ok {
          var data := ProjectRow(scanned[i].row, out);
          RowsOfAppend(Kept(scanned[..i], keep), scanned[i]);
          rows := rows + [data];
        }
      }
      assert scanned[..|scanned|] == scanned;
    }

    /** Where a DELETE and its scan stand between two HAL requests. */
    ghost predicate Underway(told: seq<Blocks>, w: Blocks, lsn: int, meta: TableMeta, keep: Row -> bool, txid: int,
                             next: nat,
                             g: Mid, count: nat, queue: seq<Scanned>, k: Marker, ok: bool)
      reads store.hal, store.log, meta
    {
      Going(told, w, lsn, meta.Value(), keep, txid, next, g, count, queue, k, store.hal.store, store.log.nextLSN, ok,
            store.hal.trace)
    }

    /** The scan goroutine reads one more slot. */
    method ReadAhead(meta: TableMeta, txid: int64, next: nat, queue: seq<Scanned>, ghost count: nat, ghost k: Marker,
                     ghost told: seq<Blocks>, ghost w: Blocks, ghost lsn: int, ghost keep: Row -> bool, ghost g: Mid)
      returns (queue': seq<Scanned>)
      requires Underway(told, w, lsn, meta, keep, txid, next, g, count, queue, k, true)
      ensures Underway(told, w, lsn, meta, keep, txid, next + 1, g, count, queue', k, true)
    {
      var s := store.ReadSlot(meta, next, txid);
      GoingReads(told, w, lsn, meta.Value(), keep, txid, next, g, count, queue, k, store.hal.store, store.log.nextLSN,
                 true,
                 store.hal.trace, s);
      queue' := queue + if s.Some? then [s.value] else [];
    }

    /** The executor receives the next row and, if it matches, turns to marking it. */
    method TakeRow(meta: TableMeta, where: seq<Condition>, colMap: map<string, int>, txid: int64, queue: seq<Scanned>,
                   count: nat, ghost next: nat, ghost told: seq<Blocks>, ghost w: Blocks, ghost lsn: int,
                   ghost keep: Row -> bool, ghost g: Mid)
      returns (k: Marker, ghost g': Mid)
      requires queue != [] && colMap == ColumnMap(meta.columns, |meta.columns|)
      requires keep == Keep(meta.columns, where, floats)
      requires Underway(told, w, lsn, meta, keep, txid, next, g, count, queue, Free, true)
      ensures k == if keep(queue[0].row) then Asked(queue[0].pos) else Free
      ensures Underway(told, w, lsn, meta, keep, txid, next, g', count, queue[1..], k, true)
    {
      ghost var value, w', lsn', trace := meta.Value(), store.hal.store, store.log.nextLSN, store.hal.trace;
      var hit := EvaluateWhere(queue[0].row, where, colMap, floats);
      if hit {
        GoingTakes(told, w, lsn, value, keep, txid, next, g, count, queue, w', lsn', trace);
        k, g' := Asked(queue[0].pos), g.(cur := [queue[0]]);
      } else {
        GoingSkips(told, w, lsn, value, keep, txid, next, g, count, queue, w', lsn', trace);
        k, g' := Free, g.(taken := g.taken + [queue[0]]);
      }
    }

    /** One HAL request of the mark in hand. */
    method StepRow(meta: TableMeta, k: Marker, txid: int64, count: nat, ghost queue: seq<Scanned>, ghost next: nat,
                   ghost told: seq<Blocks>, ghost w: Blocks, ghost lsn: int, ghost keep: Row -> bool, ghost g: Mid)
      returns (k': Marker, ok: bool, count': nat, ghost g': Mid)
      requires store.log.hal == store.hal && !k.Free?
      requires Underway(told, w, lsn, meta, keep, txid, next, g, count, queue, k, true)
      modifies store.hal, store.log`nextLSN
      ensures Rank(k') < Rank(k) && (!ok ==> k'.Free?)
      ensures Underway(told, w, lsn, meta, keep, txid, next, g', count', queue, k', ok)
    {
      ghost var w', lsn', trace := store.hal.store, store.log.nextLSN, store.hal.trace;
      k', ok := store.StepMark(k, txid, g.m, g.told);
      count', g' := count, g;
      if k'.Free? {
        ghost var m := Marks(store.hal.store, store.log.nextLSN, ok);
        GoingMarks(told, w, lsn, meta.Value(), keep, txid, next, g, count, queue, k, w', lsn', trace, m,
                   store.hal.trace);
        count', g' := count + 1, Mid(m, store.hal.trace, g.taken + g.cur, []);
      }
    }

    /** The loop of executeDelete beside the scan goroutine. Before every HAL request `ahead` decides who
        makes it: the goroutine, reading its next slot, or the executor, in the middle of a mark or not.
        The result does not depend on it. */
    method ScanAndMark(meta: TableMeta, where: seq<Condition>, txid: int64, ahead: nat -> bool)
      returns (count: nat, ok: bool)
      requires store.Valid() && store.log.nextLSN >= 1 && meta.zStart >= 0
      modifies store.hal, store.log`nextLSN
      ensures AllMarked(old(store.hal.store), old(store.log.nextLSN), meta.Value(), Keep(meta.columns, where, floats),
                        txid,
                        meta.rowCount)
              == Marks(store.hal.store, store.log.nextLSN, ok)
      ensures ok ==> count == |Matching(old(store.hal.store), meta.Value(), Keep(meta.columns, where, floats), txid,
                                        meta.rowCount)|
      ensures store.hal.trace == AllMarkedTrace(old(store.hal.trace), old(store.hal.store), old(store.log.nextLSN),
                                                meta.Value(), Keep(meta.columns, where, floats), txid, meta.rowCount)
    {
      var colMap := BuildColumnMap(meta.columns);
      ghost var keep := Keep(meta.columns, where, floats);
      ghost var told, w, lsn := store.hal.trace, store.hal.store, store.log.nextLSN;
      var rowCount := meta.rowCount;
      var next, step := 0, 0;
      var queue: seq<Scanned> := [];
      var k := Free;
      ghost var g := Mid(Marks(w, lsn, true), told, [], []);
      GoingStarts(told, w, lsn, meta.Value(), keep, txid);
      count, ok := 0, true;
      while ok && (next < rowCount || queue != [] || !k.Free?)
        invariant 0 <= next <= rowCount == meta.rowCount && (!ok ==> k.Free?)
        invariant Underway(told, w, lsn, meta, keep, txid, next, g, count, queue, k, ok)
        decreases rowCount - next, 7 * |queue| + Rank(k)
      {
        if next < rowCount && ((queue == [] && k.Free?) || ahead(step)) {
          queue := ReadAhead(meta, txid, next, queue, count, k, told, w, lsn, keep, g);
          next := next + 1;
        } else if k.Free? {
          k, g := TakeRow(meta, where, colMap, txid, queue, count, next, told, w, lsn, keep, g);
          queue := queue[1..];
        } else {
          k, ok, count, g := StepRow(meta, k, txid, count, queue, next, told, w, lsn, keep, g);
        }
        step := step + 1;
      }
      GoingEnds(told, w, lsn, meta.Value(), keep, txid, next, g, count, queue, store.hal.store, store.log.nextLSN, ok,
                store.hal.trace, rowCount);
    }

    method ExecuteDelete(table: string, where: seq<Condition>, txid: int64, ahead: nat -> bool) returns (r: Outcome)
      requires Ready()
      modifies store.hal, store.log`nextLSN
      ensures store.Valid()
      ensures (r, store.State()) == Exec(old(store.State()), store.json, floats, DeleteStmt(table, where), txid)
      ensures store.hal.trace
              == ExecTrace(old(store.hal.trace), old(store.State()), store.json, floats, DeleteStmt(table, where), txid)
    {
      var meta := store.GetTable(table);
      if meta.None? {
        return Failed;
      }
      var count, ok := ScanAndMark(meta.value, where, txid, ahead);
      assert store.TablesValue() == old(store.TablesValue());
      r := if ok then Tagged("DELETE " + Itoa(count)) else Failed;
    }

    method ExecuteCreateTable(table: string, specs: seq<ColumnSpec>) returns (r: Outcome)
      requires store.Valid()
      modifies store, store.hal
      ensures store.Valid() && fresh(store.metas - old(store.metas))
      ensures forall txid :: (r, store.State())
                             == Exec(old(store.State()), store.json, floats, CreateStmt(table, specs), txid)
      ensures forall txid :: store.hal.trace
                             == ExecTrace(old(store.hal.trace), old(store.State()), store.json, floats,
                                          CreateStmt(table, specs), txid)
    {
      var cols := BuildColumns(specs);
      var ok := store.CreateTable(table, cols);
      r := if ok then Tagged("CREATE TABLE") else Failed;
    }

    method Execute(stmt: Stmt, txid: int64, ahead: nat -> bool) returns (r: Outcome)
      requires Ready()
      modifies store, store.hal, store.log`nextLSN, store.metas
      ensures Ready() && fresh(store.metas - old(store.metas))
      ensures (r, store.State()) == Exec(old(store.State()), store.json, floats, stmt, txid)
      ensures store.hal.trace == ExecTrace(old(store.hal.trace), old(store.State()), store.json, floats, stmt, txid)
    {
      assert InPlace(store.State());
      ExecKeepsPlace(store.State(), store.json, floats, stmt, txid);
      match stmt {
        case CreateStmt(table, specs) => r := ExecuteCreateTable(table, specs);
        case InsertStmt(table, names, values) =>
          r := ExecuteInsert(table, names, values, txid);
          assert Open(OfAnswer, true);
        case SelectStmt(table, columns, where) => r := ExecuteSelect(table, columns, where, txid);
        case DeleteStmt(table, where) => r := ExecuteDelete(table, where, txid, ahead);
        case Unsupported => r := Failed;
      }
      assert forall n | n in store.tables :: store.State().tables[n].zStart == store.tables[n].zStart;
    }

    /** A client's session on a fresh engine: every answer, the final state and every world on the way are
        those of the run. */
    method Run(run: seq<Call>, ahead: nat -> bool) returns (outcomes: seq<Outcome>)
      requires Ready() && store.State() == EMPTY && store.hal.trace == []
      modifies store, store.hal, store.log`nextLSN, store.metas
      ensures Ready() && store.State() == StoreAfter(store.json, floats, run, |run|)
      ensures |outcomes| == |run| && forall i | 0 <= i < |run| :: outcomes[i] == OutcomeOf(store.json, floats, run, i)
      ensures store.hal.trace == RunTrace(store.json, floats, run, |run|)
    {
      outcomes := [];
      AtFirstCall(store.json, floats, run);
      for i := 0 to |run|
        invariant Ready() && fresh(store.metas - old(store.metas))
        invariant AtCall(store.json, floats, run, i, store.State(), store.hal.trace, outcomes)
      {
        var r := ExecuteCall(run, i, ahead, outcomes);
        outcomes := outcomes + [r];
      }
      assert Open(OfCall, true);
    }

    method ExecuteCall(run: seq<Call>, i: nat, ahead: nat -> bool, ghost outcomes: seq<Outcome>) returns (r: Outcome)
      requires i < |run| && Ready()
      requires AtCall(store.json, floats, run, i, store.State(), store.hal.trace, outcomes)
      modifies store, store.hal, store.log`nextLSN, store.metas
      ensures Ready() && fresh(store.metas - old(store.metas))
      ensures AtCall(store.json, floats, run, i + 1, store.State(), store.hal.trace, outcomes + [r])
    {
      ghost var db, trace := store.State(), store.hal.trace;
      r := Execute(run[i].stmt, run[i].txid, ahead);
      AtNextCall(store.json, floats, run, i, db, trace, outcomes, r, store.State(), store.hal.trace);
    }
  }
}
