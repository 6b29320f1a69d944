/** The writing HAL requests behind each statement, with the block types the storage layer and the log
    give them: performed one after the other they go through the worlds the code goes through. */
module Requests {
  import opened GoText
  import opened World
  import opened Codec
  import opened LogEntry
  import opened Wal
  import opened Layout
  import opened Store
  import opened Query
  import opened Engine
  import opened CrashRuns
  import opened Plugin
  import opened Sent

  /** WriteBlock and BatchWrite. */
  datatype Request =
    | One(write: BlockWrite, kind: byte)
    | Many(writes: seq<BlockWrite>, kinds: seq<byte>)

  function Writes(r: Request): seq<BlockWrite> {
    if r.One? then [r.write] else r.writes
  }

  function Perform(): (Blocks, Request) -> Blocks {
    (w: Blocks, r: Request) => PutAll(w, Writes(r))
  }

  function Performed(w: Blocks, rs: seq<Request>): Blocks {
    Fold(Perform(), w, rs)
  }

  /** The worlds behind each request. */
  function TraceOf(w: Blocks, rs: seq<Request>): (worlds: seq<Blocks>) {
    Folds(Perform(), w, rs)
  }

  lemma {:induction false} PutOne(w: Blocks, one: BlockWrite)
    ensures PutAll(w, [one]) == Put(w, one.pos, one.data)
  {
    assert [one][..0] == [];
  }

  lemma {:induction false} PerformsOne(w: Blocks, rs: seq<Request>, last: Request, v: Blocks, v': Blocks)
    requires Performed(w, rs) == v && v' == PutAll(v, Writes(last))
    ensures Performed(w, rs + [last]) == v' && TraceOf(w, rs + [last]) == TraceOf(w, rs) + [v']
  {
    FoldOne(Perform(), w, rs, last);
  }

  lemma {:induction false} PerformsMore(w: Blocks, rs: seq<Request>, more: seq<Request>, v: Blocks)
    requires Performed(w, rs) == v
    ensures Performed(w, rs + more) == Performed(v, more)
    ensures TraceOf(w, rs + more) == TraceOf(w, rs) + TraceOf(v, more)
  {
    FoldAppend(Perform(), w, rs, more);
  }

  // ----- statement by statement -----

  function BookRequest(lsn: int, book: string): Request {
    One(BlockWrite(Lectern(lsn), book), LECTERN)
  }

  /** Log entry, data, commit; without the commit when it fails. */
  function OpRequests(w: Blocks, lsn: int, op: LoggedOp, kinds: seq<byte>): (rs: seq<Request>) {
    [BookRequest(lsn, Serialize(EntryOf(op, lsn, PENDING)))] + [Many(op.writes, kinds)]
    + CommitRequests(lsn, AfterCommit(w, lsn, op))
  }

  function CommitRequests(lsn: int, committed: Option<Blocks>): (rs: seq<Request>) {
    if committed.Some? then [BookRequest(lsn, Get(committed.value, Lectern(lsn)))] else []
  }

  function MarkRequests(m: Marks, pos: Pos, txid: int): (rs: seq<Request>) {
    if !m.ok || !HasXmax(m.world, pos) then [] else OpRequests(m.world, m.lsn, DeleteOp(pos, txid), [BANNER, BANNER])
  }

  function MarkAllRequests(w: Blocks, lsn: int, rows: seq<Scanned>, txid: int, n: nat): (rs: seq<Request>)
    requires n <= |rows|
  {
    if n == 0 then []
    else MarkAllRequests(w, lsn, rows, txid, n - 1)
         + MarkRequests(MarkAll(w, lsn, rows, txid, n - 1), rows[n - 1].pos, txid)
  }

  function CatalogRequest(db: DB, json: Json, table: string, cols: seq<Column>): Request {
    One(BlockWrite(CatalogPos(db.nextCatalogZ), json.encode(CatalogRow(db.nextTableID, table, TABLE_Y, cols))), BARREL)
  }

  function ExecRequests(db: DB, json: Json, floats: Floats, stmt: Stmt, txid: int): (rs: seq<Request>) {
    match stmt
    case CreateStmt(table, specs) =>
      if table in db.tables then [] else [CatalogRequest(db, json, table, Columns(specs))]
    case InsertStmt(table, names, values) =>
      if table !in db.tables then []
      else
        var meta := db.tables[table];
        var op := InsertOp(meta, InsertValues(meta.columns, names, values), txid, json);
        OpRequests(db.world, db.nextLSN, op, StripKinds(meta.columns))
    case DeleteStmt(table, where) =>
      if table !in db.tables then []
      else
        var meta := db.tables[table];
        var ms := Matching(db.world, meta, Keep(meta.columns, where, floats), txid, meta.rowCount);
        MarkAllRequests(db.world, db.nextLSN, ms, txid, |ms|)
    case _ => []
  }

  // ----- the requests are those of the code -----

  lemma {:induction false} CommitIsOneWrite(w: Blocks, lsn: int)
    requires CommitOf(w, lsn).Some?
    ensures var w' := CommitOf(w, lsn).value; w' == Put(w, Lectern(lsn), Get(w', Lectern(lsn)))
  {
  }

  lemma {:induction false} EntryAndDataAreTraced(w: Blocks, lsn: int, op: LoggedOp, kinds: seq<byte>)
    ensures var rs := [BookRequest(lsn, Serialize(EntryOf(op, lsn, PENDING)))] + [Many(op.writes, kinds)];
            && Performed(w, rs) == AfterData(w, lsn, op)
            && TraceOf(w, rs) == [] + [AfterAppend(w, lsn, op)] + [AfterData(w, lsn, op)]
  {
    var append, data := BookRequest(lsn, Serialize(EntryOf(op, lsn, PENDING))), Many(op.writes, kinds);
    PutOne(w, append.write);
    PerformsOne(w, [], append, w, AfterAppend(w, lsn, op));
    assert [] + [append] == [append];
    PerformsOne(w, [append], data, AfterAppend(w, lsn, op), AfterData(w, lsn, op));
  }

  lemma {:induction false} CommitIsTraced(w: Blocks, rs: seq<Request>, lsn: int, v: Blocks)
    requires Performed(w, rs) == v
    ensures var r := CommitOf(v, lsn);
            && Performed(w, rs + CommitRequests(lsn, r)) == (if r.Some? then r.value else v)
            && TraceOf(w, rs + CommitRequests(lsn, r)) == TraceOf(w, rs) + if r.Some? then [r.value] else []
  {
    var r := CommitOf(v, lsn);
    if r.Some? {
      var commit := BookRequest(lsn, Get(r.value, Lectern(lsn)));
      CommitIsOneWrite(v, lsn);
      PutOne(v, commit.write);
      PerformsOne(w, rs, commit, v, r.value);
    } else {
      assert rs + [] == rs;
    }
  }

  lemma {:induction false} OpIsTraced(w: Blocks, lsn: int, op: LoggedOp, kinds: seq<byte>)
    ensures Performed(w, OpRequests(w, lsn, op, kinds)) == Finished(w, lsn, op)
    ensures TraceOf(w, OpRequests(w, lsn, op, kinds)) == OpTrace([], w, lsn, op)
  {
    EntryAndDataAreTraced(w, lsn, op, kinds);
    CommitIsTraced(w, [BookRequest(lsn, Serialize(EntryOf(op, lsn, PENDING)))] + [Many(op.writes, kinds)], lsn,
                   AfterData(w, lsn, op));
  }

  lemma {:induction false} MarkIsTraced(told: seq<Blocks>, m: Marks, pos: Pos, txid: int)
    ensures Performed(m.world, MarkRequests(m, pos, txid)) == Mark(m, pos, txid).world
    ensures MarkTrace(told, m, pos, txid) == told + TraceOf(m.world, MarkRequests(m, pos, txid))
  {
    MarkTraceAppends(told, [], m, pos, txid);
    assert told + [] == told;
    if m.ok && HasXmax(m.world, pos) {
      OpIsTraced(m.world, m.lsn, DeleteOp(pos, txid), [BANNER, BANNER]);
    }
  }

  lemma {:induction false} MarkAllIsTraced(w: Blocks, lsn: int, rows: seq<Scanned>, txid: int, n: nat)
    requires n <= |rows|
    ensures Performed(w, MarkAllRequests(w, lsn, rows, txid, n)) == MarkAll(w, lsn, rows, txid, n).world
    ensures TraceOf(w, MarkAllRequests(w, lsn, rows, txid, n)) == MarkAllTrace([], w, lsn, rows, txid, n)
  {
    if n > 0 {
      MarkAllIsTraced(w, lsn, rows, txid, n - 1);
      var m, pos := MarkAll(w, lsn, rows, txid, n - 1), rows[n - 1].pos;
      var before, more := MarkAllRequests(w, lsn, rows, txid, n - 1), MarkRequests(m, pos, txid);
      PerformsMore(w, before, more, m.world);
      MarkIsTraced(TraceOf(w, before), m, pos, txid);
    }
  }

  /** A statement's requests, performed on the world before it, go through the worlds the code goes
      through and end where it ends. */
  lemma {:induction false} RequestsAreTraced(db: DB, json: Json, floats: Floats, stmt: Stmt, txid: int)
    ensures var rs := ExecRequests(db, json, floats, stmt, txid);
            && Performed(db.world, rs) == Exec(db, json, floats, stmt, txid).1.world
            && TraceOf(db.world, rs) == ExecTrace([], db, json, floats, stmt, txid)
  {
    if !stmt.Unsupported? && stmt.table in db.tables {
      var meta := db.tables[stmt.table];
      match stmt
      case InsertStmt(_, names, values) =>
        OpIsTraced(db.world, db.nextLSN, InsertOp(meta, InsertValues(meta.columns, names, values), txid, json),
                   StripKinds(meta.columns));
      case DeleteStmt(_, where) =>
        var ms := Matching(db.world, meta, Keep(meta.columns, where, floats), txid, meta.rowCount);
        MarkAllIsTraced(db.world, db.nextLSN, ms, txid, |ms|);
      case _ =>
    } else if stmt.CreateStmt? {
      var r := CatalogRequest(db, json, stmt.table, Columns(stmt.specs));
      PutOne(db.world, r.write);
      PerformsOne(db.world, [], r, db.world, Put(db.world, r.write.pos, r.write.data));
      assert [] + [r] == [r];
    }
  }
}
