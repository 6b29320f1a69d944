/** Starting again: what LoadCatalog finds after any run, and after a crash in any run. */
module Restart {
  import opened GoText
  import opened World
  import opened Wal
  import opened Recovery
  import opened Layout
  import opened Store
  import opened Crash
  import opened Query
  import opened Refine
  import opened RefineDelete
  import opened Catalog
  import opened Streaming
  import opened Engine
  import opened CrashRuns

  // ----- what any world loads to -----

  /** The blocks scanned: up to the first empty one, or 1024. */
  ghost predicate ScansTo(w: Blocks, n: nat) {
    && n <= 1024 && (forall z | 0 <= z < n :: Get(w, CatalogPos(z)) != "")
    && (n < 1024 ==> Get(w, CatalogPos(n)) == "")
  }

  /** The table each block describes; one that does not decode, or has the empty name, describes none. */
  function Described(w: Blocks, json: Json): nat -> Option<CatalogRow> {
    (z: nat) =>
      var r := json.decode(Get(w, CatalogPos(z)));
      if r.Some? && r.value.name != "" then r else None
  }

  predicate Names(f: nat -> Option<CatalogRow>, z: nat, name: string) {
    f(z).Some? && f(z).value.name == name
  }

  /** The last of the first n that has this name. */
  predicate LastNames(f: nat -> Option<CatalogRow>, n: nat, name: string, z: nat) {
    z < n && Names(f, z, name) && forall i: nat | z < i < n :: !Names(f, i, name)
  }

  /** A table without rows, its slots where its number puts them. */
  function Fresh(r: CatalogRow): Meta {
    Meta(r.tableID, r.name, 64, (r.tableID - 1) * 10000, StripWidth(r.columns), r.columns, 0)
  }

  /** The tables are those described by the first n blocks; of two with one name the last counts. */
  ghost predicate TablesMean(f: nat -> Option<CatalogRow>, n: nat, tables: map<string, Meta>) {
    && (forall name | name in tables :: exists z: nat :: LastNames(f, n, name, z))
    && forall z: nat, name | LastNames(f, n, name, z) :: name in tables && tables[name] == Fresh(f(z).value)
  }

  /** The largest number of a table, or 0. */
  ghost predicate IsLargest(f: nat -> Option<CatalogRow>, n: nat, id: int) {
    && id >= 0 && (forall z: nat | z < n && f(z).Some? :: f(z).value.tableID <= id)
    && (id == 0 || exists z: nat :: z < n && f(z).Some? && f(z).value.tableID == id)
  }

  /** The place behind the last block that describes a table, or 0. */
  ghost predicate IsBehindLast(f: nat -> Option<CatalogRow>, n: nat, end: int) {
    && 0 <= end <= n && (forall z: nat | end <= z < n :: f(z).None?)
    && (end == 0 || f(end - 1).Some?)
  }

  lemma {:induction false} LastNamesNext(f: nat -> Option<CatalogRow>, k: nat, n: nat, name: string, z: nat)
    requires n == k + 1
    ensures LastNames(f, n, name, z) <==> if Names(f, k, name) then z == k else LastNames(f, k, name, z)
  {
  }

  lemma {:induction false} TablesNext(f: nat -> Option<CatalogRow>, k: nat, n: nat, tables: map<string, Meta>)
    requires n == k + 1 && TablesMean(f, k, tables)
    ensures f(k).None? ==> TablesMean(f, n, tables)
    ensures f(k).Some? ==> TablesMean(f, n, tables[f(k).value.name := Fresh(f(k).value)])
  {
    var tables' := if f(k).Some? then tables[f(k).value.name := Fresh(f(k).value)] else tables;
    forall name | name in tables' ensures exists z: nat :: LastNames(f, n, name, z) {
      if Names(f, k, name) {
        LastNamesNext(f, k, n, name, k);
      } else {
        var z: nat :| LastNames(f, k, name, z);
        LastNamesNext(f, k, n, name, z);
      }
    }
    forall z: nat, name | LastNames(f, n, name, z) ensures name in tables' && tables'[name] == Fresh(f(z).value) {
      LastNamesNext(f, k, n, name, z);
    }
  }

  lemma {:induction false} LargestNext(f: nat -> Option<CatalogRow>, k: nat, n: nat, id: int)
    requires n == k + 1 && IsLargest(f, k, id)
    ensures IsLargest(f, n, if f(k).Some? then Max(id, f(k).value.tableID) else id)
  {
    if id != 0 {
      var z: nat :| z < k && f(z).Some? && f(z).value.tableID == id;
    }
  }

  lemma {:induction false} LoadRowIs(w: Blocks, json: Json, l: Loaded, k: nat)
    ensures var r := Described(w, json)(k);
            LoadRow(w, json, l, k)
            == if r.None? then l
               else Loaded(l.tables[r.value.name := Fresh(r.value)], Max(l.maxTableID, r.value.tableID),
                           Max(l.lastZ, k + 1))
  {
  }

  ghost predicate LoadMeans(f: nat -> Option<CatalogRow>, n: nat, l: Loaded) {
    TablesMean(f, n, l.tables) && IsLargest(f, n, l.maxTableID) && IsBehindLast(f, n, l.lastZ)
  }

  lemma {:induction false} LoadNext(w: Blocks, json: Json, k: nat, n: nat, l: Loaded)
    requires n == k + 1 && LoadMeans(Described(w, json), k, l)
    ensures LoadMeans(Described(w, json), n, LoadRow(w, json, l, k))
  {
    var f := Described(w, json);
    TablesNext(f, k, n, l.tables);
    LargestNext(f, k, n, l.maxTableID);
    LoadRowIs(w, json, l, k);
  }

  lemma {:induction false} LoadsAsMeant(w: Blocks, json: Json, n: nat)
    ensures LoadMeans(Described(w, json), n, LoadTo(w, json, map[], n))
  {
    if n > 0 {
      LoadsAsMeant(w, json, n - 1);
      LoadNext(w, json, n - 1, n, LoadTo(w, json, map[], n - 1));
    }
  }

  lemma {:induction false} ScanIsMeant(w: Blocks, from: nat)
    requires from <= MAX_CATALOG_Z && forall z | 0 <= z < from :: Get(w, CatalogPos(z)) != ""
    ensures ScansTo(w, CatalogLength(w, from))
    decreases MAX_CATALOG_Z - from
  {
    if from < MAX_CATALOG_Z && Get(w, CatalogPos(from)) != "" {
      ScanIsMeant(w, from + 1);
    }
  }

  /** What LoadCatalog makes of any world, damaged ones included: the tables its blocks describe up to the
      first empty one, the largest number among them, and where the next catalog block goes. */
  lemma {:induction false} CatalogIsMeant(w: Blocks, json: Json) returns (n: nat)
    ensures ScansTo(w, n)
    ensures var f, l := Described(w, json), CatalogOf(w, json, map[]);
            && TablesMean(f, n, l.tables) && IsLargest(f, n, l.maxTableID)
            && if n < 1024 then l.lastZ == n else IsBehindLast(f, n, l.lastZ)
  {
    n := CatalogLength(w, 0);
    ScanIsMeant(w, 0);
    LoadsAsMeant(w, json, n);
  }

  // ----- columns of a run are canonical -----

  predicate CanonicalTables(ts: Tables) {
    forall n | n in ts.byName :: Canonical(ts.byName[n].columns)
  }

  /** The columns of a CREATE TABLE are counted by an int64. */
  predicate Countable(stmt: Stmt) {
    stmt.CreateStmt? ==> IsInt64(|stmt.specs|)
  }

  lemma {:induction false} TypesAreCanonical(t: string)
    ensures NormalizeType(t).OTHER? ==> NormalizeType(t).name !in ["INT", "BIGINT", "BOOLEAN", "TEXT"]
  {
  }

  lemma {:induction false} ColumnsAreCanonical(specs: seq<ColumnSpec>)
    requires IsInt64(|specs|)
    ensures Canonical(Columns(specs))
  {
    forall i | 0 <= i < |specs|
      ensures var c := Columns(specs)[i];
              IsInt64(c.ordinal) && (c.typ.OTHER? ==> c.typ.name !in ["INT", "BIGINT", "BOOLEAN", "TEXT"])
    {
      TypesAreCanonical(specs[i].typ);
    }
  }

  lemma {:induction false} AnswerIsCanonical(ts: Tables, floats: Floats, stmt: Stmt, txid: int)
    requires CanonicalTables(ts) && Countable(stmt)
    ensures CanonicalTables(Answer(ts, floats, stmt, txid).1)
  {
    if stmt.CreateStmt? {
      ColumnsAreCanonical(stmt.specs);
    }
  }

  lemma {:induction false} RunIsCanonical(floats: Floats, run: seq<Call>, n: nat)
    requires n <= |run| && forall i | 0 <= i < |run| :: Countable(run[i].stmt)
    ensures CanonicalTables(TablesAfter(floats, run, n))
  {
    if n > 0 {
      RunIsCanonical(floats, run, n - 1);
      AnswerIsCanonical(TablesAfter(floats, run, n - 1), floats, run[n - 1].stmt, run[n - 1].txid);
    }
  }

  lemma {:induction false} StoreIsCanonical(db: DB, ts: Tables, json: Json)
    requires Represents(db, ts, json) && CanonicalTables(ts)
    ensures AllCanonical(db)
  {
    forall n | n in db.tables ensures Canonical(db.tables[n].columns) {
      PlacedFields(db, ts, json, n);
    }
  }

  /** After every run from an empty world LoadCatalog rebuilds the tables if and only if they are
      Restorable. */
  lemma {:induction false} RunRebuilds(json: Json, floats: Floats, run: seq<Call>, n: nat)
    requires Runnable(json, floats, run) && Rereads(json) && n <= |run|
    requires forall i | 0 <= i < |run| :: Countable(run[i].stmt)
    ensures var db := StoreAfter(json, floats, run, n);
            Rebuilt(db, CatalogOf(db.world, json, map[])) <==> Restorable(db)
  {
    var db, ts := ReachedAll(json, floats, run, n);
    assert Open(OfRun, true);
    RunIsCanonical(floats, run, n);
    StoreIsCanonical(db, ts, json);
    CatalogRebuild(db, ts, json);
  }

  // ----- a crash changes the catalog as a whole statement does, or not at all -----

  ghost predicate SameCatalog(w: Blocks, w': Blocks) {
    forall z :: Get(w', CatalogPos(z)) == Get(w, CatalogPos(z))
  }

  lemma {:induction false} SameLength(w: Blocks, w': Blocks, from: nat)
    requires SameCatalog(w, w') && from <= MAX_CATALOG_Z
    ensures CatalogLength(w', from) == CatalogLength(w, from)
    decreases MAX_CATALOG_Z - from
  {
    if from < MAX_CATALOG_Z && Get(w, CatalogPos(from)) != "" {
      SameLength(w, w', from + 1);
    }
  }

  lemma {:induction false} SameLoad(w: Blocks, w': Blocks, json: Json, tables: map<string, Meta>, n: nat)
    requires SameCatalog(w, w')
    ensures LoadTo(w', json, tables, n) == LoadTo(w, json, tables, n)
  {
    if n > 0 {
      SameLoad(w, w', json, tables, n - 1);
    }
  }

  lemma {:induction false} SameCatalogLoads(w: Blocks, w': Blocks, json: Json, tables: map<string, Meta>)
    requires SameCatalog(w, w')
    ensures CatalogOf(w', json, tables) == CatalogOf(w, json, tables)
  {
    SameLength(w, w', 0);
    SameLoad(w, w', json, tables, CatalogLength(w, 0));
  }

  lemma {:induction false} RecoveryKeepsCatalog(w: Blocks)
    ensures SameCatalog(w, Recovered(w))
  {
    forall z ensures Get(Recovered(w), CatalogPos(z)) == Get(w, CatalogPos(z)) {
      RecoveryFootprint(w, CatalogPos(z));
    }
  }

  lemma {:induction false} CrashKeepsCatalog(w: Blocks, lsn: int, op: LoggedOp, steps: nat)
    requires forall i | 0 <= i < |op.writes| :: op.writes[i].pos.y != CATALOG_Y || op.writes[i].pos.x in {2, 3}
    ensures SameCatalog(w, CrashWorld(w, lsn, op, steps))
  {
    forall z ensures Get(CrashWorld(w, lsn, op, steps), CatalogPos(z)) == Get(w, CatalogPos(z)) {
      SequenceTouches(w, lsn, op, CatalogPos(z));
    }
  }

  lemma {:induction false} InsertKeepsCatalog(w: Blocks, lsn: int, meta: Meta, values: Values, txid: int, json: Json,
                                              steps: nat)
    requires meta.yLevel == TABLE_Y
    ensures SameCatalog(w, CrashWorld(w, lsn, InsertOp(meta, values, txid, json), steps))
  {
    CrashKeepsCatalog(w, lsn, InsertOp(meta, values, txid, json), steps);
  }

  lemma {:induction false} MarksKeepCatalog(w: Blocks, lsn: int, meta: Meta, keep: Row -> bool, txid: int, n: nat)
    ensures SameCatalog(w, AllMarked(w, lsn, meta, keep, txid, n).world)
  {
    var ms := Matching(w, meta, keep, txid, n);
    forall z ensures Get(AllMarked(w, lsn, meta, keep, txid, n).world, CatalogPos(z)) == Get(w, CatalogPos(z)) {
      assert !OwnBlock(CatalogPos(z), lsn, ms);
      DeleteFootprint(w, lsn, ms, txid, |ms|, CatalogPos(z));
    }
  }

  lemma {:induction false} MarkKeepsCatalog(w: Blocks, m: Marks, pos: Pos, txid: int, steps: nat)
    requires SameCatalog(w, m.world)
    ensures SameCatalog(w, CrashWorld(m.world, m.lsn, DeleteOp(pos, txid), steps))
  {
    CrashKeepsCatalog(m.world, m.lsn, DeleteOp(pos, txid), steps);
  }

  lemma {:induction false} MidDeleteKeepsCatalog(db: DB, table: string, keep: Row -> bool, txid: int, k: nat,
                                                 steps: nat)
    requires table in db.tables
    ensures SameCatalog(db.world, MidDelete(db, table, keep, txid, k, steps))
  {
    var meta := db.tables[table];
    var m, s := AllMarked(db.world, db.nextLSN, meta, keep, txid, k), ScanSlot(db.world, meta, k, txid);
    MarksKeepCatalog(db.world, db.nextLSN, meta, keep, txid, k);
    if s.Some? {
      MarkKeepsCatalog(db.world, m, s.value.pos, txid, steps);
    }
  }

  /** Stop a statement after any of its writes: the catalog is as before the statement, or it is a CREATE
      TABLE and the catalog is as after it. */
  lemma {:induction false} MidwayCatalog(db: DB, ts: Tables, json: Json, floats: Floats, stmt: Stmt, txid: int, k: nat,
                                         steps: nat)
    requires Represents(db, ts, json)
    ensures var w := Midway(db, json, floats, stmt, txid, k, steps);
            SameCatalog(db.world, w) || (stmt.CreateStmt? && w == Exec(db, json, floats, stmt, txid).1.world)
  {
    if !stmt.Unsupported? && stmt.table in db.tables {
      var meta := db.tables[stmt.table];
      PlacedFields(db, ts, json, stmt.table);
      match stmt
      case InsertStmt(_, names, values) =>
        InsertKeepsCatalog(db.world, db.nextLSN, meta, InsertValues(meta.columns, names, values), txid, json, steps);
      case DeleteStmt(table, where) =>
        MidDeleteKeepsCatalog(db, table, Keep(meta.columns, where, floats), txid, k, steps);
      case _ =>
    }
  }

  /** Stop a run from an empty world after any of its writes, recover and start again: LoadCatalog finds
      the tables there were before the statement that was running, or those there are after it. */
  lemma {:induction false} RestartAfterCrash(json: Json, floats: Floats, run: seq<Call>, i: nat) returns (c: nat)
    requires Runnable(json, floats, run) && i < |RunTrace(json, floats, run, |run|)|
    ensures c < |run|
    ensures var l := CatalogOf(Recovered(RunTrace(json, floats, run, |run|)[i]), json, map[]);
            || l == CatalogOf(StoreAfter(json, floats, run, c).world, json, map[])
            || l == CatalogOf(StoreAfter(json, floats, run, c + 1).world, json, map[])
  {
    var j, w := 0, RunTrace(json, floats, run, |run|)[i];
    c, j := FlatMember(StatementTraces(json, floats, run), |run|, i);
    var db, ts := ReachedAll(json, floats, run, c);
    assert Open(OfRun, true);
    var k, steps := TraceIsMidway(db, json, floats, run[c].stmt, run[c].txid, j);
    MidwayCatalog(db, ts, json, floats, run[c].stmt, run[c].txid, k, steps);
    StateAtNext(json, floats, run, c);
    RecoveredCatalog(w, json);
    if SameCatalog(db.world, w) {
      SameCatalogLoads(db.world, w, json, map[]);
    }
  }

  lemma {:induction false} RecoveredCatalog(w: Blocks, json: Json)
    ensures CatalogOf(Recovered(w), json, map[]) == CatalogOf(w, json, map[])
  {
    RecoveryKeepsCatalog(w);
    SameCatalogLoads(w, Recovered(w), json, map[]);
  }
}
