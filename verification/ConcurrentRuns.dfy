/** Concurrent inserts between serial runs: whatever the interleaving, when all have returned the blocks
    represent the tables with the new rows appended in slot order. */
module ConcurrentRuns {
  import opened GoText
  import opened World
  import opened Layout
  import opened Store
  import opened WriteSequence
  import opened Query
  import opened Refine
  import opened RefineDelete
  import opened Engine
  import opened Vacancy
  import opened Concurrency

  /** A call of InsertRow: the number of its table in the order of creation, its values, its transaction. */
  datatype Insertion = Insertion(table: nat, values: Values, txid: int64)

  predicate TablesExist(order: seq<string>, ins: seq<Insertion>) {
    forall i | 0 <= i < |ins| :: ins[i].table < |order|
  }

  // ----- the calls start -----

  function MetasInOrder(tables: map<string, Meta>, order: seq<string>): (metas: seq<Meta>)
    requires Numbered(tables, order)
    ensures |metas| == |order|
  {
    seq(|order|, t requires 0 <= t < |order| => tables[order[t]])
  }

  function JobOf(meta: Meta, one: Insertion, json: Json): Job {
    Job(one.table, Strip(meta.columns, one.values, one.txid), json.marshal(one.values), one.txid)
  }

  /** A job is that of an insertion; sealed like Decodes, so that no strip is unfolded where the fact is
      only passed on. */
  ghost predicate IsJobOf(job: Job, meta: Meta, one: Insertion, json: Json) {
    forall k {:trigger Open(OfStrip, k)} :: Open(OfStrip, k) ==> job == JobOf(meta, one, json)
  }

  ghost predicate JobsOf(u: Setup, ins: seq<Insertion>, json: Json) {
    |ins| == |u.jobs|
    && forall i | 0 <= i < |u.jobs| :: u.jobs[i].table < |u.metas| && IsJobOf(u.jobs[i], MetaOf(u, i), ins[i], json)
  }

  function SetupOf(db: DB, order: seq<string>, json: Json, ins: seq<Insertion>): (u: Setup)
    requires Numbered(db.tables, order) && TablesExist(order, ins)
    ensures |u.jobs| == |ins| && |u.metas| == |order|
  {
    var metas := MetasInOrder(db.tables, order);
    Setup(db.world, db.nextLSN, metas,
          seq(|ins|, i requires 0 <= i < |ins| => JobOf(metas[ins[i].table], ins[i], json)))
  }

  lemma {:induction false} TableIsVacant(db: DB, ts: Tables, json: Json, n: string)
    requires Represents(db, ts, json) && Tidy(db.world, db.tables) && n in db.tables
    ensures Vacant(db.world, db.tables[n], db.tables[n].rowCount)
  {
    var meta := db.tables[n];
    PlacedFields(db, ts, json, n);
    forall p: Pos | p.y == TABLE_Y && meta.zStart + meta.rowCount <= p.z < meta.zStart + SPACING
      ensures Get(db.world, p) == ""
    {
      if Get(db.world, p) != "" {
        var m :| m in db.tables && InRows(db.tables[m], p.z);
        if m != n {
          TablesAreDisjoint(db, ts, json, n, m, p.z);
        }
      }
    }
  }

  lemma {:induction false} MetaIsOk(db: DB, ts: Tables, json: Json, n: string)
    requires Represents(db, ts, json) && Fits(db, 0) && n in db.tables
    ensures MetaOk(db.tables[n])
  {
    PlacedFields(db, ts, json, n);
  }

  lemma {:induction false} JobIsOk(meta: Meta, one: Insertion, json: Json)
    requires Writable(json) && meta.stripWidth == StripWidth(meta.columns)
    ensures JobOk(meta, JobOf(meta, one, json))
  {
    MarshalIsOneLine(json, one.values);
  }

  /** Any represented, tidy store is a place for concurrent inserts. */
  lemma {:induction false} StoreIsSetup(db: DB, ts: Tables, json: Json, ins: seq<Insertion>)
    requires Writable(json) && Represents(db, ts, json) && Fits(db, 0) && Tidy(db.world, db.tables)
    requires TablesExist(ts.order, ins)
    ensures WellFormed(SetupOf(db, ts.order, json, ins))
  {
    var u := SetupOf(db, ts.order, json, ins);
    forall t | 0 <= t < |u.metas|
      ensures MetaOk(u.metas[t]) && Vacant(u.world, u.metas[t], u.metas[t].rowCount) && u.metas[t].id == t + 1
    {
      MetaIsOk(db, ts, json, ts.order[t]);
      TableIsVacant(db, ts, json, ts.order[t]);
    }
    forall i | 0 <= i < |u.jobs| ensures u.jobs[i].table < |u.metas| && JobOk(u.metas[u.jobs[i].table], u.jobs[i]) {
      PlacedFields(db, ts, json, ts.order[ins[i].table]);
      JobIsOk(u.metas[ins[i].table], ins[i], json);
    }
  }

  // ----- the calls have returned -----

  ghost predicate AllBack(u: Setup, s: Sys) {
    Inv(u, s) && forall i | 0 <= i < |u.jobs| :: s.threads[i].stage.Returned?
  }

  /** AllBack, sealed. */
  ghost predicate Back(u: Setup, s: Sys) {
    forall k {:trigger Open(OfStage, k)} :: Open(OfStage, k) ==> AllBack(u, s)
  }

  function RowOf(meta: Meta, one: Insertion): Row {
    Row(one.txid, None, StoredColumns(meta.columns, one.values))
  }

  /** The call that took slot ri of table t. */
  ghost function OwnerOf(u: Setup, s: Sys, t: nat, ri: int): (i: nat)
    requires Shaped(u, s) && t < |u.metas| && HeldBy(u, s, t, ri)
    ensures i < |u.jobs| && SlotHeld(u, s, t, ri, i)
  {
    var i :| 0 <= i < |u.jobs| && SlotHeld(u, s, t, ri, i);
    i
  }

  ghost predicate RowsGained(u: Setup, s: Sys, ins: seq<Insertion>) {
    Shaped(u, s) && SlotsCovered(u, s) && |ins| == |u.jobs|
    && forall t | 0 <= t < |u.metas| :: u.metas[t].rowCount <= s.counts[t]
  }

  ghost function RowInSlot(u: Setup, s: Sys, ins: seq<Insertion>, t: nat, ri: int): Row
    requires Shaped(u, s) && t < |u.metas| && HeldBy(u, s, t, ri) && |ins| == |u.jobs|
  {
    RowOf(u.metas[t], ins[OwnerOf(u, s, t, ri)])
  }

  /** The rows a table has gained, in slot order. */
  ghost function NewRows(u: Setup, s: Sys, ins: seq<Insertion>, t: nat): (rows: seq<Row>)
    requires RowsGained(u, s, ins) && t < |u.metas|
    ensures |rows| == s.counts[t] - u.metas[t].rowCount
  {
    seq(s.counts[t] - u.metas[t].rowCount, j requires 0 <= j < s.counts[t] - u.metas[t].rowCount =>
      RowInSlot(u, s, ins, t, u.metas[t].rowCount + j))
  }

  function CountAt(counts: seq<nat>, i: int): nat {
    if 0 <= i < |counts| then counts[i] else 0
  }

  /** The store as the calls leave it. */
  function EndStore(db: DB, s: Sys): DB {
    db.(world := s.world, nextLSN := s.nextLSN,
        tables := map n | n in db.tables :: db.tables[n].(rowCount := CountAt(s.counts, db.tables[n].id - 1)))
  }

  /** A table with the rows it has gained. */
  ghost function EndTable(t: Table, u: Setup, s: Sys, ins: seq<Insertion>, i: int): Table
    requires RowsGained(u, s, ins)
  {
    if 0 <= i < |u.metas| then t.(rows := t.rows + NewRows(u, s, ins, i)) else t
  }

  ghost function EndTables(db: DB, ts: Tables, u: Setup, s: Sys, ins: seq<Insertion>): Tables
    requires RowsGained(u, s, ins)
  {
    ts.(byName := map n | n in ts.byName :: EndTable(ts.byName[n], u, s, ins,
                                                     if n in db.tables then db.tables[n].id - 1 else -1))
  }

  // ----- what the blocks hold then -----

  lemma {:induction false} WholeDecodes(w: Blocks, meta: Meta, ri: int, one: Insertion)
    requires meta.yLevel == TABLE_Y && meta.stripWidth == StripWidth(meta.columns)
    requires WholeStrip(w, meta.zStart + ri, Strip(meta.columns, one.values, one.txid))
    ensures Decodes(w, meta, ri, RowOf(meta, one))
  {
    var strip := Strip(meta.columns, one.values, one.txid);
    StripReadsBack(meta.columns, one.values, one.txid);
    WholeIsRead(w, meta, ri, strip);
    StripDecodes(w, meta, ri, strip, RowOf(meta, one));
  }

  lemma {:induction false} WholeIsRead(w: Blocks, meta: Meta, ri: int, strip: seq<string>)
    requires meta.yLevel == TABLE_Y && |strip| == meta.stripWidth && WholeStrip(w, meta.zStart + ri, strip)
    ensures ReadStrip(w, meta.stripWidth, meta.yLevel, meta.zStart + ri) == strip
  {
    var data := ReadStrip(w, meta.stripWidth, meta.yLevel, meta.zStart + ri);
    forall x | 0 <= x < |strip| ensures data[x] == strip[x] {
      assert RowBlock(w, meta.zStart + ri, x) == At(strip, x);
    }
  }

  /** No call owns a block of a row that was there before. */
  lemma {:induction false} OldSlotIsFree(u: Setup, s: Sys, t: nat, ri: nat, p: Pos)
    requires Inv(u, s) && t < |u.metas| && ri < u.metas[t].rowCount <= SPACING
    requires p.y == TABLE_Y && p.z == u.metas[t].zStart + ri
    ensures Get(s.world, p) == Get(u.world, p)
  {
    assert MetaOk(u.metas[t]);
    forall i | 0 <= i < |s.threads| ensures !OwnedBy(s.threads[i], p) {
      NotThisOne(u, s, t, ri, p, i);
    }
  }

  lemma {:induction false} NotThisOne(u: Setup, s: Sys, t: nat, ri: nat, p: Pos, i: nat)
    requires Inv(u, s) && t < |u.metas| && ri < u.metas[t].rowCount <= SPACING && i < |u.jobs|
    requires p.y == TABLE_Y && p.z == u.metas[t].zStart + ri
    ensures !OwnedBy(s.threads[i], p)
  {
    RangesArePositive(u, s, i);
    assert MetaOk(u.metas[t]) && MetaOk(MetaOf(u, i));
    assert InRange(MetaOf(u, i), s.counts[u.jobs[i].table], u.lsn, s.nextLSN, s.threads[i]);
    assert u.jobs[i].table != t ==> MetaOf(u, i).id != u.metas[t].id;
  }

  lemma {:induction false} OldRowStays(u: Setup, s: Sys, t: nat, ri: nat, row: Row)
    requires Inv(u, s) && t < |u.metas| && ri < u.metas[t].rowCount <= SPACING && Decodes(u.world, u.metas[t], ri, row)
    ensures Decodes(s.world, u.metas[t], ri, row)
  {
    var meta := u.metas[t];
    assert MetaOk(meta);
    forall x | 0 <= x < meta.stripWidth ensures BlockAt(s.world, meta, ri, x) == BlockAt(u.world, meta, ri, x) {
      OldSlotIsFree(u, s, t, ri, Pos(x, meta.yLevel, meta.zStart + ri));
    }
    SameStripSameRow(u.world, s.world, meta, ri);
  }

  lemma {:induction false} HeldAtEnd(u: Setup, s: Sys, t: nat, ri: int, i: nat)
    requires Back(u, s) && Shaped(u, s) && t < |u.metas| && i < |u.jobs| && SlotHeld(u, s, t, ri, i)
    ensures u.metas[t].yLevel == TABLE_Y && MetaOf(u, i) == u.metas[t]
    ensures WholeStrip(s.world, u.metas[t].zStart + ri, u.jobs[i].strip)
  {
    assert Open(OfStage, true);
    HeldFacts(u, s, t, ri, i);
  }

  lemma {:induction false} HeldFacts(u: Setup, s: Sys, t: nat, ri: int, i: nat)
    requires AllBack(u, s) && t < |u.metas| && i < |u.jobs| && SlotHeld(u, s, t, ri, i)
    ensures u.metas[t].yLevel == TABLE_Y && WholeStrip(s.world, u.metas[t].zStart + ri, u.jobs[i].strip)
  {
    assert MetaOk(u.metas[t]);
    WholeAtEnd(u, s, i);
  }

  lemma {:induction false} WholeAtEnd(u: Setup, s: Sys, i: nat)
    requires AllBack(u, s) && i < |u.jobs|
    ensures WholeStrip(s.world, s.threads[i].z, u.jobs[i].strip)
  {
    assert ThreadOk(s.world, MetaOf(u, i), u.jobs[i], s.threads[i]);
  }

  lemma {:induction false} JobDecodes(w: Blocks, meta: Meta, ri: int, job: Job, one: Insertion, json: Json)
    requires meta.yLevel == TABLE_Y && meta.stripWidth == StripWidth(meta.columns) && IsJobOf(job, meta, one, json)
    requires WholeStrip(w, meta.zStart + ri, job.strip)
    ensures Decodes(w, meta, ri, RowOf(meta, one))
  {
    assert Open(OfStrip, true);
    WholeDecodes(w, meta, ri, one);
  }

  // ----- together -----

  /** The store the calls started from, and the setup made of it. */
  ghost predicate Begun(db: DB, ts: Tables, json: Json, ins: seq<Insertion>, u: Setup) {
    && Represents(db, ts, json) && TablesExist(ts.order, ins) && u == SetupOf(db, ts.order, json, ins)
  }

  lemma {:induction false} TableNumber(db: DB, ts: Tables, json: Json, ins: seq<Insertion>, u: Setup, n: string)
    returns (t: nat)
    requires Begun(db, ts, json, ins, u) && n in db.tables
    ensures t == db.tables[n].id - 1 < |u.metas| && u.metas[t] == db.tables[n] && n in ts.byName
    ensures u.metas[t].stripWidth == StripWidth(u.metas[t].columns) && u.metas[t].rowCount <= SPACING
    ensures u.metas[t].columns == ts.byName[n].columns && u.metas[t].rowCount == |ts.byName[n].rows|
    ensures Stored(db.world, db.tables[n], ts.byName[n].rows) && ts.order[t] == n
  {
    PlacedFields(db, ts, json, n);
    t := db.tables[n].id - 1;
  }

  lemma {:induction false} SameRow(w: Blocks, meta: Meta, ri: int, row: Row, row': Row)
    requires Decodes(w, meta, ri, row) && row' == row
    ensures Decodes(w, meta, ri, row')
  {
  }

  lemma {:induction false} NewRowsAt(u: Setup, s: Sys, ins: seq<Insertion>, t: nat, j: nat)
    requires RowsGained(u, s, ins) && t < |u.metas| && j < s.counts[t] - u.metas[t].rowCount
    ensures HeldBy(u, s, t, u.metas[t].rowCount + j)
    ensures NewRows(u, s, ins, t)[j] == RowInSlot(u, s, ins, t, u.metas[t].rowCount + j)
  {
  }

  lemma {:induction false} OwnerIsThere(u: Setup, s: Sys, json: Json, ins: seq<Insertion>, t: nat, ri: int)
    requires Back(u, s) && Shaped(u, s) && t < |u.metas| && HeldBy(u, s, t, ri) && JobsOf(u, ins, json)
    requires u.metas[t].stripWidth == StripWidth(u.metas[t].columns)
    ensures Decodes(s.world, u.metas[t], ri, RowInSlot(u, s, ins, t, ri))
  {
    var i := OwnerOf(u, s, t, ri);
    HeldAtEnd(u, s, t, ri, i);
    assert IsJobOf(u.jobs[i], MetaOf(u, i), ins[i], json);
    JobDecodes(s.world, u.metas[t], ri, u.jobs[i], ins[i], json);
  }

  ghost predicate StoredFrom(w: Blocks, meta: Meta, from: nat, rows: seq<Row>) {
    forall j | 0 <= j < |rows| :: Decodes(w, meta, from + j, rows[j])
  }

  lemma {:induction false} StoredConcat(w: Blocks, meta: Meta, rows: seq<Row>, more: seq<Row>, count: nat)
    requires Stored(w, meta, rows) && StoredFrom(w, meta, |rows|, more)
    ensures Stored(w, meta.(rowCount := count), rows + more)
  {
    var all := rows + more;
    forall ri | 0 <= ri < |all| ensures Decodes(w, meta.(rowCount := count), ri, all[ri]) {
      if ri >= |rows| {
        assert Decodes(w, meta, |rows| + (ri - |rows|), more[ri - |rows|]);
      }
      DecodesIgnoresCount(w, meta, count, ri, all[ri]);
    }
  }

  lemma {:induction false} OldRowsStay(u: Setup, s: Sys, t: nat, rows: seq<Row>)
    requires Inv(u, s) && t < |u.metas| && |rows| == u.metas[t].rowCount <= SPACING && Stored(u.world, u.metas[t], rows)
    ensures Stored(s.world, u.metas[t], rows)
  {
    forall ri | 0 <= ri < |rows| ensures Decodes(s.world, u.metas[t], ri, rows[ri]) {
      OldRowStays(u, s, t, ri, rows[ri]);
    }
  }

  lemma {:induction false} StoredAtEnd(u: Setup, s: Sys, json: Json, ins: seq<Insertion>, t: nat, rows: seq<Row>)
    requires AllBack(u, s) && RowsGained(u, s, ins) && t < |u.metas|
    requires u.metas[t].stripWidth == StripWidth(u.metas[t].columns)
    requires JobsOf(u, ins, json)
    requires |rows| == u.metas[t].rowCount <= SPACING && Stored(u.world, u.metas[t], rows)
    ensures Stored(s.world, u.metas[t].(rowCount := s.counts[t]), rows + NewRows(u, s, ins, t))
  {
    OldRowsStay(u, s, t, rows);
    NewSlotsAtEnd(u, s, json, ins, t);
    StoredConcat(s.world, u.metas[t], rows, NewRows(u, s, ins, t), s.counts[t]);
  }

  lemma {:induction false} NewSlotsAtEnd(u: Setup, s: Sys, json: Json, ins: seq<Insertion>, t: nat)
    requires Back(u, s) && RowsGained(u, s, ins) && t < |u.metas| && JobsOf(u, ins, json)
    requires u.metas[t].stripWidth == StripWidth(u.metas[t].columns)
    ensures StoredFrom(s.world, u.metas[t], u.metas[t].rowCount, NewRows(u, s, ins, t))
  {
    var more := NewRows(u, s, ins, t);
    forall j | 0 <= j < |more| ensures Decodes(s.world, u.metas[t], u.metas[t].rowCount + j, more[j]) {
      NewRowsAt(u, s, ins, t, j);
      var ri := u.metas[t].rowCount + j;
      OwnerIsThere(u, s, json, ins, t, ri);
      SameRow(s.world, u.metas[t], ri, RowInSlot(u, s, ins, t, ri), more[j]);
    }
  }

  lemma {:induction false} JobsOfSetup(db: DB, order: seq<string>, json: Json, ins: seq<Insertion>)
    requires Numbered(db.tables, order) && TablesExist(order, ins)
    ensures JobsOf(SetupOf(db, order, json, ins), ins, json)
  {
    var u := SetupOf(db, order, json, ins);
    forall i | 0 <= i < |u.jobs| ensures u.jobs[i].table < |u.metas| && IsJobOf(u.jobs[i], MetaOf(u, i), ins[i], json) {
      assert u.jobs[i] == JobOf(u.metas[ins[i].table], ins[i], json);
    }
  }

  lemma {:induction false} TableAtEnd(db: DB, ts: Tables, json: Json, ins: seq<Insertion>, u: Setup, s: Sys, n: string)
    requires Begun(db, ts, json, ins, u) && AllBack(u, s) && RowsGained(u, s, ins) && n in db.tables
    ensures n in ts.byName && TableOk(EndStore(db, s), EndTables(db, ts, u, s, ins), n)
  {
    var t := TableNumber(db, ts, json, ins, u, n);
    JobsOfSetup(db, ts.order, json, ins);
    StoredAtEnd(u, s, json, ins, t, ts.byName[n].rows);
  }

  lemma {:induction false} CatalogAtEnd(db: DB, ts: Tables, json: Json, ins: seq<Insertion>, u: Setup, s: Sys)
    requires Begun(db, ts, json, ins, u) && Inv(u, s) && RowsGained(u, s, ins)
    ensures CatalogOk(s.world, EndTables(db, ts, u, s, ins), json)
  {
    forall i ensures Get(s.world, CatalogPos(i)) == Get(u.world, CatalogPos(i)) {
      CatalogIsFree(u, s, i);
    }
    SameCatalog(u.world, s.world, ts, json);
    SameColumnsSameCatalog(s.world, ts, EndTables(db, ts, u, s, ins), json);
  }

  lemma {:induction false} CatalogIsFree(u: Setup, s: Sys, i: int)
    requires Frame(u, s)
    ensures Get(s.world, CatalogPos(i)) == Get(u.world, CatalogPos(i))
  {
  }

  lemma {:induction false} SameColumnsSameCatalog(w: Blocks, ts: Tables, ts': Tables, json: Json)
    requires CatalogOk(w, ts, json) && ts'.order == ts.order
    requires forall n | n in ts.byName :: n in ts'.byName && ts'.byName[n].columns == ts.byName[n].columns
    ensures CatalogOk(w, ts', json)
  {
    forall i | 0 <= i < |ts.order|
      ensures ts'.order[i] in ts'.byName && Get(w, CatalogPos(i)) == CatalogText(ts', json, i)
    {
      assert Get(w, CatalogPos(i)) == CatalogText(ts, json, i);
    }
  }

  lemma {:induction false} NumbersAtEnd(db: DB, ts: Tables, u: Setup, s: Sys, ins: seq<Insertion>)
    requires Numbered(db.tables, ts.order) && db.tables.Keys == ts.byName.Keys && RowsGained(u, s, ins)
    ensures Numbered(EndStore(db, s).tables, EndTables(db, ts, u, s, ins).order)
    ensures EndStore(db, s).tables.Keys == EndTables(db, ts, u, s, ins).byName.Keys
  {
  }

  lemma {:induction false} EndRepresents(db: DB, ts: Tables, json: Json, ins: seq<Insertion>, u: Setup, s: Sys)
    requires Begun(db, ts, json, ins, u) && AllBack(u, s) && RowsGained(u, s, ins)
    ensures Represents(EndStore(db, s), EndTables(db, ts, u, s, ins), json)
  {
    var db', ts' := EndStore(db, s), EndTables(db, ts, u, s, ins);
    forall n | n in db'.tables ensures n in ts'.byName && TableOk(db', ts', n) {
      TableAtEnd(db, ts, json, ins, u, s, n);
    }
    CatalogAtEnd(db, ts, json, ins, u, s);
    NumbersAtEnd(db, ts, u, s, ins);
    EndsQuiet(u, s);
  }

  /** After any serial run, start any inserts and interleave them in any way: when all have returned, the
      blocks represent the tables with exactly the inserted rows appended, in slot order. */
  lemma {:induction false} ConcurrentInsertsRefine(json: Json, floats: Floats, run: seq<Call>, ins: seq<Insertion>,
                                                   schedule: seq<nat>, n: nat, db: DB, ts: Tables, u: Setup)
    requires Runnable(json, floats, run) && n <= |schedule|
    requires db == StoreAfter(json, floats, run, |run|) && ts == TablesAfter(floats, run, |run|)
    requires Numbered(db.tables, ts.order) && TablesExist(ts.order, ins) && u == SetupOf(db, ts.order, json, ins)
    requires forall k | 0 <= k < |schedule| :: schedule[k] < |ins|
    requires forall k | 0 <= k <= |schedule| :: Bounded(Interleaved(u, schedule, k))
    requires forall i | 0 <= i < |ins| :: Interleaved(u, schedule, n).threads[i].stage.Returned?
    ensures var s := Interleaved(u, schedule, n);
            RowsGained(u, s, ins) && Represents(EndStore(db, s), EndTables(db, ts, u, s, ins), json)
  {
    RunIsTidy(json, floats, run, |run|);
    RunFits(json, floats, run);
    StoreIsSetup(db, ts, json, ins);
    InvAlways(u, schedule, n);
    EndRepresents(db, ts, json, ins, u, Interleaved(u, schedule, n));
  }

  lemma {:induction false} RunFits(json: Json, floats: Floats, run: seq<Call>)
    requires Runnable(json, floats, run)
    ensures Fits(StoreAfter(json, floats, run, |run|), 0)
  {
    var db, ts := ReachedAll(json, floats, run, |run|);
    assert Open(OfRun, true);
  }

  lemma {:induction false} OwnerIsUnique(u: Setup, s: Sys, t: nat, ri: int, i: nat, j: nat)
    requires Inv(u, s) && t < |u.metas| && i < |u.jobs| && j < |u.jobs|
    requires SlotHeld(u, s, t, ri, i) && SlotHeld(u, s, t, ri, j)
    ensures i == j
  {
    assert i != j ==> Apart(s.threads[i], s.threads[j]);
  }

  /** None is lost and none is doubled: the row of call i stands at the slot it took. */
  lemma {:induction false} EveryInsertIsThere(u: Setup, s: Sys, ins: seq<Insertion>, i: nat)
    requires AllBack(u, s) && RowsGained(u, s, ins) && i < |u.jobs|
    ensures var t := u.jobs[i].table;
            var j := s.threads[i].z - u.metas[t].zStart - u.metas[t].rowCount;
            0 <= j < |NewRows(u, s, ins, t)| && NewRows(u, s, ins, t)[j] == RowOf(u.metas[t], ins[i])
  {
    var t := u.jobs[i].table;
    var ri := s.threads[i].z - u.metas[t].zStart;
    assert InRange(MetaOf(u, i), s.counts[t], u.lsn, s.nextLSN, s.threads[i]);
    assert SlotHeld(u, s, t, ri, i);
    NewRowsAt(u, s, ins, t, ri - u.metas[t].rowCount);
    OwnerIsUnique(u, s, t, ri, i, OwnerOf(u, s, t, ri));
  }
}
