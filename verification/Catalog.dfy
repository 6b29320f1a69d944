/** CREATE TABLE over represented tables, and what LoadCatalog rebuilds from the catalog blocks. */
module Catalog {
  import opened GoText
  import opened World
  import opened Wal
  import opened Recovery
  import opened Layout
  import opened Store
  import opened WriteSequence
  import opened Refine
  import opened Utf8

  function Created(ts: Tables, name: string, cols: seq<Column>): Tables {
    Tables(ts.byName[name := Table(cols, [])], ts.order + [name])
  }

  /** Only catalog block z changed. */
  ghost predicate OnlyCatalog(w: Blocks, w': Blocks, z: int) {
    forall p | p != CatalogPos(z) :: Get(w', p) == Get(w, p)
  }

  lemma {:induction false} StoredOffCatalog(w: Blocks, w': Blocks, z: int, meta: Meta, rows: seq<Row>)
    requires OnlyCatalog(w, w', z) && Stored(w, meta, rows) && meta.yLevel == TABLE_Y
    ensures Stored(w', meta, rows)
  {
    forall ri | 0 <= ri < |rows| ensures Decodes(w', meta, ri, rows[ri]) {
      assert Decodes(w, meta, ri, rows[ri]);
      SlotOffCatalog(w, w', z, meta, ri, rows[ri]);
    }
  }

  lemma {:induction false} SlotOffCatalog(w: Blocks, w': Blocks, z: int, meta: Meta, ri: int, row: Row)
    requires OnlyCatalog(w, w', z) && Decodes(w, meta, ri, row) && meta.yLevel == TABLE_Y
    ensures Decodes(w', meta, ri, row)
  {
    forall x | 0 <= x < meta.stripWidth ensures BlockAt(w', meta, ri, x) == BlockAt(w, meta, ri, x) {
    }
    SameStripSameRow(w, w', meta, ri);
  }

  lemma {:induction false} QuietOffCatalog(w: Blocks, w': Blocks, z: int, lsn: int)
    requires OnlyCatalog(w, w', z) && Quiet(w, lsn)
    ensures Quiet(w', lsn)
  {
    forall i ensures Get(w', Lectern(i)) == Get(w, Lectern(i)) {
    }
    forall i | 1 <= i <= lsn - 1 ensures Settled(w', i) {
      assert Settled(w, i);
    }
    forall k | k >= lsn ensures !Logged(w', k) {
      assert !Logged(w, k);
    }
  }

  lemma {:induction false} CatalogGrows(w: Blocks, ts: Tables, json: Json, name: string, cols: seq<Column>)
    requires CatalogOk(w, ts, json) && name !in ts.byName && Writable(json)
    ensures var n := |ts.order|;
            CatalogOk(Put(w, CatalogPos(n), json.encode(CatalogRow(n + 1, name, TABLE_Y, cols))),
                      Created(ts, name, cols), json)
  {
    var n, ts' := |ts.order|, Created(ts, name, cols);
    var w' := Put(w, CatalogPos(n), json.encode(CatalogRow(n + 1, name, TABLE_Y, cols)));
    forall i | 0 <= i < |ts'.order|
      ensures ts'.order[i] in ts'.byName && Get(w', CatalogPos(i)) == CatalogText(ts', json, i)
    {
      if i < n {
        assert Get(w, CatalogPos(i)) == CatalogText(ts, json, i);
      }
    }
  }

  lemma {:induction false} CreatedTable(db: DB, ts: Tables, json: Json, name: string, cols: seq<Column>, n: string)
    requires Represents(db, ts, json) && name !in db.tables && n in db.tables
    ensures n in ts.byName && TableOk(CreateTable(db, json, name, cols), Created(ts, name, cols), n)
  {
    PlacedFields(db, ts, json, n);
    var db' := CreateTable(db, json, name, cols);
    StoredOffCatalog(db.world, db'.world, db.nextCatalogZ, db.tables[n], ts.byName[n].rows);
    SameTableOk(db, ts, db', Created(ts, name, cols), n);
  }

  /** CREATE TABLE on blocks adds one empty table, last in the order of creation. */
  lemma {:induction false} CreateRefines(db: DB, ts: Tables, json: Json, name: string, cols: seq<Column>)
    requires Writable(json) && Represents(db, ts, json) && name !in db.tables
    ensures Represents(CreateTable(db, json, name, cols), Created(ts, name, cols), json)
  {
    var db', ts' := CreateTable(db, json, name, cols), Created(ts, name, cols);
    CatalogGrows(db.world, ts, json, name, cols);
    QuietOffCatalog(db.world, db'.world, db.nextCatalogZ, db.nextLSN);
    forall n | n in db'.tables ensures n in ts'.byName && TableOk(db', ts', n) {
      if n == name {
        NewTable(db, ts, json, name, cols);
      } else {
        CreatedTable(db, ts, json, name, cols, n);
      }
    }
    CreatedNumbers(db, ts, json, name, cols);
  }

  lemma {:induction false} NewTable(db: DB, ts: Tables, json: Json, name: string, cols: seq<Column>)
    requires name !in db.tables && db.nextTableID == |ts.order| + 1
    ensures TableOk(CreateTable(db, json, name, cols), Created(ts, name, cols), name)
  {
  }

  lemma {:induction false} CreatedNumbers(db: DB, ts: Tables, json: Json, name: string, cols: seq<Column>)
    requires name !in db.tables && Numbered(db.tables, ts.order) && db.tables.Keys == ts.byName.Keys
    requires db.nextTableID == |ts.order| + 1 && db.nextCatalogZ == |ts.order|
    ensures var db', ts' := CreateTable(db, json, name, cols), Created(ts, name, cols);
            && Numbered(db'.tables, ts'.order) && db'.tables.Keys == ts'.byName.Keys && db'.nextLSN == db.nextLSN
            && db'.nextTableID == |ts'.order| + 1 && db'.nextCatalogZ == |ts'.order|
  {
    var db', ts' := CreateTable(db, json, name, cols), Created(ts, name, cols);
    forall i | 0 <= i < |ts'.order| ensures ts'.order[i] in db'.tables && db'.tables[ts'.order[i]].id == i + 1 {
      if i < |ts.order| {
        assert ts.order[i] in db.tables && db.tables[ts.order[i]].id == i + 1;
      }
    }
  }

  // ----- what a catalog block gives back -----

  function RepairedColumn(json: Json, c: Column): Column {
    Column(json.repair(c.name), c.ordinal, if c.typ.OTHER? then OTHER(json.repair(c.typ.name)) else c.typ)
  }

  function RepairedColumns(json: Json, cols: seq<Column>): (r: seq<Column>)
    ensures |r| == |cols|
  {
    seq(|cols|, i requires 0 <= i < |cols| => RepairedColumn(json, cols[i]))
  }

  const MAX_EXACT := 0x20_0000_0000_0000

  /** Columns as a CREATE TABLE makes them: no type goes by the name of another, and ordinals are ints. */
  predicate Canonical(cols: seq<Column>) {
    forall i | 0 <= i < |cols| ::
      IsInt64(cols[i].ordinal)
      && (cols[i].typ.OTHER? ==> cols[i].typ.name !in ["INT", "BIGINT", "BOOLEAN", "TEXT"])
  }

  /** JSON numbers are read as float64, which holds integers up to 2^53. */
  predicate Holdable(r: CatalogRow) {
    0 <= r.tableID <= MAX_EXACT && 0 <= r.yLevel <= MAX_EXACT && Canonical(r.columns)
  }

  predicate RereadsRow(json: Json, r: CatalogRow) {
    json.decode(json.encode(r))
    == Some(CatalogRow(r.tableID, json.repair(r.name), r.yLevel, RepairedColumns(json, r.columns)))
  }

  /** JSON text reads back, but that only UTF-8 comes back as it was. */
  ghost predicate Rereads(json: Json) {
    && (forall s :: Utf8Text(json.repair(s)))
    && (forall s :: Utf8Text(s) ==> json.repair(s) == s)
    && forall r: CatalogRow | Holdable(r) :: RereadsRow(json, r)
  }

  predicate Utf8Columns(cols: seq<Column>) {
    forall i | 0 <= i < |cols| :: Utf8Text(cols[i].name) && (cols[i].typ.OTHER? ==> Utf8Text(cols[i].typ.name))
  }

  lemma {:induction false} RepairKeepsUtf8(json: Json, s: string)
    requires Rereads(json)
    ensures json.repair(s) == s <==> Utf8Text(s)
  {
  }

  lemma {:induction false} RepairKeepsColumns(json: Json, cols: seq<Column>)
    requires Rereads(json)
    ensures RepairedColumns(json, cols) == cols <==> Utf8Columns(cols)
  {
    forall i | 0 <= i < |cols|
      ensures RepairedColumn(json, cols[i]) == cols[i]
              <==> Utf8Text(cols[i].name) && (cols[i].typ.OTHER? ==> Utf8Text(cols[i].typ.name))
    {
      RepairKeepsUtf8(json, cols[i].name);
      if cols[i].typ.OTHER? {
        RepairKeepsUtf8(json, cols[i].typ.name);
      }
    }
    if RepairedColumns(json, cols) == cols {
      forall i | 0 <= i < |cols| ensures RepairedColumn(json, cols[i]) == cols[i] {
        assert RepairedColumns(json, cols)[i] == cols[i];
      }
    }
  }

  // ----- rebuilding the table map -----

  function NoRows(meta: Meta): Meta {
    meta.(rowCount := 0)
  }

  function CatalogEntry(w: Blocks, json: Json, i: int): Option<CatalogRow> {
    json.decode(Get(w, CatalogPos(i)))
  }

  /** The catalog blocks from Z = 0 read as these tables. */
  ghost predicate Listed(w: Blocks, json: Json, metas: seq<Meta>) {
    && (forall i | 0 <= i < |metas| ::
          metas[i] == NewMeta(i + 1, metas[i].name, metas[i].columns) && Get(w, CatalogPos(i)) != "")
    && (forall i | 0 <= i < |metas| && i < MAX_CATALOG_Z ::
          CatalogEntry(w, json, i) == Some(CatalogRow(i + 1, metas[i].name, TABLE_Y, metas[i].columns)))
    && Get(w, CatalogPos(|metas|)) == ""
  }

  /** The tables filed under their names. */
  function Filed(metas: seq<Meta>, n: nat): map<string, Meta>
    requires n <= |metas|
  {
    if n == 0 then map[] else Filed(metas, n - 1)[metas[n - 1].name := metas[n - 1]]
  }

  lemma {:induction false} FiledUnderName(metas: seq<Meta>, n: nat)
    requires n <= |metas|
    requires forall i, j | 0 <= i < n && 0 <= j < n && metas[i].name == metas[j].name :: i == j
    ensures forall i | 0 <= i < n :: metas[i].name in Filed(metas, n) && Filed(metas, n)[metas[i].name] == metas[i]
    ensures forall name | name in Filed(metas, n) :: exists i | 0 <= i < n :: metas[i].name == name
  {
    if n > 0 {
      FiledUnderName(metas, n - 1);
      forall name | name in Filed(metas, n) ensures exists i | 0 <= i < n :: metas[i].name == name {
        if name != metas[n - 1].name {
          assert name in Filed(metas, n - 1);
        } else {
          assert metas[n - 1].name == name;
        }
      }
    }
  }

  lemma {:induction false} LoadsTo(w: Blocks, json: Json, metas: seq<Meta>, n: nat)
    requires Listed(w, json, metas) && n <= |metas| && n <= MAX_CATALOG_Z
    requires forall i | 0 <= i < n :: metas[i].name != ""
    ensures LoadTo(w, json, map[], n) == Loaded(Filed(metas, n), n, n)
  {
    if n > 0 {
      LoadsTo(w, json, metas, n - 1);
      assert CatalogEntry(w, json, n - 1) == Some(CatalogRow(n, metas[n - 1].name, TABLE_Y, metas[n - 1].columns));
    }
  }

  /** A table LoadCatalog skips never enters the map. */
  lemma {:induction false} NeverLoaded(w: Blocks, json: Json, metas: seq<Meta>, name: string, n: nat)
    requires Listed(w, json, metas) && n <= |metas| && n <= MAX_CATALOG_Z
    requires name == "" || forall i | 0 <= i < n :: metas[i].name != name
    ensures name !in LoadTo(w, json, map[], n).tables
  {
    if n > 0 {
      NeverLoaded(w, json, metas, name, n - 1);
      assert CatalogEntry(w, json, n - 1) == Some(CatalogRow(n, metas[n - 1].name, TABLE_Y, metas[n - 1].columns));
    }
  }

  lemma {:induction false} LengthIs(w: Blocks, json: Json, metas: seq<Meta>, from: nat)
    requires Listed(w, json, metas) && from <= |metas| && from <= MAX_CATALOG_Z
    ensures CatalogLength(w, from) == if |metas| <= MAX_CATALOG_Z then |metas| else MAX_CATALOG_Z
    decreases MAX_CATALOG_Z - from
  {
    if from < |metas| && from < MAX_CATALOG_Z {
      assert metas[from] == NewMeta(from + 1, metas[from].name, metas[from].columns);
      LengthIs(w, json, metas, from + 1);
    }
  }

  /** The catalog blocks, table by table, as they were written. */
  ghost predicate Texts(db: DB, order: seq<string>, json: Json) {
    && (forall i | 0 <= i < |order| ::
          && order[i] in db.tables
          && Get(db.world, CatalogPos(i))
             == json.encode(CatalogRow(i + 1, order[i], TABLE_Y, db.tables[order[i]].columns)))
    && Get(db.world, CatalogPos(|order|)) == ""
  }

  /** And as they read. */
  ghost predicate Readings(db: DB, order: seq<string>, json: Json, metas: seq<Meta>) {
    && |metas| == |order|
    && forall i | 0 <= i < |order| ::
         && order[i] in db.tables
         && metas[i] == NewMeta(i + 1, json.repair(order[i]), RepairedColumns(json, db.tables[order[i]].columns))
  }

  ghost predicate AllCanonical(db: DB) {
    forall name | name in db.tables :: Canonical(db.tables[name].columns)
  }

  lemma {:induction false} BlockText(db: DB, ts: Tables, json: Json, i: nat)
    requires Represents(db, ts, json) && i < |ts.order|
    ensures Get(db.world, CatalogPos(i))
            == json.encode(CatalogRow(i + 1, ts.order[i], TABLE_Y, db.tables[ts.order[i]].columns))
  {
    PlacedFields(db, ts, json, ts.order[i]);
    assert Get(db.world, CatalogPos(i)) == CatalogText(ts, json, i);
  }

  lemma {:induction false} RowReads(json: Json, i: nat, name: string, cols: seq<Column>)
    requires Rereads(json) && Canonical(cols) && i < MAX_CATALOG_Z
    ensures json.decode(json.encode(CatalogRow(i + 1, name, TABLE_Y, cols)))
            == Some(CatalogRow(i + 1, json.repair(name), TABLE_Y, RepairedColumns(json, cols)))
  {
    assert Holdable(CatalogRow(i + 1, name, TABLE_Y, cols)) && RereadsRow(json, CatalogRow(i + 1, name, TABLE_Y, cols));
  }

  lemma {:induction false} OrderHasTexts(db: DB, ts: Tables, json: Json)
    requires Represents(db, ts, json)
    ensures Texts(db, ts.order, json)
  {
    forall i: nat | i < |ts.order|
      ensures ts.order[i] in db.tables
      ensures Get(db.world, CatalogPos(i))
              == json.encode(CatalogRow(i + 1, ts.order[i], TABLE_Y, db.tables[ts.order[i]].columns))
    {
      BlockText(db, ts, json, i);
    }
  }

  lemma {:induction false} TextsAreListed(db: DB, order: seq<string>, json: Json) returns (metas: seq<Meta>)
    requires Writable(json) && Rereads(json) && AllCanonical(db) && Texts(db, order, json)
    ensures Readings(db, order, json, metas) && Listed(db.world, json, metas)
  {
    metas := seq(|order|, i requires 0 <= i < |order| =>
      NewMeta(i + 1, json.repair(order[i]), RepairedColumns(json, db.tables[order[i]].columns)));
    forall i: nat | i < |metas| && i < MAX_CATALOG_Z
      ensures CatalogEntry(db.world, json, i) == Some(CatalogRow(i + 1, metas[i].name, TABLE_Y, metas[i].columns))
    {
      RowReads(json, i, order[i], db.tables[order[i]].columns);
    }
  }

  /** What LoadCatalog on a fresh Storage should set: the tables without their row counts, and both counters. */
  predicate Rebuilt(db: DB, l: Loaded) {
    && l.tables.Keys == db.tables.Keys
    && (forall name | name in db.tables :: l.tables[name] == NoRows(db.tables[name]))
    && l.lastZ == db.nextCatalogZ && Max(l.maxTableID + 1, 1) == db.nextTableID
  }

  /** All that LoadCatalog can bring back: a catalog within the 1024 blocks it scans, with UTF-8 for names,
      none of a table empty. */
  ghost predicate Restorable(db: DB) {
    && db.nextCatalogZ <= MAX_CATALOG_Z && "" !in db.tables
    && forall name | name in db.tables :: Utf8Text(name) && Utf8Columns(db.tables[name].columns)
  }

  /** The tables by their creation. */
  ghost predicate Ordered(db: DB, order: seq<string>) {
    && Numbered(db.tables, order) && db.nextTableID == |order| + 1 && db.nextCatalogZ == |order|
    && (forall name | name in db.tables :: name in order)
    && (forall i | 0 <= i < |order| ::
          NoRows(db.tables[order[i]]) == NewMeta(i + 1, order[i], db.tables[order[i]].columns))
  }

  lemma {:induction false} OrderIsOrdered(db: DB, ts: Tables, json: Json)
    requires Represents(db, ts, json)
    ensures Ordered(db, ts.order)
  {
    forall name | name in db.tables ensures name in ts.order {
      PlacedFields(db, ts, json, name);
      assert ts.order[db.tables[name].id - 1] == name;
    }
    forall i | 0 <= i < |ts.order|
      ensures NoRows(db.tables[ts.order[i]]) == NewMeta(i + 1, ts.order[i], db.tables[ts.order[i]].columns)
    {
      PlacedFields(db, ts, json, ts.order[i]);
    }
  }

  /** LoadCatalog rebuilds the catalog exactly when it is Restorable. */
  lemma {:induction false} CatalogRebuild(db: DB, ts: Tables, json: Json)
    requires Writable(json) && Rereads(json) && Represents(db, ts, json) && AllCanonical(db)
    ensures Rebuilt(db, CatalogOf(db.world, json, map[])) <==> Restorable(db)
  {
    OrderHasTexts(db, ts, json);
    OrderIsOrdered(db, ts, json);
    TextsRebuild(db, ts.order, json);
  }

  lemma {:induction false} TextsRebuild(db: DB, order: seq<string>, json: Json)
    requires Writable(json) && Rereads(json) && AllCanonical(db) && Texts(db, order, json) && Ordered(db, order)
    ensures Rebuilt(db, CatalogOf(db.world, json, map[])) <==> Restorable(db)
  {
    var metas := TextsAreListed(db, order, json);
    ListedRebuild(db, order, json, metas);
  }

  lemma {:induction false} ListedRebuild(db: DB, order: seq<string>, json: Json, metas: seq<Meta>)
    requires Rereads(json) && Listed(db.world, json, metas) && Ordered(db, order) && Readings(db, order, json, metas)
    ensures Rebuilt(db, CatalogOf(db.world, json, map[])) <==> Restorable(db)
  {
    if name :| name in db.tables && !Utf8Text(name) {
      forall i | 0 <= i < |metas| ensures metas[i].name != name {
        assert Utf8Text(json.repair(order[i]));
      }
      NameIsLost(db, json, metas, name);
    } else {
      forall i | 0 <= i < |metas| ensures metas[i].name == order[i] {
        RepairKeepsUtf8(json, order[i]);
      }
      NamesRebuild(db, order, json, metas);
    }
  }

  lemma {:induction false} NameIsLost(db: DB, json: Json, metas: seq<Meta>, name: string)
    requires Listed(db.world, json, metas) && name in db.tables
    requires name == "" || forall i | 0 <= i < |metas| && i < MAX_CATALOG_Z :: metas[i].name != name
    ensures !Rebuilt(db, CatalogOf(db.world, json, map[]))
  {
    LengthIs(db.world, json, metas, 0);
    NeverLoaded(db.world, json, metas, name, CatalogLength(db.world, 0));
  }

  /** The same when every table's name is UTF-8. */
  lemma {:induction false} NamesRebuild(db: DB, order: seq<string>, json: Json, metas: seq<Meta>)
    requires Rereads(json) && Listed(db.world, json, metas) && Ordered(db, order) && |metas| == |order|
    requires forall name | name in db.tables :: Utf8Text(name)
    requires forall i | 0 <= i < |order| ::
               metas[i] == NewMeta(i + 1, order[i], RepairedColumns(json, db.tables[order[i]].columns))
    ensures Rebuilt(db, CatalogOf(db.world, json, map[])) <==> Restorable(db)
  {
    if |order| > MAX_CATALOG_Z || "" in db.tables {
      var name := if "" in db.tables then "" else order[MAX_CATALOG_Z];
      NameIsLost(db, json, metas, name);
    } else {
      LengthIs(db.world, json, metas, 0);
      LoadsTo(db.world, json, metas, |metas|);
      FiledIsAll(db, order, metas);
      ColumnsRebuild(db, order, json, metas, Filed(metas, |metas|));
    }
  }

  lemma {:induction false} FiledIsAll(db: DB, order: seq<string>, metas: seq<Meta>)
    requires Ordered(db, order) && |metas| == |order| && forall i | 0 <= i < |order| :: metas[i].name == order[i]
    ensures var filed := Filed(metas, |metas|);
            && filed.Keys == db.tables.Keys
            && forall i | 0 <= i < |order| :: filed[order[i]] == metas[i]
  {
    forall i, j | 0 <= i < |metas| && 0 <= j < |metas| && metas[i].name == metas[j].name ensures i == j {
      assert db.tables[order[i]].id == i + 1 && db.tables[order[j]].id == j + 1;
    }
    FiledUnderName(metas, |metas|);
    var filed := Filed(metas, |metas|);
    forall name | name in db.tables ensures name in filed {
      var i :| 0 <= i < |order| && order[i] == name;
      assert metas[i].name == name;
    }
    forall name | name in filed ensures name in db.tables {
      var i :| 0 <= i < |order| && metas[i].name == name;
    }
  }

  lemma {:induction false} ColumnsRebuild(db: DB, order: seq<string>, json: Json, metas: seq<Meta>,
                                          filed: map<string, Meta>)
    requires Rereads(json) && Ordered(db, order) && |metas| == |order| && filed.Keys == db.tables.Keys
    requires forall i | 0 <= i < |order| :: filed[order[i]] == metas[i]
    requires forall i | 0 <= i < |order| ::
               metas[i] == NewMeta(i + 1, order[i], RepairedColumns(json, db.tables[order[i]].columns))
    ensures Rebuilt(db, Loaded(filed, |order|, |order|))
            <==> forall name | name in db.tables :: Utf8Columns(db.tables[name].columns)
  {
    forall name | name in db.tables
      ensures filed[name] == NoRows(db.tables[name]) <==> Utf8Columns(db.tables[name].columns)
    {
      var i :| 0 <= i < |order| && order[i] == name;
      RepairKeepsColumns(json, db.tables[name].columns);
    }
  }
}
