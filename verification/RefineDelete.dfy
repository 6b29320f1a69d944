/** DELETE and SELECT over represented tables: marking on blocks is deleting from the lists, scanning
    blocks is filtering them. */
module RefineDelete {
  import opened GoText
  import opened World
  import opened Codec
  import opened Wal
  import opened Recovery
  import opened Layout
  import opened Store
  import opened WriteSequence
  import opened Crash
  import opened Refine

  // ----- one mark -----

  lemma {:induction false} XmaxIsThere(s1: string, s2: string)
    ensures ReadXmax(s1, s2).Some? ==> s1 != "" && s2 != ""
  {
    assert BannerBytes("").None?;
  }

  lemma {:induction false} DecodedHasXmax(data: seq<string>, cols: seq<Column>, row: Row)
    requires ReadsBack(data, cols, row)
    ensures |data| >= 4 && ReadXmax(data[2], data[3]) == Some(row.xmax)
  {
    assert Open(OfStrip, true);
  }

  lemma {:induction false} StripHasXmax(w: Blocks, meta: Meta, ri: int, data: seq<string>)
    requires data == ReadStrip(w, meta.stripWidth, meta.yLevel, meta.zStart + ri) && |data| >= 4
    requires ReadXmax(data[2], data[3]).Some?
    ensures HasXmax(w, Pos(0, meta.yLevel, meta.zStart + ri))
    ensures XmaxAt(w, meta.yLevel, meta.zStart + ri) == ReadXmax(data[2], data[3])
  {
    XmaxIsThere(data[2], data[3]);
  }

  lemma {:induction false} RowHasXmax(w: Blocks, meta: Meta, ri: int, row: Row)
    requires Decodes(w, meta, ri, row) && meta.stripWidth >= 4
    ensures HasXmax(w, Pos(0, meta.yLevel, meta.zStart + ri))
    ensures XmaxAt(w, meta.yLevel, meta.zStart + ri) == Some(row.xmax)
  {
    var data := ReadStrip(w, meta.stripWidth, meta.yLevel, meta.zStart + ri);
    DataDecodes(w, meta, ri, row, data);
    DecodedHasXmax(data, meta.columns, row);
    StripHasXmax(w, meta, ri, data);
  }

  lemma {:induction false} DataDecodes(w: Blocks, meta: Meta, ri: int, row: Row, data: seq<string>)
    requires Decodes(w, meta, ri, row) && data == ReadStrip(w, meta.stripWidth, meta.yLevel, meta.zStart + ri)
    ensures ReadsBack(data, meta.columns, row)
  {
    DecodesTo(w, meta, ri, row);
    RowOfRead(w, meta, ri, data);
  }

  lemma {:induction false} RemarkRow(w: Blocks, w': Blocks, meta: Meta, ri: int, row: Row, txid: int)
    requires Decodes(w, meta, ri, row) && meta.stripWidth >= 4 && SameButXmax(w, w', meta, ri)
    requires XmaxAt(w, meta.yLevel, meta.zStart + ri).Some?
    requires XmaxAt(w', meta.yLevel, meta.zStart + ri) == Some(Some(txid))
    ensures Decodes(w', meta, ri, row.(xmax := Some(txid)))
  {
    DecodesTo(w, meta, ri, row);
    RowWithXmax(w, w', meta, ri);
    DecodesTo(w', meta, ri, row.(xmax := Some(txid)));
  }

  /** One mark: it succeeds, it sets that row's deleter and nothing else moves. */
  lemma {:induction false} MarkRow(w: Blocks, lsn: int, meta: Meta, ri: nat, row: Row, txid: int64)
    requires Quiet(w, lsn) && Decodes(w, meta, ri, row)
    requires meta.yLevel == TABLE_Y && meta.zStart >= 0 && meta.stripWidth >= 4
    requires IsInt64(lsn) && IsInt64(meta.zStart + ri)
    ensures var z := meta.zStart + ri;
            var m := Mark(Marks(w, lsn, true), Pos(0, meta.yLevel, z), txid);
            && m.ok && m.lsn == lsn + 1 && Quiet(m.world, lsn + 1) && OnlyTouches(w, m.world, lsn, z)
            && Decodes(m.world, meta, ri, row.(xmax := Some(txid)))
  {
    var z := meta.zStart + ri;
    var pos := Pos(0, meta.yLevel, z);
    var op := DeleteOp(pos, txid);
    RowHasXmax(w, meta, ri, row);
    DeleteIsLoggable(pos, txid, lsn);
    SequenceCommits(w, lsn, op);
    SequenceKeepsQuiet(w, lsn, op);
    MarkedXmax(w, lsn, pos, txid);
    MarkTouches(w, lsn, pos, txid);
    MarkKeepsRest(w, lsn, meta, ri, txid);
    RemarkRow(w, Finished(w, lsn, op), meta, ri, row, txid);
  }

  lemma {:induction false} MarkTouches(w: Blocks, lsn: int, pos: Pos, txid: int64)
    requires lsn >= 1 && pos.y == TABLE_Y && Loggable(DeleteOp(pos, txid), lsn) && OffLog(DeleteOp(pos, txid))
    ensures OnlyTouches(w, Finished(w, lsn, DeleteOp(pos, txid)), lsn, pos.z)
  {
    forall p: Pos | p != Lectern(lsn) && !(p.y == TABLE_Y && p.z == pos.z)
      ensures Get(Finished(w, lsn, DeleteOp(pos, txid)), p) == Get(w, p)
    {
      MarkedBlocks(w, lsn, pos, txid, p);
    }
  }

  lemma {:induction false} MarkKeepsRest(w: Blocks, lsn: int, meta: Meta, ri: nat, txid: int64)
    requires lsn >= 1 && meta.zStart >= 0
    requires var op := DeleteOp(Pos(0, meta.yLevel, meta.zStart + ri), txid); Loggable(op, lsn) && OffLog(op)
    ensures SameButXmax(w, Finished(w, lsn, DeleteOp(Pos(0, meta.yLevel, meta.zStart + ri), txid)), meta, ri)
  {
    var pos := Pos(0, meta.yLevel, meta.zStart + ri);
    var w' := Finished(w, lsn, DeleteOp(pos, txid));
    forall x | 0 <= x < meta.stripWidth && x != 2 && x != 3
      ensures BlockAt(w', meta, ri, x) == BlockAt(w, meta, ri, x)
    {
      MarkedBlocks(w, lsn, pos, txid, Pos(x, meta.yLevel, meta.zStart + ri));
    }
  }

  /** Blocks outside the log and outside the table's first n rows. */
  predicate Beyond(p: Pos, meta: Meta, n: nat) {
    !(p.y == TABLE_Y && (p.z < 0 || meta.zStart <= p.z < meta.zStart + n))
  }

  function PartlyDeleted(rows: seq<Row>, keep: Row -> bool, txid: int, n: nat, ri: nat): Row
    requires ri < |rows|
  {
    if ri < n then Deleted(rows[ri], keep, txid) else rows[ri]
  }

  ghost predicate StoredPartly(w: Blocks, meta: Meta, rows: seq<Row>, keep: Row -> bool, txid: int, n: nat) {
    forall ri | 0 <= ri < |rows| :: Decodes(w, meta, ri, PartlyDeleted(rows, keep, txid, n, ri))
  }

  /** The state of a DELETE that has dealt with the first n slots. */
  ghost predicate Marking(w: Blocks, lsn: int, m: Marks, meta: Meta, rows: seq<Row>, keep: Row -> bool, txid: int,
                          n: nat)
  {
    && m.ok && lsn <= m.lsn <= lsn + n && Quiet(m.world, m.lsn)
    && StoredPartly(m.world, meta, rows, keep, txid, n)
    && (forall p | Beyond(p, meta, n) :: Get(m.world, p) == Get(w, p))
  }

  predicate TableShape(meta: Meta) {
    meta.yLevel == TABLE_Y && meta.zStart >= 0 && meta.stripWidth >= 4
  }

  ghost predicate IsMark(m: Marks, pos: Pos, txid: int, m': Marks) {
    forall k {:trigger Open(OfRow, k)} :: Open(OfRow, k) ==> m' == Mark(m, pos, txid)
  }

  lemma {:induction false} PartlySame(rows: seq<Row>, keep: Row -> bool, txid: int, n: nat, n': nat, ri: nat)
    requires n < |rows| && n' == n + 1 && Deleted(rows[n], keep, txid) == rows[n] && ri < |rows|
    ensures PartlyDeleted(rows, keep, txid, n', ri) == PartlyDeleted(rows, keep, txid, n, ri)
  {
  }

  lemma {:induction false} PartlySkips(w: Blocks, meta: Meta, rows: seq<Row>, keep: Row -> bool, txid: int, n: nat)
    requires StoredPartly(w, meta, rows, keep, txid, n) && n < |rows| && Deleted(rows[n], keep, txid) == rows[n]
    ensures StoredPartly(w, meta, rows, keep, txid, n + 1)
  {
    var n' := n + 1;
    forall ri | 0 <= ri < |rows| ensures Decodes(w, meta, ri, PartlyDeleted(rows, keep, txid, n', ri)) {
      assert Decodes(w, meta, ri, PartlyDeleted(rows, keep, txid, n, ri));
      PartlySame(rows, keep, txid, n, n', ri);
    }
  }

  lemma {:induction false} MarkingSkips(w: Blocks, lsn: int, m: Marks, meta: Meta, rows: seq<Row>, keep: Row -> bool,
                                        txid: int64, n: nat)
    requires Marking(w, lsn, m, meta, rows, keep, txid, n) && n < |rows|
    requires Deleted(rows[n], keep, txid) == rows[n]
    ensures Marking(w, lsn, m, meta, rows, keep, txid, n + 1)
  {
    forall p | Beyond(p, meta, n + 1) ensures Get(m.world, p) == Get(w, p) {
      assert Beyond(p, meta, n);
    }
    PartlySkips(m.world, meta, rows, keep, txid, n);
  }

  lemma {:induction false} MarkingMarks(w: Blocks, lsn: int, m: Marks, meta: Meta, rows: seq<Row>, keep: Row -> bool,
                                        txid: int64, n: nat)
    returns (m': Marks)
    requires Marking(w, lsn, m, meta, rows, keep, txid, n) && n < |rows| && TableShape(meta)
    requires IsVisible(rows[n], txid) && keep(rows[n])
    requires IsInt64(lsn + |rows|) && IsInt64(meta.zStart + |rows|)
    ensures Marking(w, lsn, m', meta, rows, keep, txid, n + 1) && m'.lsn == m.lsn + 1
    ensures IsMark(m, Pos(0, meta.yLevel, meta.zStart + n), txid, m')
  {
    assert Decodes(m.world, meta, n, PartlyDeleted(rows, keep, txid, n, n));
    MarkRow(m.world, m.lsn, meta, n, rows[n], txid);
    m' := Mark(m, Pos(0, meta.yLevel, meta.zStart + n), txid);
    MarkedOn(w, lsn, m, m', meta, rows, keep, txid, n);
  }

  lemma {:induction false} MarkedOn(w: Blocks, lsn: int, m: Marks, m': Marks, meta: Meta, rows: seq<Row>,
                                    keep: Row -> bool, txid: int64, n: nat)
    requires Marking(w, lsn, m, meta, rows, keep, txid, n) && n < |rows| && TableShape(meta)
    requires m'.ok && m'.lsn == m.lsn + 1 && Quiet(m'.world, m'.lsn)
    requires OnlyTouches(m.world, m'.world, m.lsn, meta.zStart + n)
    requires Decodes(m'.world, meta, n, Deleted(rows[n], keep, txid))
    ensures Marking(w, lsn, m', meta, rows, keep, txid, n + 1)
  {
    var n' := n + 1;
    forall ri | 0 <= ri < |rows| ensures Decodes(m'.world, meta, ri, PartlyDeleted(rows, keep, txid, n', ri)) {
      if ri != n {
        assert Decodes(m.world, meta, ri, PartlyDeleted(rows, keep, txid, n, ri));
        RowKept(m.world, m'.world, m.lsn, meta.zStart + n, meta, ri, PartlyDeleted(rows, keep, txid, n, ri));
      }
    }
    forall p | Beyond(p, meta, n + 1) ensures Get(m'.world, p) == Get(w, p) {
      assert Beyond(p, meta, n);
    }
  }

  lemma {:induction false} ScanSlotOf(w: Blocks, meta: Meta, ri: nat, row: Row, txid: int)
    requires Decodes(w, meta, ri, row)
    ensures ScanSlot(w, meta, ri, txid)
            == if IsVisible(row, txid) then Some(Scanned(row, Pos(0, meta.yLevel, meta.zStart + ri))) else None
  {
    DecodesTo(w, meta, ri, row);
  }

  lemma {:induction false} MarkAllPrefix(w: Blocks, lsn: int, ms: seq<Scanned>, all: seq<Scanned>, txid: int, n: nat)
    requires ms <= all && n <= |ms|
    ensures MarkAll(w, lsn, all, txid, n) == MarkAll(w, lsn, ms, txid, n)
  {
    var same := (k: nat) => k <= |ms| ==> MarkAll(w, lsn, all, txid, k) == MarkAll(w, lsn, ms, txid, k);
    forall k: nat | k < |ms| ensures Carries(same, k) {
      if same(k) {
        MarkAllPrefixNext(w, lsn, ms, all, txid, k);
      }
    }
    CountUp(same, n);
  }

  lemma {:induction false} MarkAllPrefixNext(w: Blocks, lsn: int, ms: seq<Scanned>, all: seq<Scanned>, txid: int,
                                             k: nat)
    requires ms <= all && k < |ms| && MarkAll(w, lsn, all, txid, k) == MarkAll(w, lsn, ms, txid, k)
    ensures MarkAll(w, lsn, all, txid, k + 1) == MarkAll(w, lsn, ms, txid, k + 1)
  {
    MarkAllStep(w, lsn, ms, txid, k);
    MarkAllStep(w, lsn, all, txid, k);
    assert all[k] == ms[k];
  }

  lemma {:induction false} MarkAllStep(w: Blocks, lsn: int, ms: seq<Scanned>, txid: int, k: nat)
    requires k < |ms|
    ensures MarkAll(w, lsn, ms, txid, k + 1) == Mark(MarkAll(w, lsn, ms, txid, k), ms[k].pos, txid)
  {
  }

  /** Where marking these rows leads; sealed like Decodes. */
  ghost predicate MarksTo(w: Blocks, lsn: int, ms: seq<Scanned>, txid: int, m: Marks) {
    forall k {:trigger Open(OfRow, k)} :: Open(OfRow, k) ==> m == MarkAll(w, lsn, ms, txid, |ms|)
  }

  lemma {:induction false} NothingMarked(w: Blocks, lsn: int, meta: Meta, rows: seq<Row>, keep: Row -> bool,
                                         txid: int, n: nat)
    requires Quiet(w, lsn) && Stored(w, meta, rows) && n == 0
    ensures Marking(w, lsn, Marks(w, lsn, true), meta, rows, keep, txid, n)
    ensures IsMatching(w, meta, keep, txid, n, []) && MarksTo(w, lsn, [], txid, Marks(w, lsn, true))
  {
    forall ri | 0 <= ri < |rows| ensures Decodes(w, meta, ri, PartlyDeleted(rows, keep, txid, n, ri)) {
      assert Decodes(w, meta, ri, rows[ri]);
    }
  }

  /** The first n slots are dealt with: these rows matched, and marking them led here. */
  ghost predicate Dealt(w: Blocks, lsn: int, meta: Meta, rows: seq<Row>, keep: Row -> bool, txid: int, n: nat,
                        ms: seq<Scanned>, m: Marks)
  {
    forall k {:trigger Open(OfStage, k)} :: Open(OfStage, k) ==>
      && IsMatching(w, meta, keep, txid, n, ms) && MarksTo(w, lsn, ms, txid, m)
      && Marking(w, lsn, m, meta, rows, keep, txid, n) && m.lsn == lsn + |ms|
  }

  ghost predicate Ready(w: Blocks, lsn: int, meta: Meta, rows: seq<Row>) {
    forall k {:trigger Open(OfReady, k)} :: Open(OfReady, k) ==> Quiet(w, lsn) && Stored(w, meta, rows)
  }

  lemma {:induction false} DealtNone(w: Blocks, lsn: int, meta: Meta, rows: seq<Row>, keep: Row -> bool, txid: int)
    requires Ready(w, lsn, meta, rows)
    ensures Dealt(w, lsn, meta, rows, keep, txid, 0, [], Marks(w, lsn, true))
  {
    assert Open(OfReady, true);
    NothingMarked(w, lsn, meta, rows, keep, txid, 0);
  }

  lemma {:induction false} DealtNext(w: Blocks, lsn: int, meta: Meta, rows: seq<Row>, keep: Row -> bool, txid: int64,
                                     n: nat, ms: seq<Scanned>, m: Marks)
    returns (ms': seq<Scanned>, m': Marks)
    requires Ready(w, lsn, meta, rows) && Dealt(w, lsn, meta, rows, keep, txid, n, ms, m)
    requires TableShape(meta) && n < |rows| && IsInt64(lsn + |rows|) && IsInt64(meta.zStart + |rows|)
    ensures Dealt(w, lsn, meta, rows, keep, txid, n + 1, ms', m')
  {
    assert Open(OfStage, true) && Open(OfReady, true);
    if IsVisible(rows[n], txid) && keep(rows[n]) {
      var one := Scanned(rows[n], Pos(0, meta.yLevel, meta.zStart + n));
      ms' := ms + [one];
      m' := MarkingMarks(w, lsn, m, meta, rows, keep, txid, n);
      MatchingHit(w, meta, rows, keep, txid, n, ms);
      MarksOn(w, lsn, ms, one, txid, m, m');
    } else {
      ms', m' := ms, m;
      MatchingMiss(w, meta, rows, keep, txid, n, ms);
      MarkingSkips(w, lsn, m, meta, rows, keep, txid, n);
    }
  }

  ghost predicate SomehowDealt(w: Blocks, lsn: int, meta: Meta, rows: seq<Row>, keep: Row -> bool, txid: int, n: nat) {
    exists ms, m :: Dealt(w, lsn, meta, rows, keep, txid, n, ms, m)
  }

  lemma {:induction false} DealtOneMore(w: Blocks, lsn: int, meta: Meta, rows: seq<Row>, keep: Row -> bool, txid: int64,
                                        n: nat)
    requires Ready(w, lsn, meta, rows) && TableShape(meta) && n < |rows|
    requires IsInt64(lsn + |rows|) && IsInt64(meta.zStart + |rows|)
    requires SomehowDealt(w, lsn, meta, rows, keep, txid, n)
    ensures SomehowDealt(w, lsn, meta, rows, keep, txid, n + 1)
  {
    var ms, m :| Dealt(w, lsn, meta, rows, keep, txid, n, ms, m);
    var ms', m' := DealtNext(w, lsn, meta, rows, keep, txid, n, ms, m);
  }

  /** Marking all the rows that match, slot by slot. */
  lemma {:induction false} MarkingAll(w: Blocks, lsn: int, meta: Meta, rows: seq<Row>, keep: Row -> bool, txid: int64,
                                      n: nat)
    requires Ready(w, lsn, meta, rows) && TableShape(meta) && n <= |rows|
    requires IsInt64(lsn + |rows|) && IsInt64(meta.zStart + |rows|)
    ensures SomehowDealt(w, lsn, meta, rows, keep, txid, n)
  {
    var reached := (k: nat) => k <= |rows| ==> SomehowDealt(w, lsn, meta, rows, keep, txid, k);
    DealtNone(w, lsn, meta, rows, keep, txid);
    forall k: nat | k < |rows| ensures Carries(reached, k) {
      if reached(k) {
        DealtOneMore(w, lsn, meta, rows, keep, txid, k);
      }
    }
    CountUp(reached, n);
  }

  ghost predicate IsMatching(w: Blocks, meta: Meta, keep: Row -> bool, txid: int, n: nat, ms: seq<Scanned>) {
    forall k {:trigger Open(OfRow, k)} :: Open(OfRow, k) ==> ms == Matching(w, meta, keep, txid, n)
  }

  lemma {:induction false} MatchingHit(w: Blocks, meta: Meta, rows: seq<Row>, keep: Row -> bool, txid: int, n: nat,
                                       ms: seq<Scanned>)
    requires Stored(w, meta, rows) && n < |rows| && IsMatching(w, meta, keep, txid, n, ms)
    requires IsVisible(rows[n], txid) && keep(rows[n])
    ensures IsMatching(w, meta, keep, txid, n + 1, ms + [Scanned(rows[n], Pos(0, meta.yLevel, meta.zStart + n))])
  {
    assert Open(OfRow, true);
    assert Decodes(w, meta, n, rows[n]);
    ScanSlotOf(w, meta, n, rows[n], txid);
  }

  lemma {:induction false} MatchingMiss(w: Blocks, meta: Meta, rows: seq<Row>, keep: Row -> bool, txid: int, n: nat,
                                        ms: seq<Scanned>)
    requires Stored(w, meta, rows) && n < |rows| && IsMatching(w, meta, keep, txid, n, ms)
    requires !(IsVisible(rows[n], txid) && keep(rows[n]))
    ensures IsMatching(w, meta, keep, txid, n + 1, ms)
  {
    assert Open(OfRow, true);
    assert Decodes(w, meta, n, rows[n]);
    ScanSlotOf(w, meta, n, rows[n], txid);
    assert ms + [] == ms;
  }

  lemma {:induction false} MarksOn(w: Blocks, lsn: int, ms: seq<Scanned>, one: Scanned, txid: int, m: Marks, m': Marks)
    requires MarksTo(w, lsn, ms, txid, m) && IsMark(m, one.pos, txid, m')
    ensures MarksTo(w, lsn, ms + [one], txid, m')
  {
    assert Open(OfRow, true);
    MarkAllOne(w, lsn, ms, one, txid);
  }

  lemma {:induction false} MarkAllOne(w: Blocks, lsn: int, ms: seq<Scanned>, one: Scanned, txid: int)
    ensures MarkAll(w, lsn, ms + [one], txid, |ms| + 1) == Mark(MarkAll(w, lsn, ms, txid, |ms|), one.pos, txid)
  {
    assert (ms + [one])[|ms|] == one;
    MarkAllStep(w, lsn, ms + [one], txid, |ms|);
    MarkAllPrefix(w, lsn, ms, ms + [one], txid, |ms|);
  }

  // ----- DELETE as a whole -----

  /** Marking every matching row of the first n slots. */
  function AllMarked(w: Blocks, lsn: int, meta: Meta, keep: Row -> bool, txid: int, n: nat): Marks {
    var ms := Matching(w, meta, keep, txid, n);
    MarkAll(w, lsn, ms, txid, |ms|)
  }

  function DeleteRows(db: DB, name: string, keep: Row -> bool, txid: int): Marks
    requires name in db.tables
  {
    AllMarked(db.world, db.nextLSN, db.tables[name], keep, txid, db.tables[name].rowCount)
  }

  function Remarked(db: DB, m: Marks): DB {
    db.(world := m.world, nextLSN := m.lsn)
  }

  function Purged(ts: Tables, name: string, keep: Row -> bool, txid: int): Tables
    requires name in ts.byName
  {
    ts.(byName := ts.byName[name := DeletedFrom(ts.byName[name], keep, txid)])
  }

  lemma {:induction false} OthersStay(db: DB, ts: Tables, json: Json, name: string, m: Marks, keep: Row -> bool,
                                      txid: int, n: string)
    requires Represents(db, ts, json) && name in db.tables && n in db.tables && n != name
    requires var meta := db.tables[name];
             Marking(db.world, db.nextLSN, m, meta, ts.byName[name].rows, keep, txid, meta.rowCount)
    ensures TableOk(Remarked(db, m), Purged(ts, name, keep, txid), n)
  {
    PlacedFields(db, ts, json, name);
    PlacedFields(db, ts, json, n);
    var meta, rows := db.tables[n], ts.byName[n].rows;
    forall ri | 0 <= ri < |rows| ensures Decodes(m.world, meta, ri, rows[ri]) {
      TablesAreDisjoint(db, ts, json, n, name, meta.zStart + ri);
      BeyondKept(db.world, m.world, db.tables[name], db.tables[name].rowCount, meta, ri, rows[ri]);
    }
    SameTableOk(db, ts, Remarked(db, m), Purged(ts, name, keep, txid), n);
  }

  lemma {:induction false} BeyondKept(w: Blocks, w': Blocks, marked: Meta, n: nat, meta: Meta, ri: nat, row: Row)
    requires forall p | Beyond(p, marked, n) :: Get(w', p) == Get(w, p)
    requires Decodes(w, meta, ri, row) && meta.yLevel == TABLE_Y && meta.zStart >= 0
    requires !(marked.zStart <= meta.zStart + ri < marked.zStart + n)
    ensures Decodes(w', meta, ri, row)
  {
    forall x | 0 <= x < meta.stripWidth ensures BlockAt(w', meta, ri, x) == BlockAt(w, meta, ri, x) {
      assert Beyond(Pos(x, meta.yLevel, meta.zStart + ri), marked, n);
    }
    SameStripSameRow(w, w', meta, ri);
  }

  lemma {:induction false} MarkedTable(db: DB, ts: Tables, json: Json, name: string, m: Marks, keep: Row -> bool,
                                       txid: int)
    requires Represents(db, ts, json) && name in db.tables
    requires var meta := db.tables[name];
             Marking(db.world, db.nextLSN, m, meta, ts.byName[name].rows, keep, txid, meta.rowCount)
    ensures TableOk(Remarked(db, m), Purged(ts, name, keep, txid), name)
  {
    PlacedFields(db, ts, json, name);
    var meta, t := db.tables[name], ts.byName[name];
    AllDeleted(m.world, meta, t, keep, txid);
  }

  lemma {:induction false} AllDeleted(w: Blocks, meta: Meta, t: Table, keep: Row -> bool, txid: int)
    requires StoredPartly(w, meta, t.rows, keep, txid, |t.rows|)
    ensures Stored(w, meta, DeletedFrom(t, keep, txid).rows)
  {
    var t' := DeletedFrom(t, keep, txid);
    forall ri | 0 <= ri < |t'.rows| ensures Decodes(w, meta, ri, t'.rows[ri]) {
      assert Decodes(w, meta, ri, PartlyDeleted(t.rows, keep, txid, |t.rows|, ri));
    }
  }

  lemma {:induction false} SameCatalog(w: Blocks, w': Blocks, ts: Tables, json: Json)
    requires CatalogOk(w, ts, json) && forall i :: Get(w', CatalogPos(i)) == Get(w, CatalogPos(i))
    ensures CatalogOk(w', ts, json)
  {
  }

  lemma {:induction false} MarkedCatalog(w: Blocks, lsn: int, ts: Tables, json: Json, name: string, m: Marks,
                                         meta: Meta,
                                         keep: Row -> bool, txid: int)
    requires name in ts.byName && CatalogOk(w, ts, json)
    requires Marking(w, lsn, m, meta, ts.byName[name].rows, keep, txid, meta.rowCount)
    ensures CatalogOk(m.world, Purged(ts, name, keep, txid), json)
  {
    forall i ensures Get(m.world, CatalogPos(i)) == Get(w, CatalogPos(i)) {
      assert Beyond(CatalogPos(i), meta, meta.rowCount);
    }
    SameCatalog(w, m.world, ts, json);
    CatalogIgnoresRows(m.world, ts, json, name, DeletedFrom(ts.byName[name], keep, txid));
  }

  lemma {:induction false} MarkedTables(db: DB, ts: Tables, json: Json, name: string, m: Marks, keep: Row -> bool,
                                        txid: int)
    requires Represents(db, ts, json) && name in db.tables
    requires var meta := db.tables[name];
             Marking(db.world, db.nextLSN, m, meta, ts.byName[name].rows, keep, txid, meta.rowCount)
    ensures Represents(Remarked(db, m), Purged(ts, name, keep, txid), json)
  {
    MarkedCatalog(db.world, db.nextLSN, ts, json, name, m, db.tables[name], keep, txid);
    forall n | n in Remarked(db, m).tables ensures TableOk(Remarked(db, m), Purged(ts, name, keep, txid), n) {
      if n == name {
        MarkedTable(db, ts, json, name, m, keep, txid);
      } else {
        OthersStay(db, ts, json, name, m, keep, txid, n);
      }
    }
  }

  /** DELETE on blocks sets the deleter of exactly the matching versions, and always succeeds. */
  lemma {:induction false} DeleteRefines(db: DB, ts: Tables, json: Json, name: string, keep: Row -> bool, txid: int64)
    requires Represents(db, ts, json) && name in db.tables && Fits(db, db.tables[name].rowCount)
    ensures var m := DeleteRows(db, name, keep, txid);
            && m.ok && m.lsn == db.nextLSN + |Selected(ts.byName[name].rows, keep, txid)|
            && Represents(Remarked(db, m), Purged(ts, name, keep, txid), json)
  {
    PlacedFields(db, ts, json, name);
    var m := MarkingReached(db, ts, json, name, keep, txid, db.tables[name].rowCount);
    MarkedTables(db, ts, json, name, m, keep, txid);
    SelectRefines(db, ts, json, name, keep, txid);
  }

  /** Where a DELETE stands once it has dealt with the first k slots. */
  lemma {:induction false} MarkingReached(db: DB, ts: Tables, json: Json, name: string, keep: Row -> bool,
                                          txid: int64, k: nat)
    returns (m: Marks)
    requires Represents(db, ts, json) && name in db.tables && Fits(db, db.tables[name].rowCount)
    requires k <= db.tables[name].rowCount
    ensures m == AllMarked(db.world, db.nextLSN, db.tables[name], keep, txid, k)
    ensures Marking(db.world, db.nextLSN, m, db.tables[name], ts.byName[name].rows, keep, txid, k)
    ensures m.lsn == db.nextLSN + |Matching(db.world, db.tables[name], keep, txid, k)|
  {
    PlacedFields(db, ts, json, name);
    MarkingAll(db.world, db.nextLSN, db.tables[name], ts.byName[name].rows, keep, txid, k);
    var ms, m' :| Dealt(db.world, db.nextLSN, db.tables[name], ts.byName[name].rows, keep, txid, k, ms, m');
    m := m';
    assert Open(OfRow, true) && Open(OfStage, true);
  }

  // ----- SELECT -----

  function RowsOf(s: seq<Scanned>): (rows: seq<Row>)
    ensures |rows| == |s|
  {
    seq(|s|, i requires 0 <= i < |s| => s[i].row)
  }

  lemma {:induction false} RowsOfAppend(s: seq<Scanned>, one: Scanned)
    ensures RowsOf(s + [one]) == RowsOf(s) + [one.row]
  {
  }

  /** Scanning the blocks and filtering gives the versions one would pick from the list, in order. */
  lemma {:induction false} MatchingIsSelected(w: Blocks, meta: Meta, rows: seq<Row>, keep: Row -> bool, txid: int,
                                              n: nat)
    requires Stored(w, meta, rows) && n <= |rows|
    ensures RowsOf(Matching(w, meta, keep, txid, n)) == Selected(rows[..n], keep, txid)
  {
    var selected := (k: nat) => k <= |rows| ==> RowsOf(Matching(w, meta, keep, txid, k)) == Selected(rows[..k], keep,
                                                                                                     txid);
    forall k: nat | k < |rows| ensures Carries(selected, k) {
      if selected(k) {
        assert Decodes(w, meta, k, rows[k]);
        SelectedNext(w, meta, rows, keep, txid, k);
      }
    }
    CountUp(selected, n);
  }

  lemma {:induction false} SelectedNext(w: Blocks, meta: Meta, rows: seq<Row>, keep: Row -> bool, txid: int, k: nat)
    requires k < |rows| && Decodes(w, meta, k, rows[k])
    requires RowsOf(Matching(w, meta, keep, txid, k)) == Selected(rows[..k], keep, txid)
    ensures RowsOf(Matching(w, meta, keep, txid, k + 1)) == Selected(rows[..k + 1], keep, txid)
  {
    var one := Scanned(rows[k], Pos(0, meta.yLevel, meta.zStart + k));
    ScanSlotOf(w, meta, k, rows[k], txid);
    SelectedStep(rows, keep, txid, k);
    MatchingStep(w, meta, keep, txid, k, one);
    RowsOfAppend(Matching(w, meta, keep, txid, k), one);
  }

  lemma {:induction false} SelectedStep(rows: seq<Row>, keep: Row -> bool, txid: int, k: nat)
    requires k < |rows|
    ensures Selected(rows[..k + 1], keep, txid)
            == Selected(rows[..k], keep, txid) + if IsVisible(rows[k], txid) && keep(rows[k]) then [rows[k]] else []
  {
    assert rows[..k + 1][..k] == rows[..k];
  }

  lemma {:induction false} MatchingStep(w: Blocks, meta: Meta, keep: Row -> bool, txid: int, k: nat, one: Scanned)
    requires ScanSlot(w, meta, k, txid) == if IsVisible(one.row, txid) then Some(one) else None
    ensures Matching(w, meta, keep, txid, k + 1)
            == Matching(w, meta, keep, txid, k) + if IsVisible(one.row, txid) && keep(one.row) then [one] else []
  {
  }

  /** SELECT on blocks is filtering the list. */
  lemma {:induction false} SelectRefines(db: DB, ts: Tables, json: Json, name: string, keep: Row -> bool, txid: int)
    requires Represents(db, ts, json) && name in db.tables
    ensures var meta := db.tables[name];
            RowsOf(Matching(db.world, meta, keep, txid, meta.rowCount)) == Selected(ts.byName[name].rows, keep, txid)
  {
    PlacedFields(db, ts, json, name);
    var rows := ts.byName[name].rows;
    MatchingIsSelected(db.world, db.tables[name], rows, keep, txid, |rows|);
    assert rows[..|rows|] == rows;
  }
}
