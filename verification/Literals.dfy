/** The engine as its user sees it: tables of literals. Nothing below knows how a value is stored. */
module Literals {
  import opened GoText
  import opened Layout
  import opened Store
  import opened Query
  import opened Refine
  import opened Engine

  // ----- rows of literals -----

  /** Where a name stands in a list, or its length. */
  function Position(names: seq<string>, name: string, from: nat): (i: nat)
    requires from <= |names|
    ensures from <= i <= |names| && (i < |names| ==> names[i] == name)
    ensures forall k | from <= k < i :: names[k] != name
    decreases |names| - from
  {
    if from == |names| || names[from] == name then from else Position(names, name, from + 1)
  }

  /** The place of column k's value among those of an INSERT. */
  function PlaceOf(cols: seq<Column>, names: seq<string>, k: nat): nat
    requires k < |cols|
  {
    Position(NamesGiven(cols, names), cols[k].name, 0)
  }

  /** Column k is given a value of its type. */
  predicate Gives(cols: seq<Column>, names: seq<string>, values: seq<Value>, k: nat)
    requires k < |cols|
  {
    var j := PlaceOf(cols, names, k);
    j < |NamesGiven(cols, names)| && j < |values| && Fitting(cols[k].typ, values[j])
  }

  /** An INSERT that names no column twice and gives every column a value of its type. */
  predicate Complete(cols: seq<Column>, names: seq<string>, values: seq<Value>) {
    Distinct(NamesGiven(cols, names)) && forall k | 0 <= k < |cols| :: Gives(cols, names, values, k)
  }

  /** What column k then shows: the literal, text cut to 64 bytes. */
  function ShownAt(cols: seq<Column>, names: seq<string>, values: seq<Value>, k: nat): Value
    requires k < |cols| && Gives(cols, names, values, k)
  {
    ReadBack(cols[k].typ, values[PlaceOf(cols, names, k)])
  }

  function Shown(cols: seq<Column>, names: seq<string>, values: seq<Value>): map<int, Value>
    requires Complete(cols, names, values)
  {
    map k: int | 0 <= k < |cols| :: ShownAt(cols, names, values, k)
  }

  // ----- statements over them -----

  /** A complete INSERT appends a row of its literals; incomplete ones are not described here. */
  function LiteralInsert(t: Table, names: seq<string>, values: seq<Value>, txid: int): Table {
    if Complete(t.columns, names, values) then t.(rows := t.rows + [Row(txid, None, Shown(t.columns, names, values))])
    else t
  }

  /** Every other statement does to rows of literals what it does to any rows. */
  function LiteralAnswer(ts: Tables, floats: Floats, stmt: Stmt, txid: int): (r: (Outcome, Tables)) {
    if stmt.InsertStmt? && stmt.table in ts.byName then
      var t := LiteralInsert(ts.byName[stmt.table], stmt.names, stmt.values, txid);
      (Tagged("INSERT 0 1"), ts.(byName := ts.byName[stmt.table := t]))
    else Answer(ts, floats, stmt, txid)
  }

  function LiteralAfter(floats: Floats, run: seq<Call>, n: nat): Tables
    requires n <= |run|
  {
    if n == 0 then NO_TABLES
    else LiteralAnswer(LiteralAfter(floats, run, n - 1), floats, run[n - 1].stmt, run[n - 1].txid).1
  }

  predicate CompleteIn(ts: Tables, stmt: Stmt) {
    stmt.InsertStmt? && stmt.table in ts.byName ==> Complete(ts.byName[stmt.table].columns, stmt.names, stmt.values)
  }

  /** Every INSERT of the run is complete. */
  predicate CompleteRun(floats: Floats, run: seq<Call>) {
    forall i | 0 <= i < |run| :: CompleteIn(LiteralAfter(floats, run, i), run[i].stmt)
  }

  // ----- what is stored is what is shown -----

  predicate InOrdinalOrder(cols: seq<Column>) {
    forall k | 0 <= k < |cols| :: cols[k].ordinal == k
  }

  lemma {:induction false} CollectedKeys(cols: seq<Column>, cells: seq<Option<Value>>, n: nat, o: int)
    requires n <= |cols| == |cells| && InOrdinalOrder(cols) && o in Collect(cols, cells, n)
    ensures 0 <= o < n
  {
    if n > 0 && o != cols[n - 1].ordinal {
      CollectedKeys(cols, cells, n - 1, o);
    }
  }

  lemma {:induction false} CellIsShown(cols: seq<Column>, names: seq<string>, values: seq<Value>, k: nat)
    requires Complete(cols, names, values) && InOrdinalOrder(cols) && k < |cols|
    ensures var stored := StoredColumns(cols, InsertValues(cols, names, values));
            k in stored && stored[k] == ShownAt(cols, names, values, k)
  {
    var j := PlaceOf(cols, names, k);
    assert Gives(cols, names, values, k);
    EveryColumnGetsItsValue(cols, names, values, k, j);
    FittingIsStored(cols[k].typ, values[j]);
    assert DistinctOrdinals(cols);
    CollectedUnderOrdinal(cols, StoredCells(cols, InsertValues(cols, names, values)), |cols|, k);
  }

  /** The row the blocks give back after a complete INSERT is the row of its literals. */
  lemma {:induction false} StoredIsShown(cols: seq<Column>, names: seq<string>, values: seq<Value>)
    requires Complete(cols, names, values) && InOrdinalOrder(cols)
    ensures StoredColumns(cols, InsertValues(cols, names, values)) == Shown(cols, names, values)
  {
    var stored, shown := StoredColumns(cols, InsertValues(cols, names, values)), Shown(cols, names, values);
    forall k | k in shown ensures k in stored && stored[k] == shown[k] {
      CellIsShown(cols, names, values, k);
    }
    forall o | o in stored ensures o in shown {
      CollectedKeys(cols, StoredCells(cols, InsertValues(cols, names, values)), |cols|, o);
    }
  }

  // ----- runs -----

  predicate AllInOrder(ts: Tables) {
    forall n | n in ts.byName :: InOrdinalOrder(ts.byName[n].columns)
  }

  lemma {:induction false} AnswerKeepsOrder(ts: Tables, floats: Floats, stmt: Stmt, txid: int)
    requires AllInOrder(ts)
    ensures AllInOrder(Answer(ts, floats, stmt, txid).1)
  {
  }

  lemma {:induction false} SameAnswer(ts: Tables, floats: Floats, stmt: Stmt, txid: int)
    requires AllInOrder(ts) && CompleteIn(ts, stmt)
    ensures LiteralAnswer(ts, floats, stmt, txid) == Answer(ts, floats, stmt, txid)
  {
    if stmt.InsertStmt? && stmt.table in ts.byName {
      StoredIsShown(ts.byName[stmt.table].columns, stmt.names, stmt.values);
    }
  }

  ghost predicate SameAfter(floats: Floats, run: seq<Call>, n: nat)
    requires n <= |run|
  {
    LiteralAfter(floats, run, n) == TablesAfter(floats, run, n) && AllInOrder(TablesAfter(floats, run, n))
  }

  ghost function Same(floats: Floats, run: seq<Call>): nat -> bool {
    (k: nat) => k <= |run| ==> SameAfter(floats, run, k)
  }

  lemma {:induction false} SameNext(floats: Floats, run: seq<Call>, n: nat)
    requires CompleteRun(floats, run) && n < |run|
    ensures Carries(Same(floats, run), n)
  {
    if SameAfter(floats, run, n) {
      OneMoreSame(floats, run, n, TablesAfter(floats, run, n));
    }
  }

  lemma {:induction false} OneMoreSame(floats: Floats, run: seq<Call>, n: nat, ts: Tables)
    requires CompleteRun(floats, run) && n < |run| && SameAfter(floats, run, n) && ts == TablesAfter(floats, run, n)
    ensures SameAfter(floats, run, n + 1)
  {
    assert CompleteIn(LiteralAfter(floats, run, n), run[n].stmt);
    SameAnswer(ts, floats, run[n].stmt, run[n].txid);
    AnswerKeepsOrder(ts, floats, run[n].stmt, run[n].txid);
  }

  lemma {:induction false} LiteralRun(floats: Floats, run: seq<Call>, n: nat)
    requires CompleteRun(floats, run) && n <= |run|
    ensures SameAfter(floats, run, n)
  {
    forall k: nat | k < |run| ensures Carries(Same(floats, run), k) {
      SameNext(floats, run, k);
    }
    assert Same(floats, run)(0);
    CountUp(Same(floats, run), n);
  }

  /** The user's theorem: in every run from an empty world whose INSERTs are complete, every statement,
      executed on blocks, answers as it would over tables of the literals that were inserted. */
  lemma {:induction false} RunShowsLiterals(json: Json, floats: Floats, run: seq<Call>, n: nat)
    requires Runnable(json, floats, run) && CompleteRun(floats, run) && n < |run|
    ensures Exec(StoreAfter(json, floats, run, n), json, floats, run[n].stmt, run[n].txid).0
            == LiteralAnswer(LiteralAfter(floats, run, n), floats, run[n].stmt, run[n].txid).0
  {
    RunRefines(json, floats, run, n);
    LiteralRun(floats, run, n);
    assert CompleteIn(LiteralAfter(floats, run, n), run[n].stmt);
    SameAnswer(TablesAfter(floats, run, n), floats, run[n].stmt, run[n].txid);
  }
}
