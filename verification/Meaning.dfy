/** What statements mean: a relation between an answer, the tables before and the tables after, that uses
    none of the functions by which the engine or its specification executes them. */
module Meaning {
  import opened GoText
  import opened World
  import opened Codec
  import opened Signs
  import opened LogEntry
  import opened Layout
  import opened Store
  import opened Query
  import opened Refine
  import opened RefineDelete
  import opened Catalog
  import opened Engine
  import opened Literals
  import opened Comparisons

  // ----- lists of places -----

  /** The places below n that p holds of, in increasing order. */
  ghost predicate Lists(idx: seq<nat>, n: nat, p: nat -> bool) {
    && (forall i, j | 0 <= i < j < |idx| :: idx[i] < idx[j])
    && (forall i | 0 <= i < |idx| :: idx[i] < n && p(idx[i]))
    && (forall r: nat | r < n && p(r) :: r in idx)
  }

  lemma {:induction false} ListsNext(idx: seq<nat>, k: nat, n: nat, p: nat -> bool)
    requires Lists(idx, k, p) && n == k + 1
    ensures p(k) ==> Lists(idx + [k], n, p)
    ensures !p(k) ==> Lists(idx, n, p)
  {
    if p(k) {
      assert (idx + [k])[|idx|] == k;
      forall r: nat | r < n && p(r) ensures r in idx + [k] {
      }
    }
  }

  // ----- column types -----

  /** The type a column gets for the name written in SQL. */
  predicate IsTypeOf(sql: string, typ: ColType) {
    if sql == "int4" || sql == "integer" || sql == "INT" then typ == INT
    else if sql == "int8" || sql == "bigint" || sql == "BIGINT" then typ == BIGINT
    else if sql == "text" || sql == "varchar" || sql == "bpchar" || sql == "TEXT" then typ == TEXT
    else if sql == "bool" || sql == "boolean" || sql == "BOOLEAN" then typ == BOOLEAN
    else if sql == "float4" || sql == "float8" || sql == "real" || sql == "double precision" then typ == OTHER("FLOAT")
    else typ == OTHER(sql)
  }

  /** How a result names a type. */
  predicate IsWordFor(typ: ColType, word: string) {
    && (typ == INT ==> word == "INT") && (typ == BIGINT ==> word == "BIGINT")
    && (typ == TEXT ==> word == "TEXT") && (typ == BOOLEAN ==> word == "BOOLEAN")
    && (typ.OTHER? ==> word == typ.name)
  }

  lemma {:induction false} TypesAreMeant(sql: string)
    ensures IsTypeOf(sql, NormalizeType(sql))
    ensures IsWordFor(NormalizeType(sql), TypeName(NormalizeType(sql)))
  {
  }

  /** The columns CREATE TABLE makes, one for one. */
  ghost predicate ColumnsMean(specs: seq<ColumnSpec>, cols: seq<Column>) {
    |cols| == |specs|
    && forall k | 0 <= k < |specs| ::
         cols[k].name == specs[k].name && cols[k].ordinal == k && IsTypeOf(specs[k].typ, cols[k].typ)
  }

  lemma {:induction false} ColumnsAreMeant(specs: seq<ColumnSpec>)
    ensures ColumnsMean(specs, Columns(specs))
  {
    forall k | 0 <= k < |specs| ensures IsTypeOf(specs[k].typ, Columns(specs)[k].typ) {
      TypesAreMeant(specs[k].typ);
    }
  }

  // ----- values -----

  /** What a row holds under an ordinal. */
  function Under(row: Row, ordinal: int): Value {
    if ordinal in row.cols then row.cols[ordinal] else Null
  }

  predicate IsFirstNamed(cols: seq<Column>, name: string, k: nat) {
    k < |cols| && cols[k].name == name && forall i | 0 <= i < k :: cols[i].name != name
  }

  /** Column k is the last of the first n with this name. */
  predicate IsLastOf(cols: seq<Column>, n: nat, name: string, k: nat)
    requires n <= |cols|
  {
    k < n && cols[k].name == name && forall i | k < i < n :: cols[i].name != name
  }

  predicate IsLastNamed(cols: seq<Column>, name: string, k: nat) {
    IsLastOf(cols, |cols|, name, k)
  }

  // ----- WHERE -----

  /** The condition names a column, and holds of the value under it. */
  ghost predicate Meets(row: Row, cols: seq<Column>, cond: Condition, floats: Floats) {
    exists k: nat ::
      IsLastNamed(cols, cond.column, k) && Related(Under(row, cols[k].ordinal), cond.value, cond.op, floats)
  }

  ghost predicate MeetsAll(row: Row, cols: seq<Column>, conds: seq<Condition>, floats: Floats) {
    forall i | 0 <= i < |conds| :: Meets(row, cols, conds[i], floats)
  }

  lemma {:induction false} MapKnowsLast(cols: seq<Column>, n: nat, name: string) returns (last: nat)
    requires n <= |cols|
    ensures name in ColumnMap(cols, n) ==> IsLastOf(cols, n, name, last)
    ensures forall k: nat | IsLastOf(cols, n, name, k) ::
              name in ColumnMap(cols, n) && ColumnMap(cols, n)[name] == cols[k].ordinal
  {
    last := 0;
    if n > 0 {
      var m := n - 1;
      last := MapKnowsLast(cols, m, name);
      if cols[m].name == name {
        last := m;
      } else {
        assert forall k: nat | IsLastOf(cols, n, name, k) :: IsLastOf(cols, m, name, k);
      }
    }
  }

  lemma {:induction false} OneLast(cols: seq<Column>, name: string, i: nat, k: nat)
    requires IsLastNamed(cols, name, i) && IsLastNamed(cols, name, k)
    ensures i == k
  {
  }

  lemma {:induction false} ConditionIsMeant(row: Row, cols: seq<Column>, cond: Condition, floats: Floats)
    ensures Query.Holds(row, cond, ColumnMap(cols, |cols|), floats) <==> Meets(row, cols, cond, floats)
  {
    var last := MapKnowsLast(cols, |cols|, cond.column);
    if cond.column in ColumnMap(cols, |cols|) {
      assert IsLastNamed(cols, cond.column, last);
      ComparisonIsMeant(Under(row, cols[last].ordinal), cond.value, cond.op, floats);
      if Meets(row, cols, cond, floats) {
        var k: nat :| IsLastNamed(cols, cond.column, k)
                      && Related(Under(row, cols[k].ordinal), cond.value, cond.op, floats);
        OneLast(cols, cond.column, k, last);
      }
    }
  }

  /** A row is kept if and only if every condition names a column and holds of the value under it. */
  lemma {:induction false} WhereIsMeant(row: Row, cols: seq<Column>, conds: seq<Condition>, floats: Floats)
    ensures Keep(cols, conds, floats)(row) <==> MeetsAll(row, cols, conds, floats)
  {
    var m := ColumnMap(cols, |cols|);
    forall i | 0 <= i < |conds| ensures Query.Holds(row, conds[i], m, floats) <==> Meets(row, cols, conds[i], floats) {
      ConditionIsMeant(row, cols, conds[i], floats);
    }
  }

  // ----- visibility -----

  /** A transaction sees a version created at or before it and not deleted at or before it. */
  predicate Sees(txid: int, row: Row) {
    row.xmin <= txid && (row.xmax == None || row.xmax.value > txid)
  }

  /** The versions a statement acts on, by their places. */
  ghost function Acted(t: Table, where: seq<Condition>, floats: Floats, txid: int): nat -> bool {
    (r: nat) => r < |t.rows| && Sees(txid, t.rows[r]) && MeetsAll(t.rows[r], t.columns, where, floats)
  }

  /** The rows at these places. */
  ghost predicate AreAt(s: seq<Row>, rows: seq<Row>, idx: seq<nat>) {
    |s| == |idx| && forall i | 0 <= i < |idx| :: idx[i] < |rows| && s[i] == rows[idx[i]]
  }

  ghost predicate ListedTo(t: Table, where: seq<Condition>, floats: Floats, txid: int, n: nat, idx: seq<nat>)
    requires n <= |t.rows|
  {
    && Lists(idx, n, Acted(t, where, floats, txid))
    && AreAt(Selected(t.rows[..n], Keep(t.columns, where, floats), txid), t.rows, idx)
  }

  lemma {:induction false} PlacesNext(rows: seq<Row>, p: nat -> bool, k: nat, n: nat, s: seq<Row>, idx: seq<nat>,
                                      s': seq<Row>)
    returns (idx': seq<nat>)
    requires n == k + 1 && n <= |rows| && Lists(idx, k, p) && AreAt(s, rows, idx)
    requires s' == if p(k) then s + [rows[k]] else s
    ensures Lists(idx', n, p) && AreAt(s', rows, idx')
  {
    ListsNext(idx, k, n, p);
    idx' := idx;
    if p(k) {
      idx' := idx + [k];
      OneMorePlace(s, rows, idx, k);
    }
  }

  lemma {:induction false} OneMorePlace(s: seq<Row>, rows: seq<Row>, idx: seq<nat>, k: nat)
    requires AreAt(s, rows, idx) && k < |rows|
    ensures AreAt(s + [rows[k]], rows, idx + [k])
  {
  }

  lemma {:induction false} ListedNext(t: Table, where: seq<Condition>, floats: Floats, txid: int, k: nat, n: nat,
                                      idx: seq<nat>)
    returns (idx': seq<nat>)
    requires n == k + 1 && n <= |t.rows| && ListedTo(t, where, floats, txid, k, idx)
    ensures ListedTo(t, where, floats, txid, n, idx')
  {
    var keep := Keep(t.columns, where, floats);
    ActedIsKept(t, where, floats, txid, k);
    SelectedStep(t.rows, keep, txid, k);
    idx' := PlacesNext(t.rows, Acted(t, where, floats, txid), k, n, Selected(t.rows[..k], keep, txid), idx,
                       Selected(t.rows[..n], keep, txid));
  }

  lemma {:induction false} ActedIsKept(t: Table, where: seq<Condition>, floats: Floats, txid: int, k: nat)
    requires k < |t.rows|
    ensures Acted(t, where, floats, txid)(k)
            <==> IsVisible(t.rows[k], txid) && Keep(t.columns, where, floats)(t.rows[k])
  {
    WhereIsMeant(t.rows[k], t.columns, where, floats);
  }

  /** Selection is the versions acted on, each once and in order. */
  lemma {:induction false} SelectedAreListed(t: Table, where: seq<Condition>, floats: Floats, txid: int, n: nat)
    returns (idx: seq<nat>)
    requires n <= |t.rows|
    ensures ListedTo(t, where, floats, txid, n, idx)
  {
    idx := [];
    if n > 0 {
      idx := SelectedAreListed(t, where, floats, txid, n - 1);
      idx := ListedNext(t, where, floats, txid, n - 1, n, idx);
    }
  }

  // ----- SELECT -----

  ghost function Known(names: seq<string>, cols: seq<Column>): nat -> bool {
    (p: nat) => p < |names| && exists k: nat :: IsFirstNamed(cols, names[p], k)
  }

  /** The columns of a result, by their places in the table: for `*` all of them, for a list of names the
      first column of each name that is one, in the order asked. */
  ghost predicate ColumnsShown(requested: Option<seq<string>>, cols: seq<Column>, at: seq<nat>) {
    match requested
    case None => |at| == |cols| && forall j | 0 <= j < |at| :: at[j] == j
    case Some(names) => exists known: seq<nat> :: NamesShown(names, cols, known, at)
  }

  ghost predicate NamesShown(names: seq<string>, cols: seq<Column>, known: seq<nat>, at: seq<nat>) {
    && Lists(known, |names|, Known(names, cols)) && |at| == |known|
    && forall j | 0 <= j < |at| :: known[j] < |names| && IsFirstNamed(cols, names[known[j]], at[j])
  }

  /** The rows of a result: place by place the values under those columns. */
  ghost predicate ValuesShown(rows: seq<Row>, idx: seq<nat>, cols: seq<Column>, at: seq<nat>, shown: seq<seq<Value>>) {
    |shown| == |idx|
    && forall i | 0 <= i < |idx| :: idx[i] < |rows| && RowShown(rows[idx[i]], cols, at, shown[i])
  }

  ghost predicate RowShown(row: Row, cols: seq<Column>, at: seq<nat>, shown: seq<Value>) {
    |shown| == |at| && forall j | 0 <= j < |at| :: at[j] < |cols| && shown[j] == Under(row, cols[at[j]].ordinal)
  }

  ghost predicate HeadShown(cols: seq<Column>, at: seq<nat>, names: seq<string>, types: seq<string>) {
    |names| == |types| == |at|
    && forall j | 0 <= j < |at| ::
         at[j] < |cols| && names[j] == cols[at[j]].name && IsWordFor(cols[at[j]].typ, types[j])
  }

  /** The answer shows these columns of these versions. */
  ghost predicate Shows(o: Outcome, t: Table, at: seq<nat>, idx: seq<nat>) {
    && o.Done? && HeadShown(t.columns, at, o.result.columns, o.result.types)
    && ValuesShown(t.rows, idx, t.columns, at, o.result.rows) && o.result.tag == "SELECT " + Itoa(|idx|)
  }

  /** SELECT answers with the columns asked for, of exactly the versions its transaction sees and WHERE
      holds of, in the order of their insertion. */
  ghost predicate SelectMeans(o: Outcome, t: Table, requested: Option<seq<string>>, where: seq<Condition>,
                              floats: Floats, txid: int)
  {
    exists at: seq<nat>, idx: seq<nat> ::
      && ColumnsShown(requested, t.columns, at)
      && Lists(idx, |t.rows|, Acted(t, where, floats, txid)) && Shows(o, t, at, idx)
  }

  /** The output columns are those at these places. */
  ghost predicate ColumnsAt(out: seq<Column>, cols: seq<Column>, at: seq<nat>) {
    |out| == |at| && forall j | 0 <= j < |at| :: at[j] < |cols| && out[j] == cols[at[j]]
  }

  ghost predicate ResolvedTo(names: seq<string>, cols: seq<Column>, n: nat, known: seq<nat>, at: seq<nat>)
    requires n <= |names|
  {
    && Lists(known, n, Known(names, cols)) && |at| == |known|
    && (forall j | 0 <= j < |at| :: known[j] < |names| && IsFirstNamed(cols, names[known[j]], at[j]))
    && ColumnsAt(Resolve(names, cols, n), cols, at)
  }

  lemma {:induction false} ResolvedNext(names: seq<string>, cols: seq<Column>, k: nat, n: nat, known: seq<nat>,
                                        at: seq<nat>)
    returns (known': seq<nat>, at': seq<nat>)
    requires n == k + 1 && n <= |names| && ResolvedTo(names, cols, k, known, at)
    ensures ResolvedTo(names, cols, n, known', at')
  {
    var i := FirstNamed(names[k], cols, 0);
    ListsNext(known, k, n, Known(names, cols));
    known', at' := known, at;
    if i < |cols| {
      assert IsFirstNamed(cols, names[k], i);
      known', at' := known + [k], at + [i];
    } else {
      assert !Known(names, cols)(k);
    }
  }

  lemma {:induction false} NamesResolve(names: seq<string>, cols: seq<Column>, n: nat)
    returns (known: seq<nat>, at: seq<nat>)
    requires n <= |names|
    ensures ResolvedTo(names, cols, n, known, at)
  {
    known, at := [], [];
    if n > 0 {
      known, at := NamesResolve(names, cols, n - 1);
      known, at := ResolvedNext(names, cols, n - 1, n, known, at);
    }
  }

  lemma {:induction false} OutputIsShown(requested: Option<seq<string>>, cols: seq<Column>) returns (at: seq<nat>)
    ensures ColumnsShown(requested, cols, at) && ColumnsAt(OutputColumns(requested, cols), cols, at)
  {
    if requested.None? {
      at := seq(|cols|, j => j);
    } else {
      var known;
      known, at := NamesResolve(requested.value, cols, |requested.value|);
      assert NamesShown(requested.value, cols, known, at);
    }
  }

  lemma {:induction false} ProjectionIsShown(row: Row, out: seq<Column>, cols: seq<Column>, at: seq<nat>)
    requires ColumnsAt(out, cols, at)
    ensures RowShown(row, cols, at, Project(row, out))
  {
  }

  lemma {:induction false} HeadIsShown(out: seq<Column>, cols: seq<Column>, at: seq<nat>)
    requires ColumnsAt(out, cols, at)
    ensures HeadShown(cols, at, Names(out), TypeNames(out))
  {
  }

  lemma {:induction false} RowsAreShown(t: Table, s: seq<Row>, idx: seq<nat>, out: seq<Column>, at: seq<nat>)
    requires AreAt(s, t.rows, idx) && ColumnsAt(out, t.columns, at)
    ensures ValuesShown(t.rows, idx, t.columns, at, ProjectAll(s, out))
  {
    forall i | 0 <= i < |idx| ensures RowShown(t.rows[idx[i]], t.columns, at, ProjectAll(s, out)[i]) {
      ProjectionIsShown(s[i], out, t.columns, at);
    }
  }

  lemma {:induction false} SelectIsMeant(t: Table, requested: Option<seq<string>>, where: seq<Condition>,
                                         floats: Floats, txid: int)
    ensures SelectMeans(Done(SelectResult(OutputColumns(requested, t.columns),
                                          Selected(t.rows, Keep(t.columns, where, floats), txid))),
                        t, requested, where, floats, txid)
  {
    var out, s := OutputColumns(requested, t.columns), Selected(t.rows, Keep(t.columns, where, floats), txid);
    var at := OutputIsShown(requested, t.columns);
    var idx := SelectedAreListed(t, where, floats, txid, |t.rows|);
    assert t.rows[..|t.rows|] == t.rows;
    HeadIsShown(out, t.columns, at);
    RowsAreShown(t, s, idx, out, at);
    assert Shows(Done(SelectResult(out, s)), t, at, idx);
  }

  // ----- INSERT -----

  /** Value j of an INSERT is for this name: the j-th listed, or without a list the j-th column's. */
  predicate IsGiven(cols: seq<Column>, names: seq<string>, values: seq<Value>, name: string, j: nat) {
    j < |values| && if names == [] then j < |cols| && cols[j].name == name else j < |names| && names[j] == name
  }

  /** The value a name is given: the last one, if several. */
  ghost predicate LastGiven(cols: seq<Column>, names: seq<string>, values: seq<Value>, name: string, v: Value) {
    exists j: nat :: IsGiven(cols, names, values, name, j) && values[j] == v && NoneBehind(cols, names, values, name, j)
  }

  ghost predicate NoneBehind(cols: seq<Column>, names: seq<string>, values: seq<Value>, name: string, j: nat) {
    forall i: nat | IsGiven(cols, names, values, name, i) :: i <= j
  }

  ghost predicate NotGiven(cols: seq<Column>, names: seq<string>, values: seq<Value>, name: string) {
    forall j: nat :: !IsGiven(cols, names, values, name, j)
  }

  /** The value column k gets: under its name, or under "c" and its ordinal, or none. */
  ghost predicate Gets(cols: seq<Column>, names: seq<string>, values: seq<Value>, k: nat, v: Value)
    requires k < |cols|
  {
    var name, key := cols[k].name, "c" + Itoa(cols[k].ordinal);
    || LastGiven(cols, names, values, name, v)
    || (NotGiven(cols, names, values, name) && LastGiven(cols, names, values, key, v))
    || (NotGiven(cols, names, values, name) && NotGiven(cols, names, values, key) && v == Null)
  }

  /** A text as a sign keeps it. */
  function Shortened(s: string): string {
    if |s| <= 64 then s else s[..61] + "..."
  }

  /** What a column shows that was given this value. A value of another type is converted; texts with NULs
      are described by TextThroughSign. */
  ghost predicate IsStoredAs(typ: ColType, v: Value, shown: Value) {
    match typ
    case INT =>
      && shown.Int32?
      && if v.Int64? then (shown.i - v.l) % 0x1_0000_0000 == 0 else shown.i == if v.Int32? then v.i else 0
    case BIGINT => shown == Int64(if v.Int64? then v.l else if v.Int32? then v.i else 0)
    case BOOLEAN => shown == Bool(v == Bool(true) || v == Text("true") || v == Text("1") || (v.Int64? && v.l != 0))
    case TEXT =>
      var s := if v.Text? || v.Int64? || v.Bool? then Printed(v) else "";
      Free(s, NUL) ==> shown == Text(Shortened(s))
    case OTHER(_) => shown == Null
  }

  /** INSERT appends one version, created by its transaction, with each column's value. */
  ghost predicate InsertMeans(t: Table, t': Table, names: seq<string>, values: seq<Value>, txid: int) {
    var n := |t.rows|;
    && t'.columns == t.columns && |t'.rows| == n + 1 && t'.rows[..n] == t.rows
    && t'.rows[n].xmin == txid && t'.rows[n].xmax == None
    && forall k: nat | k < |t.columns| :: ColumnFilled(t.columns, names, values, k, t'.rows[n])
  }

  ghost predicate ColumnFilled(cols: seq<Column>, names: seq<string>, values: seq<Value>, k: nat, row: Row)
    requires k < |cols|
  {
    exists v :: Gets(cols, names, values, k, v) && IsStoredAs(cols[k].typ, v, Under(row, cols[k].ordinal))
  }

  lemma {:induction false} AssignKnowsLast(names: seq<string>, values: seq<Value>, n: nat, name: string)
    returns (j: nat)
    requires n <= |names|
    ensures name in Assign(names, values, n) ==>
              && j < n && j < |values| && names[j] == name && Assign(names, values, n)[name] == values[j]
              && forall i | j < i < n && i < |values| :: names[i] != name
    ensures name !in Assign(names, values, n) ==> forall i | 0 <= i < n && i < |values| :: names[i] != name
  {
    j := 0;
    if n > 0 {
      var m := n - 1;
      j := AssignKnowsLast(names, values, m, name);
      if m < |values| && names[m] == name {
        j := m;
      }
    }
  }

  lemma {:induction false} InsertKnowsLast(cols: seq<Column>, names: seq<string>, values: seq<Value>, name: string)
    ensures var m := InsertValues(cols, names, values);
            if name in m then LastGiven(cols, names, values, name, m[name]) else NotGiven(cols, names, values, name)
  {
    var given := if names == [] then Names(cols) else names;
    var j := AssignKnowsLast(given, values, |given|, name);
    forall i: nat ensures IsGiven(cols, names, values, name, i) <==> i < |given| && i < |values| && given[i] == name {
    }
    if name in InsertValues(cols, names, values) {
      forall i: nat | IsGiven(cols, names, values, name, i) ensures i <= j {
        assert given[i] == name;
      }
      assert IsGiven(cols, names, values, name, j) && NoneBehind(cols, names, values, name, j);
    }
  }

  lemma {:induction false} ValueIsMeant(cols: seq<Column>, names: seq<string>, values: seq<Value>, k: nat)
    requires k < |cols|
    ensures Gets(cols, names, values, k, GetColumnValue(InsertValues(cols, names, values), cols[k]))
  {
    InsertKnowsLast(cols, names, values, cols[k].name);
    InsertKnowsLast(cols, names, values, "c" + Itoa(cols[k].ordinal));
  }

  lemma {:induction false} StorageIsMeant(typ: ColType, v: Value)
    ensures IsStoredAs(typ, v, StoredValue(typ, v))
  {
    if typ == TEXT {
      TextThroughSign(ToText(v));
    }
  }

  lemma {:induction false} InsertIsMeant(t: Table, names: seq<string>, values: seq<Value>, txid: int)
    requires InOrdinalOrder(t.columns)
    ensures InsertMeans(t, Inserted(t, InsertValues(t.columns, names, values), txid), names, values, txid)
  {
    var m := InsertValues(t.columns, names, values);
    var row := Row(txid, None, StoredColumns(t.columns, m));
    forall k: nat | k < |t.columns| ensures ColumnFilled(t.columns, names, values, k, row) {
      ColumnIsFilled(t.columns, names, values, k, row);
    }
  }

  lemma {:induction false} ColumnIsFilled(cols: seq<Column>, names: seq<string>, values: seq<Value>, k: nat, row: Row)
    requires InOrdinalOrder(cols) && k < |cols| && row.cols == StoredColumns(cols, InsertValues(cols, names, values))
    ensures ColumnFilled(cols, names, values, k, row)
  {
    var m := InsertValues(cols, names, values);
    var v := GetColumnValue(m, cols[k]);
    ValueIsMeant(cols, names, values, k);
    StorageIsMeant(cols[k].typ, v);
    CollectedUnderOrdinal(cols, StoredCells(cols, m), |cols|, k);
  }

  // ----- DELETE -----

  /** DELETE marks exactly the versions its transaction sees and WHERE holds of, and counts them. */
  ghost predicate DeleteMeans(o: Outcome, t: Table, t': Table, where: seq<Condition>, floats: Floats, txid: int) {
    && t'.columns == t.columns && |t'.rows| == |t.rows|
    && (forall r: nat | r < |t.rows| ::
          t'.rows[r] == if Acted(t, where, floats, txid)(r) then t.rows[r].(xmax := Some(txid)) else t.rows[r])
    && exists idx: seq<nat> ::
         Lists(idx, |t.rows|, Acted(t, where, floats, txid)) && o == Done(Result([], [], [], "DELETE " + Itoa(|idx|)))
  }

  lemma {:induction false} DeleteIsMeant(t: Table, where: seq<Condition>, floats: Floats, txid: int)
    ensures var keep := Keep(t.columns, where, floats);
            DeleteMeans(Tagged("DELETE " + Itoa(|Selected(t.rows, keep, txid)|)), t, DeletedFrom(t, keep, txid), where,
                        floats, txid)
  {
    var idx := SelectedAreListed(t, where, floats, txid, |t.rows|);
    assert t.rows[..|t.rows|] == t.rows;
    forall r: nat | r < |t.rows|
      ensures Acted(t, where, floats, txid)(r)
              <==> IsVisible(t.rows[r], txid) && Keep(t.columns, where, floats)(t.rows[r])
    {
      ActedIsKept(t, where, floats, txid, r);
    }
  }

  // ----- any statement -----

  function Acknowledged(tag: string): Outcome {
    Done(Result([], [], [], tag))
  }

  /** Only this table changed. */
  ghost predicate OnlyTable(ts: Tables, ts': Tables, table: string) {
    table in ts'.byName && ts' == ts.(byName := ts.byName[table := ts'.byName[table]])
  }

  /** The meaning of a statement: its answer, and the tables it makes of those before. */
  ghost predicate Means(o: Outcome, ts: Tables, ts': Tables, floats: Floats, stmt: Stmt, txid: int) {
    if stmt.Unsupported? || (stmt.CreateStmt? <==> stmt.table in ts.byName) then o == Failed && ts' == ts
    else
      match stmt
      case CreateStmt(table, specs) =>
        && o == Acknowledged("CREATE TABLE") && OnlyTable(ts.(order := ts.order + [table]), ts', table)
        && ts'.byName[table].rows == [] && ColumnsMean(specs, ts'.byName[table].columns)
      case InsertStmt(table, names, values) =>
        && o == Acknowledged("INSERT 0 1") && OnlyTable(ts, ts', table)
        && InsertMeans(ts.byName[table], ts'.byName[table], names, values, txid)
      case SelectStmt(table, columns, where) =>
        ts' == ts && SelectMeans(o, ts.byName[table], columns, where, floats, txid)
      case DeleteStmt(table, where) =>
        && OnlyTable(ts, ts', table)
        && DeleteMeans(o, ts.byName[table], ts'.byName[table], where, floats, txid)
  }

  lemma {:induction false} CreateIsMeant(ts: Tables, table: string, specs: seq<ColumnSpec>, floats: Floats, txid: int)
    requires table !in ts.byName
    ensures Means(Tagged("CREATE TABLE"), ts, Created(ts, table, Columns(specs)), floats, CreateStmt(table, specs),
                  txid)
  {
    ColumnsAreMeant(specs);
  }

  /** The specification on lists gives every statement its meaning. */
  lemma {:induction false} AnswerIsMeant(ts: Tables, floats: Floats, stmt: Stmt, txid: int)
    requires AllInOrder(ts)
    ensures var (o, ts') := Answer(ts, floats, stmt, txid); Means(o, ts, ts', floats, stmt, txid)
  {
    if !stmt.Unsupported? && stmt.table in ts.byName {
      var t := ts.byName[stmt.table];
      match stmt
      case InsertStmt(_, names, values) => InsertIsMeant(t, names, values, txid);
      case SelectStmt(_, columns, where) => SelectIsMeant(t, columns, where, floats, txid);
      case DeleteStmt(_, where) => DeleteIsMeant(t, where, floats, txid);
      case _ =>
    } else if stmt.CreateStmt? {
      CreateIsMeant(ts, stmt.table, stmt.specs, floats, txid);
    }
  }

  // ----- whole runs -----

  lemma {:induction false} OrderAfter(floats: Floats, run: seq<Call>, n: nat)
    requires n <= |run|
    ensures AllInOrder(TablesAfter(floats, run, n))
  {
    if n > 0 {
      OrderAfter(floats, run, n - 1);
      AnswerKeepsOrder(TablesAfter(floats, run, n - 1), floats, run[n - 1].stmt, run[n - 1].txid);
    }
  }

  /** Statement n of a run, executed on blocks. */
  function AnswerOf(json: Json, floats: Floats, run: seq<Call>, n: nat): Outcome
    requires n < |run|
  {
    Exec(StoreAfter(json, floats, run, n), json, floats, run[n].stmt, run[n].txid).0
  }

  /** Tables that begin empty and go on, statement by statement, as the answers given on blocks mean. */
  ghost predicate IsHistory(json: Json, floats: Floats, run: seq<Call>, history: seq<Tables>) {
    && |history| == |run| + 1 && history[0] == Tables(map[], [])
    && forall n: nat | n < |run| ::
         Means(AnswerOf(json, floats, run, n), history[n], history[n + 1], floats, run[n].stmt, run[n].txid)
  }

  lemma {:induction false} NextIsMeant(json: Json, floats: Floats, run: seq<Call>, n: nat)
    requires Runnable(json, floats, run) && n < |run|
    ensures Means(AnswerOf(json, floats, run, n), TablesAfter(floats, run, n), TablesAfter(floats, run, n + 1), floats,
                  run[n].stmt, run[n].txid)
  {
    RunRefines(json, floats, run, n);
    OrderAfter(floats, run, n);
    AnswerIsMeant(TablesAfter(floats, run, n), floats, run[n].stmt, run[n].txid);
    TablesAtNext(floats, run, n);
  }

  lemma {:induction false} TablesAtNext(floats: Floats, run: seq<Call>, n: nat)
    requires n < |run|
    ensures TablesAfter(floats, run, n + 1)
            == Answer(TablesAfter(floats, run, n), floats, run[n].stmt, run[n].txid).1
  {
  }

  function TablesOf(floats: Floats, run: seq<Call>): (history: seq<Tables>)
    ensures |history| == |run| + 1 && forall n | 0 <= n <= |run| :: history[n] == TablesAfter(floats, run, n)
  {
    seq(|run| + 1, n requires 0 <= n <= |run| => TablesAfter(floats, run, n))
  }

  /** Every run from an empty world, executed on blocks, has a history: each answer means what its statement
      asks of the tables so far. */
  lemma {:induction false} RunIsMeant(json: Json, floats: Floats, run: seq<Call>) returns (history: seq<Tables>)
    requires Runnable(json, floats, run)
    ensures IsHistory(json, floats, run, history)
  {
    history := TablesOf(floats, run);
    BeginsEmpty(floats, run);
    forall n: nat | n < |run|
      ensures Means(AnswerOf(json, floats, run, n), history[n], history[n + 1], floats, run[n].stmt, run[n].txid)
    {
      NextIsMeant(json, floats, run, n);
    }
  }

  lemma {:induction false} BeginsEmpty(floats: Floats, run: seq<Call>)
    ensures TablesAfter(floats, run, 0) == Tables(map[], [])
  {
  }

  /** With complete INSERTs it is the history of the literals that were inserted. */
  lemma {:induction false} LiteralsAreMeant(json: Json, floats: Floats, run: seq<Call>, n: nat)
    requires Runnable(json, floats, run) && CompleteRun(floats, run) && n < |run|
    ensures Means(AnswerOf(json, floats, run, n), LiteralAfter(floats, run, n), LiteralAfter(floats, run, n + 1),
                  floats, run[n].stmt, run[n].txid)
  {
    NextIsMeant(json, floats, run, n);
    LiteralRun(floats, run, n);
    LiteralRun(floats, run, n + 1);
  }

  // ----- what was inserted is selected -----

  predicate Deletes(stmt: Stmt, table: string) {
    stmt.DeleteStmt? && stmt.table == table
  }

  ghost predicate TableStays(ts: Tables, ts': Tables, table: string)
    requires table in ts.byName
  {
    && table in ts'.byName && ts'.byName[table].columns == ts.byName[table].columns
    && ts.byName[table].rows <= ts'.byName[table].rows
  }

  /** Nothing but a DELETE from it touches a table's versions. */
  lemma {:induction false} StatementStays(o: Outcome, ts: Tables, ts': Tables, floats: Floats, stmt: Stmt, txid: int,
                                          table: string)
    requires Means(o, ts, ts', floats, stmt, txid) && table in ts.byName && !Deletes(stmt, table)
    ensures TableStays(ts, ts', table)
  {
  }

  lemma {:induction false} HistoryStays(json: Json, floats: Floats, run: seq<Call>, history: seq<Tables>, m: nat,
                                        n: nat, table: string)
    requires IsHistory(json, floats, run, history) && m <= n <= |run| && table in history[m].byName
    requires forall k | m <= k < n :: !Deletes(run[k].stmt, table)
    ensures TableStays(history[m], history[n], table)
    decreases n
  {
    if m < n {
      var k := n - 1;
      HistoryStays(json, floats, run, history, m, k, table);
      StatementStays(AnswerOf(json, floats, run, k), history[k], history[k + 1], floats, run[k].stmt, run[k].txid,
                     table);
    }
  }

  /** The version is in the table, and the answer shows it if and only if WHERE holds of it. */
  ghost predicate IsSelected(o: Outcome, t: Table, requested: Option<seq<string>>, where: seq<Condition>,
                             floats: Floats, at: seq<nat>, idx: seq<nat>, ri: nat)
  {
    && ColumnsShown(requested, t.columns, at) && Shows(o, t, at, idx) && ri < |t.rows|
    && (ri in idx <==> MeetsAll(t.rows[ri], t.columns, where, floats))
  }

  lemma {:induction false} SelectedIfMet(o: Outcome, t: Table, requested: Option<seq<string>>, where: seq<Condition>,
                                         floats: Floats, txid: int, ri: nat)
    returns (at: seq<nat>, idx: seq<nat>)
    requires SelectMeans(o, t, requested, where, floats, txid) && ri < |t.rows| && Sees(txid, t.rows[ri])
    ensures IsSelected(o, t, requested, where, floats, at, idx, ri)
  {
    at, idx :| ColumnsShown(requested, t.columns, at) && Lists(idx, |t.rows|, Acted(t, where, floats, txid))
               && Shows(o, t, at, idx);
    assert Acted(t, where, floats, txid)(ri) <==> MeetsAll(t.rows[ri], t.columns, where, floats);
  }

  /** The version an INSERT appended. */
  ghost predicate IsInserted(t: Table, ri: nat, names: seq<string>, values: seq<Value>, txid: int) {
    && ri < |t.rows| && t.rows[ri].xmin == txid && t.rows[ri].xmax == None
    && forall k: nat | k < |t.columns| :: ColumnFilled(t.columns, names, values, k, t.rows[ri])
  }

  /** In any run: an acknowledged INSERT by one transaction, then a SELECT by the same or a later one, with
      no DELETE from the table between. The SELECT shows the version inserted, each column holding the value
      it was given, if and only if WHERE holds of it. */
  lemma {:induction false} InsertIsSelected(json: Json, floats: Floats, run: seq<Call>, i: nat, n: nat)
    returns (t: Table, at: seq<nat>, idx: seq<nat>, ri: nat)
    requires Runnable(json, floats, run) && i < n < |run| && run[i].stmt.InsertStmt? && run[n].stmt.SelectStmt?
    requires run[n].stmt.table == run[i].stmt.table && AnswerOf(json, floats, run, i) != Failed
    requires run[i].txid <= run[n].txid && forall k | i < k < n :: !Deletes(run[k].stmt, run[i].stmt.table)
    ensures IsInserted(t, ri, run[i].stmt.names, run[i].stmt.values, run[i].txid)
    ensures IsSelected(AnswerOf(json, floats, run, n), t, run[n].stmt.columns, run[n].stmt.where, floats, at, idx, ri)
  {
    var history := RunIsMeant(json, floats, run);
    t, ri := InsertStays(json, floats, run, history, i, n);
    at, idx := SelectFinds(json, floats, run, history, n, ri);
  }

  lemma {:induction false} InsertLeaves(o: Outcome, ts: Tables, ts': Tables, floats: Floats, stmt: Stmt, txid: int)
    returns (ri: nat)
    requires Means(o, ts, ts', floats, stmt, txid) && stmt.InsertStmt? && o != Failed
    ensures stmt.table in ts'.byName && IsInserted(ts'.byName[stmt.table], ri, stmt.names, stmt.values, txid)
  {
    ri := |ts.byName[stmt.table].rows|;
  }

  lemma {:induction false} StaysInserted(t: Table, t': Table, ri: nat, names: seq<string>, values: seq<Value>,
                                        txid: int)
    requires IsInserted(t, ri, names, values, txid) && t'.columns == t.columns && t.rows <= t'.rows
    ensures IsInserted(t', ri, names, values, txid)
  {
    assert t'.rows[ri] == t.rows[ri];
  }

  lemma {:induction false} InsertStays(json: Json, floats: Floats, run: seq<Call>, history: seq<Tables>, i: nat, n: nat)
    returns (t: Table, ri: nat)
    requires IsHistory(json, floats, run, history) && i < n < |run|
    requires run[i].stmt.InsertStmt? && AnswerOf(json, floats, run, i) != Failed
    requires forall k | i < k < n :: !Deletes(run[k].stmt, run[i].stmt.table)
    ensures run[i].stmt.table in history[n].byName && t == history[n].byName[run[i].stmt.table]
    ensures IsInserted(t, ri, run[i].stmt.names, run[i].stmt.values, run[i].txid)
  {
    var stmt, after := run[i].stmt, history[i + 1];
    ri := InsertLeaves(AnswerOf(json, floats, run, i), history[i], after, floats, stmt, run[i].txid);
    HistoryStays(json, floats, run, history, i + 1, n, stmt.table);
    t := history[n].byName[stmt.table];
    StaysInserted(after.byName[stmt.table], t, ri, stmt.names, stmt.values, run[i].txid);
  }

  lemma {:induction false} SelectFinds(json: Json, floats: Floats, run: seq<Call>, history: seq<Tables>, n: nat,
                                       ri: nat)
    returns (at: seq<nat>, idx: seq<nat>)
    requires IsHistory(json, floats, run, history) && n < |run| && run[n].stmt.SelectStmt?
    requires run[n].stmt.table in history[n].byName
    requires var t := history[n].byName[run[n].stmt.table]; ri < |t.rows| && Sees(run[n].txid, t.rows[ri])
    ensures IsSelected(AnswerOf(json, floats, run, n), history[n].byName[run[n].stmt.table], run[n].stmt.columns,
                       run[n].stmt.where, floats, at, idx, ri)
  {
    var stmt := run[n].stmt;
    var o := AnswerOf(json, floats, run, n);
    assert Means(o, history[n], history[n + 1], floats, stmt, run[n].txid);
    at, idx := SelectedIfMet(o, history[n].byName[stmt.table], stmt.columns, stmt.where, floats, run[n].txid, ri);
  }

  /** Column k's value as a user writes it: given once, of the column's type. */
  ghost predicate GivenOnce(t: Table, names: seq<string>, values: seq<Value>, k: nat, j: nat) {
    && k < |t.columns| && IsGiven(t.columns, names, values, t.columns[k].name, j)
    && (forall i: nat | IsGiven(t.columns, names, values, t.columns[k].name, i) :: i == j)
    && match t.columns[k].typ
       case INT => values[j].Int64? && IsInt32(values[j].l)
       case BIGINT => values[j].Int64?
       case BOOLEAN => values[j].Bool?
       case TEXT => values[j].Text? && Free(values[j].s, NUL)
       case OTHER(_) => false
  }

  /** What a user expects to read: the literal; an INT comes back 32 bits wide, a long text shortened. */
  predicate IsLiteral(typ: ColType, v: Value, shown: Value) {
    && (typ == INT ==> v.Int64? && shown.Int32? && shown.i == v.l)
    && (typ == TEXT ==> v.Text? && shown == Text(Shortened(v.s)))
    && (typ != INT && typ != TEXT ==> shown == v)
  }

  lemma {:induction false} OnceIsGot(cols: seq<Column>, names: seq<string>, values: seq<Value>, k: nat, j: nat,
                                     v: Value)
    requires k < |cols| && IsGiven(cols, names, values, cols[k].name, j) && Gets(cols, names, values, k, v)
    requires forall i: nat | IsGiven(cols, names, values, cols[k].name, i) :: i == j
    ensures v == values[j]
  {
  }

  lemma {:induction false} LiteralIsHeld(t: Table, ri: nat, names: seq<string>, values: seq<Value>, txid: int, k: nat,
                                         j: nat)
    requires IsInserted(t, ri, names, values, txid) && GivenOnce(t, names, values, k, j)
    ensures IsLiteral(t.columns[k].typ, values[j], Under(t.rows[ri], t.columns[k].ordinal))
  {
    assert ColumnFilled(t.columns, names, values, k, t.rows[ri]);
    var v :| Gets(t.columns, names, values, k, v)
             && IsStoredAs(t.columns[k].typ, v, Under(t.rows[ri], t.columns[k].ordinal));
    OnceIsGot(t.columns, names, values, k, j, v);
    if t.columns[k].typ == INT {
      SameInt32(Under(t.rows[ri], t.columns[k].ordinal).i, v.l);
    }
  }

  lemma {:induction false} SameInt32(a: int, b: int)
    requires IsInt32(a) && IsInt32(b) && (a - b) % 0x1_0000_0000 == 0
    ensures a == b
  {
  }

  /** What the user of a session sees: without DELETE between, `SELECT ... FROM t` after an INSERT by the same
      or an earlier transaction has a row in which each column asked for shows the literal it was given. */
  lemma {:induction false} LiteralIsSelected(json: Json, floats: Floats, run: seq<Call>, i: nat, n: nat)
    returns (t: Table, at: seq<nat>, r: nat)
    requires Runnable(json, floats, run) && i < n < |run| && run[i].stmt.InsertStmt? && run[n].stmt.SelectStmt?
    requires run[n].stmt.table == run[i].stmt.table && AnswerOf(json, floats, run, i) != Failed
    requires run[i].txid <= run[n].txid && forall k | i < k < n :: !Deletes(run[k].stmt, run[i].stmt.table)
    requires run[n].stmt.where == []
    ensures ColumnsShown(run[n].stmt.columns, t.columns, at)
    ensures var o := AnswerOf(json, floats, run, n);
            && o.Done? && HeadShown(t.columns, at, o.result.columns, o.result.types)
            && r < |o.result.rows| && |o.result.rows[r]| == |at|
            && forall p: nat, j: nat | p < |at| && GivenOnce(t, run[i].stmt.names, run[i].stmt.values, at[p], j) ::
                 IsLiteral(t.columns[at[p]].typ, run[i].stmt.values[j], o.result.rows[r][p])
  {
    var idx, ri;
    t, at, idx, ri := InsertIsSelected(json, floats, run, i, n);
    r :| r < |idx| && idx[r] == ri;
    var o := AnswerOf(json, floats, run, n);
    assert RowShown(t.rows[idx[r]], t.columns, at, o.result.rows[r]);
    forall p: nat, j: nat | p < |at| && GivenOnce(t, run[i].stmt.names, run[i].stmt.values, at[p], j)
      ensures IsLiteral(t.columns[at[p]].typ, run[i].stmt.values[j], o.result.rows[r][p])
    {
      LiteralIsHeld(t, ri, run[i].stmt.names, run[i].stmt.values, run[i].txid, at[p], j);
    }
  }

  // ----- the head of a result -----

  lemma {:induction false} AllListed(idx: seq<nat>, n: nat, p: nat -> bool, k: nat)
    requires Lists(idx, n, p) && k <= n && forall r: nat | r < n :: p(r)
    ensures |idx| >= k && forall i | 0 <= i < k :: idx[i] == i
  {
    if k > 0 {
      AllListed(idx, n, p, k - 1);
      assert p(k - 1);
      var i :| 0 <= i < |idx| && idx[i] == k - 1;
      PlacesClimb(idx, n, p, i);
    }
  }

  lemma {:induction false} PlacesClimb(idx: seq<nat>, n: nat, p: nat -> bool, i: nat)
    requires Lists(idx, n, p) && i < |idx|
    ensures idx[i] >= i
  {
    if i > 0 {
      PlacesClimb(idx, n, p, i - 1);
      assert idx[i - 1] < idx[i];
    }
  }

  lemma {:induction false} ListsAll(idx: seq<nat>, n: nat, p: nat -> bool)
    requires Lists(idx, n, p) && forall r: nat | r < n :: p(r)
    ensures |idx| == n && forall i | 0 <= i < n :: idx[i] == i
  {
    AllListed(idx, n, p, n);
    if idx != [] {
      PlacesClimb(idx, n, p, |idx| - 1);
    }
  }

  /** Names that are all columns are answered one for one and in the order asked. */
  lemma {:induction false} NamesAsAsked(names: seq<string>, cols: seq<Column>, at: seq<nat>)
    requires ColumnsShown(Some(names), cols, at) && forall p: nat | p < |names| :: Known(names, cols)(p)
    ensures |at| == |names| && forall j | 0 <= j < |at| :: IsFirstNamed(cols, names[j], at[j])
  {
    var known: seq<nat> :| NamesShown(names, cols, known, at);
    ListsAll(known, |names|, Known(names, cols));
    forall j | 0 <= j < |at| ensures IsFirstNamed(cols, names[j], at[j]) {
      assert known[j] == j;
    }
  }

  // ----- on blocks -----

  ghost function Seeable(rows: seq<Row>, txid: int): nat -> bool {
    (r: nat) => r < |rows| && Sees(txid, rows[r])
  }

  /** The rows a scan gives, by the places of their slots. */
  ghost predicate ScannedAt(s: seq<Scanned>, meta: Meta, rows: seq<Row>, idx: seq<nat>) {
    |s| == |idx|
    && forall i | 0 <= i < |idx| ::
         idx[i] < |rows| && s[i] == Scanned(rows[idx[i]], Pos(0, meta.yLevel, meta.zStart + idx[i]))
  }

  lemma {:induction false} ScannedNext(s: seq<Scanned>, meta: Meta, rows: seq<Row>, idx: seq<nat>, k: nat)
    requires ScannedAt(s, meta, rows, idx) && k < |rows|
    ensures ScannedAt(s + [Scanned(rows[k], Pos(0, meta.yLevel, meta.zStart + k))], meta, rows, idx + [k])
  {
  }

  lemma {:induction false} ScanNext(w: Blocks, meta: Meta, rows: seq<Row>, txid: int, k: nat, n: nat, idx: seq<nat>)
    returns (idx': seq<nat>)
    requires n == k + 1 && n <= |rows| && Decodes(w, meta, k, rows[k])
    requires Lists(idx, k, Seeable(rows, txid)) && ScannedAt(Scan(w, meta, txid, k), meta, rows, idx)
    ensures Lists(idx', n, Seeable(rows, txid)) && ScannedAt(Scan(w, meta, txid, n), meta, rows, idx')
  {
    ScanSlotOf(w, meta, k, rows[k], txid);
    ListsNext(idx, k, n, Seeable(rows, txid));
    ScannedNext(Scan(w, meta, txid, k), meta, rows, idx, k);
    idx' := if Sees(txid, rows[k]) then idx + [k] else idx;
  }

  /** A scan gives exactly the versions created at or before its transaction and not deleted at or before it,
      each once, from its own slot and in slot order. */
  lemma {:induction false} ScanIsMeant(w: Blocks, meta: Meta, rows: seq<Row>, txid: int, n: nat)
    returns (idx: seq<nat>)
    requires Stored(w, meta, rows) && n <= |rows|
    ensures Lists(idx, n, Seeable(rows, txid)) && ScannedAt(Scan(w, meta, txid, n), meta, rows, idx)
  {
    idx := [];
    if n > 0 {
      idx := ScanIsMeant(w, meta, rows, txid, n - 1);
      assert Decodes(w, meta, n - 1, rows[n - 1]);
      idx := ScanNext(w, meta, rows, txid, n - 1, n, idx);
    }
  }

  // ----- what is logged -----

  /** The entry of an INSERT names its table, by the order of creation, and the slot the row goes to. */
  lemma {:induction false} InsertIsLoggedAs(db: DB, ts: Tables, json: Json, name: string, values: Values, txid: int,
                                            lsn: int)
    requires Represents(db, ts, json) && name in db.tables
    ensures var e := EntryOf(InsertOp(db.tables[name], values, txid, json), lsn, "PENDING");
            && e.lsn == lsn && e.txid == txid && e.status == "PENDING" && e.op == "INSERT"
            && name in ts.byName && 0 < e.tableID <= |ts.order| && ts.order[e.tableID - 1] == name
            && e.x == 0 && e.y == 64 && e.z == (e.tableID - 1) * 10000 + |ts.byName[name].rows|
            && e.newValue == json.marshal(values)
  {
    PlacedFields(db, ts, json, name);
  }

  /** The entry of a DELETE names the table of the slot it marks, computed from Z alone, and its transaction
      twice. */
  lemma {:induction false} DeleteIsLoggedAs(db: DB, ts: Tables, json: Json, name: string, ri: nat, txid: int, lsn: int)
    requires Represents(db, ts, json) && name in db.tables && ri < db.tables[name].rowCount
    ensures var pos := Pos(0, 64, db.tables[name].zStart + ri);
            var e := EntryOf(DeleteOp(pos, txid), lsn, "PENDING");
            && e.lsn == lsn && e.txid == txid && e.status == "PENDING" && e.op == "UPDATE_XMAX"
            && 0 < e.tableID <= |ts.order| && ts.order[e.tableID - 1] == name
            && e.x == 0 && e.y == 64 && e.z == (e.tableID - 1) * 10000 + ri && e.newValue == Itoa(txid)
  {
    PlacedFields(db, ts, json, name);
    SlotIsLogged(Pos(0, 64, db.tables[name].zStart + ri), db.tables[name].id, ri, txid, lsn);
  }

  lemma {:induction false} SlotIsLogged(pos: Pos, id: nat, ri: nat, txid: int, lsn: int)
    requires id > 0 && ri < 10000 && pos == Pos(0, 64, (id - 1) * 10000 + ri)
    ensures EntryOf(DeleteOp(pos, txid), lsn, "PENDING")
            == Entry(lsn, txid, "PENDING", "UPDATE_XMAX", id, 0, 64, pos.z, Itoa(txid))
  {
    BoundIsExact(id - 1, ri);
  }
}
