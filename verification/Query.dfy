/** Statements, conditions and results: the parts of internal/executor/executor.go that do not touch
    the store. */
module Query {
  import opened GoText
  import opened Layout

  datatype Condition = Condition(column: string, op: string, value: Value)
  datatype ColumnSpec = ColumnSpec(name: string, typ: string)

  /** A parsed statement. `columns == None` is SELECT *; Unsupported stands for an unknown statement
      type and for a statement whose payload is missing. */
  datatype Stmt =
    | CreateStmt(table: string, specs: seq<ColumnSpec>)
    | InsertStmt(table: string, names: seq<string>, values: seq<Value>)
    | SelectStmt(table: string, columns: Option<seq<string>>, where: seq<Condition>)
    | DeleteStmt(table: string, where: seq<Condition>)
    | Unsupported

  datatype Result = Result(columns: seq<string>, types: seq<string>, rows: seq<seq<Value>>, tag: string)
  datatype Outcome = Done(result: Result) | Failed

  function Tagged(tag: string): Outcome {
    Done(Result([], [], [], tag))
  }

  // ----- comparing values -----

  /** float64, its finite values as reals. */
  datatype Float = NaN | NegInf | Num(r: real) | PosInf

  /** float64 conversion and strconv.ParseFloat. */
  datatype Floats = Floats(ofInt: int -> real, parse: string -> Option<Float>)

  /** Conversion is exact up to 2^53. */
  ghost predicate Exact(floats: Floats) {
    forall n: int | -0x20_0000_0000_0000 <= n <= 0x20_0000_0000_0000 :: floats.ofInt(n) == n as real
  }

  predicate FloatEq(a: Float, b: Float) {
    a == b && !a.NaN?
  }

  predicate FloatLess(a: Float, b: Float) {
    match (a, b)
    case (NaN, _) => false
    case (_, NaN) => false
    case (Num(x), Num(y)) => x < y
    case (NegInf, _) => !b.NegInf?
    case (_, PosInf) => !a.PosInf?
    case _ => false
  }

  /** Go's order on strings, from byte i on. */
  predicate StrLess(a: string, b: string, i: nat)
    requires i <= |a| && i <= |b|
    decreases |a| - i
  {
    i < |b| && (i == |a| || a[i] < b[i] || (a[i] == b[i] && StrLess(a, b, i + 1)))
  }

  /** The six operators over an equality and two strict orders; any other operator is never met. */
  predicate Compare(op: string, eq: bool, less: bool, greater: bool) {
    match op
    case "=" => eq
    case ">" => greater
    case "<" => less
    case ">=" => greater || eq
    case "<=" => less || eq
    case "!=" => !eq
    case _ => false
  }

  predicate CompareNum(a: Float, b: Float, op: string) {
    Compare(op, FloatEq(a, b), FloatLess(a, b), FloatLess(b, a))
  }

  predicate CompareStr(a: string, b: string, op: string) {
    Compare(op, a == b, StrLess(a, b, 0), StrLess(b, a, 0))
  }

  function ToFloat(v: Value, floats: Floats): Option<Float> {
    match v
    case Int32(n) => Some(Num(floats.ofInt(n)))
    case Int64(n) => Some(Num(floats.ofInt(n)))
    case Text(s) => floats.parse(s)
    case _ => None
  }

  /** fmt's %v for a non-nil value. */
  function Show(v: Value): string {
    match v
    case Int32(n) => Itoa(n)
    case Int64(n) => Itoa(n)
    case Text(s) => s
    case Bool(b) => if b then "true" else "false"
    case Null => "<nil>"
  }

  predicate CompareValue(v: Value, c: Value, op: string, floats: Floats) {
    if v.Null? && c.Null? then op == "="
    else if v.Null? || c.Null? then op == "!="
    else
      var a, b := ToFloat(v, floats), ToFloat(c, floats);
      if a.Some? && b.Some? then CompareNum(a.value, b.value, op)
      else v.Text? && CompareStr(v.s, Show(c), op)
  }

  function Number(v: Value): int
    requires v.Int32? || v.Int64?
  {
    if v.Int32? then v.i else v.l
  }

  /** Integers up to 2^53 compare as integers, whatever their widths. */
  lemma {:induction false} IntegersCompareExactly(v: Value, c: Value, floats: Floats)
    requires Exact(floats) && (v.Int32? || v.Int64?) && (c.Int32? || c.Int64?)
    requires -0x20_0000_0000_0000 <= Number(v) <= 0x20_0000_0000_0000
    requires -0x20_0000_0000_0000 <= Number(c) <= 0x20_0000_0000_0000
    ensures CompareValue(v, c, "=", floats) <==> Number(v) == Number(c)
    ensures CompareValue(v, c, "!=", floats) <==> Number(v) != Number(c)
    ensures CompareValue(v, c, "<", floats) <==> Number(v) < Number(c)
    ensures CompareValue(v, c, ">", floats) <==> Number(v) > Number(c)
    ensures CompareValue(v, c, "<=", floats) <==> Number(v) <= Number(c)
    ensures CompareValue(v, c, ">=", floats) <==> Number(v) >= Number(c)
  {
    assert floats.ofInt(Number(v)) == Number(v) as real && floats.ofInt(Number(c)) == Number(c) as real;
  }

  lemma {:induction false} StringsAreOrdered(a: string, b: string, i: nat)
    requires i <= |a| && i <= |b| && a[..i] == b[..i]
    ensures StrLess(a, b, i) <==> !(a == b || StrLess(b, a, i))
    ensures !(a == b && StrLess(b, a, i))
    decreases |a| - i
  {
    if i < |a| && i < |b| && a[i] == b[i] {
      assert a[..i + 1] == a[..i] + [a[i]] && b[..i + 1] == b[..i] + [b[i]];
      StringsAreOrdered(a, b, i + 1);
    } else if i < |a| && i < |b| {
      assert a[i] != b[i];
    } else if i == |a| && i == |b| {
      assert a[..i] == a && b[..i] == b;
    }
  }

  /** Short of NaN the operators agree with each other, numbers and text alike: <, = and > exclude
      each other and cover everything, and the other three are their complements. Booleans compare
      with nothing. */
  lemma {:induction false} OperatorsAgree(v: Value, c: Value, floats: Floats)
    requires !v.Null? && !c.Null?
    requires ToFloat(v, floats) != Some(NaN) && ToFloat(c, floats) != Some(NaN)
    ensures var holds := (op: string) => CompareValue(v, c, op, floats);
            if v.Text? || (ToFloat(v, floats).Some? && ToFloat(c, floats).Some?)
            then && (holds("<") <==> !holds(">=")) && (holds(">") <==> !holds("<=")) && (holds("=") <==> !holds("!="))
                 && (holds("=") <==> !holds("<") && !holds(">")) && !(holds("<") && holds(">"))
            else forall op :: !holds(op)
  {
    if v.Text? && (ToFloat(v, floats).None? || ToFloat(c, floats).None?) {
      StringsAreOrdered(v.s, Show(c), 0);
      StringsAreOrdered(Show(c), v.s, 0);
    }
  }

  // ----- WHERE -----

  /** Ordinals by column name; a repeated name means its last column. */
  function ColumnMap(cols: seq<Column>, n: nat): map<string, int>
    requires n <= |cols|
  {
    if n == 0 then map[] else ColumnMap(cols, n - 1)[cols[n - 1].name := cols[n - 1].ordinal]
  }

  method BuildColumnMap(cols: seq<Column>) returns (m: map<string, int>)
    ensures m == ColumnMap(cols, |cols|)
  {
    m := map[];
    for i := 0 to |cols|
      invariant m == ColumnMap(cols, i)
    {
      m := m[cols[i].name := cols[i].ordinal];
    }
  }

  predicate DistinctNames(cols: seq<Column>) {
    forall i, j | 0 <= i < |cols| && 0 <= j < |cols| && cols[i].name == cols[j].name :: i == j
  }

  /** With distinct names the map sends each name to its own column and knows no other. */
  lemma {:induction false} ColumnMapIsExact(cols: seq<Column>, n: nat)
    requires n <= |cols| && DistinctNames(cols)
    ensures forall i | 0 <= i < n :: cols[i].name in ColumnMap(cols, n)
                                     && ColumnMap(cols, n)[cols[i].name] == cols[i].ordinal
    ensures forall name | name in ColumnMap(cols, n) :: exists i | 0 <= i < n :: cols[i].name == name
  {
    if n > 0 {
      ColumnMapIsExact(cols, n - 1);
      forall name | name in ColumnMap(cols, n) ensures exists i | 0 <= i < n :: cols[i].name == name {
        if name == cols[n - 1].name {
          assert cols[n - 1].name == name;
        } else {
          assert name in ColumnMap(cols, n - 1);
        }
      }
    }
  }

  function Cell(row: Row, ordinal: int): Value {
    if ordinal in row.cols then row.cols[ordinal] else Null
  }

  predicate Holds(row: Row, cond: Condition, colMap: map<string, int>, floats: Floats) {
    cond.column in colMap && CompareValue(Cell(row, colMap[cond.column]), cond.value, cond.op, floats)
  }

  /** A row meets WHERE when every condition names a column and holds of its value. */
  predicate WhereHolds(row: Row, conds: seq<Condition>, colMap: map<string, int>, floats: Floats) {
    forall i | 0 <= i < |conds| :: Holds(row, conds[i], colMap, floats)
  }

  function Keep(cols: seq<Column>, conds: seq<Condition>, floats: Floats): Row -> bool {
    (row: Row) => WhereHolds(row, conds, ColumnMap(cols, |cols|), floats)
  }

  method EvaluateWhere(row: Row, conds: seq<Condition>, colMap: map<string, int>, floats: Floats) returns (ok: bool)
    ensures ok == WhereHolds(row, conds, colMap, floats)
  {
    for i := 0 to |conds|
      invariant forall k | 0 <= k < i :: Holds(row, conds[k], colMap, floats)
    {
      if conds[i].column !in colMap {
        assert !Holds(row, conds[i], colMap, floats);
        return false;
      }
      var v := Cell(row, colMap[conds[i].column]);
      if !CompareValue(v, conds[i].value, conds[i].op, floats) {
        assert !Holds(row, conds[i], colMap, floats);
        return false;
      }
    }
    ok := true;
  }

  /** WHERE looks at column values only, never at xmin or xmax. */
  lemma {:induction false} KeepIgnoresVersions(cols: seq<Column>, conds: seq<Condition>, floats: Floats, r: Row,
                                               r': Row)
    requires r.cols == r'.cols
    ensures Keep(cols, conds, floats)(r) == Keep(cols, conds, floats)(r')
  {
    var m := ColumnMap(cols, |cols|);
    forall i | 0 <= i < |conds| ensures Holds(r, conds[i], m, floats) == Holds(r', conds[i], m, floats) {
    }
  }

  // ----- output columns -----

  function FirstNamed(name: string, defs: seq<Column>, from: nat): (i: nat)
    requires from <= |defs|
    ensures from <= i <= |defs| && (forall k | from <= k < i :: defs[k].name != name)
    ensures i < |defs| ==> defs[i].name == name
    decreases |defs| - from
  {
    if from == |defs| || defs[from].name == name then from else FirstNamed(name, defs, from + 1)
  }

  /** The first column of each requested name, unknown names left out. */
  function Resolve(requested: seq<string>, defs: seq<Column>, n: nat): (out: seq<Column>)
    requires n <= |requested|
  {
    if n == 0 then []
    else
      var i := FirstNamed(requested[n - 1], defs, 0);
      Resolve(requested, defs, n - 1) + if i < |defs| then [defs[i]] else []
  }

  function OutputColumns(requested: Option<seq<string>>, defs: seq<Column>): seq<Column> {
    if requested.None? then defs else Resolve(requested.value, defs, |requested.value|)
  }

  method ResolveOutputColumns(requested: Option<seq<string>>, defs: seq<Column>) returns (out: seq<Column>)
    ensures out == OutputColumns(requested, defs)
  {
    if requested.None? {
      return defs;
    }
    out := [];
    for i := 0 to |requested.value|
      invariant out == Resolve(requested.value, defs, i)
    {
      var name := requested.value[i];
      var k := 0;
      while k < |defs|
        invariant 0 <= k <= FirstNamed(name, defs, 0) && FirstNamed(name, defs, k) == FirstNamed(name, defs, 0)
        invariant out == Resolve(requested.value, defs, i)
      {
        if defs[k].name == name {
          break;
        }
        k := k + 1;
      }
      if k < |defs| {
        out := out + [defs[k]];
      }
    }
  }

  predicate IsColumn(name: string, defs: seq<Column>) {
    exists i | 0 <= i < |defs| :: defs[i].name == name
  }

  /** When every requested name is a column and names are distinct, the output is those columns, one
      for one and in the order asked. */
  lemma {:induction false} ResolvesAll(requested: seq<string>, defs: seq<Column>, n: nat)
    requires n <= |requested| && DistinctNames(defs)
    requires forall k | 0 <= k < n :: IsColumn(requested[k], defs)
    ensures |Resolve(requested, defs, n)| == n
    ensures forall k | 0 <= k < n :: Resolve(requested, defs, n)[k] in defs
                                     && Resolve(requested, defs, n)[k].name == requested[k]
  {
    if n > 0 {
      ResolvesAll(requested, defs, n - 1);
      var j :| 0 <= j < |defs| && defs[j].name == requested[n - 1];
      assert FirstNamed(requested[n - 1], defs, 0) <= j;
    }
  }

  function Names(cols: seq<Column>): seq<string> {
    seq(|cols|, i requires 0 <= i < |cols| => cols[i].name)
  }

  function TypeNames(cols: seq<Column>): seq<string> {
    seq(|cols|, i requires 0 <= i < |cols| => TypeName(cols[i].typ))
  }

  function Project(row: Row, out: seq<Column>): seq<Value> {
    seq(|out|, i requires 0 <= i < |out| => Cell(row, out[i].ordinal))
  }

  function ProjectAll(rows: seq<Row>, out: seq<Column>): (r: seq<seq<Value>>)
    ensures |r| == |rows|
  {
    seq(|rows|, i requires 0 <= i < |rows| => Project(rows[i], out))
  }

  method ProjectRow(row: Row, out: seq<Column>) returns (data: seq<Value>)
    ensures data == Project(row, out)
  {
    data := [];
    for i := 0 to |out|
      invariant |data| == i && forall k | 0 <= k < i :: data[k] == Cell(row, out[k].ordinal)
    {
      data := data + [Cell(row, out[i].ordinal)];
    }
  }

  // ----- column types and INSERT values -----

  function NormalizeType(t: string): ColType {
    match t
    case "int4" => INT
    case "integer" => INT
    case "INT" => INT
    case "int8" => BIGINT
    case "bigint" => BIGINT
    case "BIGINT" => BIGINT
    case "text" => TEXT
    case "varchar" => TEXT
    case "bpchar" => TEXT
    case "TEXT" => TEXT
    case "bool" => BOOLEAN
    case "boolean" => BOOLEAN
    case "BOOLEAN" => BOOLEAN
    case "float4" => OTHER("FLOAT")
    case "float8" => OTHER("FLOAT")
    case "real" => OTHER("FLOAT")
    case "double precision" => OTHER("FLOAT")
    case _ => OTHER(t)
  }

  function TypeName(t: ColType): string {
    match t
    case INT => "INT"
    case BIGINT => "BIGINT"
    case TEXT => "TEXT"
    case BOOLEAN => "BOOLEAN"
    case OTHER(name) => name
  }

  /** The names of the types: SQL's, the stored ones, and any other as it is. */
  lemma {:induction false} TypesByName(t: string)
    ensures t in ["int4", "integer", "INT"] ==> NormalizeType(t) == INT
    ensures t in ["int8", "bigint", "BIGINT"] ==> NormalizeType(t) == BIGINT
    ensures t in ["text", "varchar", "bpchar", "TEXT"] ==> NormalizeType(t) == TEXT
    ensures t in ["bool", "boolean", "BOOLEAN"] ==> NormalizeType(t) == BOOLEAN
    ensures t in ["float4", "float8", "real", "double precision"] ==> NormalizeType(t) == OTHER("FLOAT")
    ensures t !in ["int4", "integer", "INT", "int8", "bigint", "BIGINT", "text", "varchar", "bpchar", "TEXT", "bool",
                   "boolean", "BOOLEAN", "float4", "float8", "real", "double precision"] ==>
              NormalizeType(t) == OTHER(t)
  {
  }

  /** Storing a type name in the catalog and reading it back gives the same type. */
  lemma {:induction false} TypeNamesAreStable(t: string)
    ensures NormalizeType(TypeName(NormalizeType(t))) == NormalizeType(t)
  {
  }

  function Columns(specs: seq<ColumnSpec>): seq<Column> {
    seq(|specs|, i requires 0 <= i < |specs| => Column(specs[i].name, i, NormalizeType(specs[i].typ)))
  }

  method BuildColumns(specs: seq<ColumnSpec>) returns (cols: seq<Column>)
    ensures cols == Columns(specs)
  {
    cols := [];
    for i := 0 to |specs|
      invariant |cols| == i
      invariant forall k | 0 <= k < i :: cols[k] == Column(specs[k].name, k, NormalizeType(specs[k].typ))
    {
      cols := cols + [Column(specs[i].name, i, NormalizeType(specs[i].typ))];
    }
  }

  /** Values by name, position by position; positions without a value give nothing. */
  function Assign(names: seq<string>, values: seq<Value>, n: nat): Values
    requires n <= |names|
  {
    if n == 0 then map[]
    else if n - 1 < |values| then Assign(names, values, n - 1)[names[n - 1] := values[n - 1]]
    else Assign(names, values, n - 1)
  }

  function InsertValues(cols: seq<Column>, names: seq<string>, values: seq<Value>): Values {
    if names == [] then Assign(Names(cols), values, |cols|) else Assign(names, values, |names|)
  }

  method AssignValues(names: seq<string>, values: seq<Value>) returns (m: Values)
    ensures m == Assign(names, values, |names|)
  {
    m := map[];
    for i := 0 to |names|
      invariant m == Assign(names, values, i)
    {
      if i < |values| {
        m := m[names[i] := values[i]];
      }
    }
  }

  method CollectValues(cols: seq<Column>, names: seq<string>, values: seq<Value>) returns (m: Values)
    ensures m == InsertValues(cols, names, values)
  {
    if |names| == 0 {
      m := AssignValues(Names(cols), values);
    } else {
      m := AssignValues(names, values);
    }
  }

  predicate Distinct(names: seq<string>) {
    forall i, j | 0 <= i < |names| && 0 <= j < |names| && names[i] == names[j] :: i == j
  }

  lemma {:induction false} AssignedByName(names: seq<string>, values: seq<Value>, n: nat, j: nat)
    requires j < n <= |names| && j < |values| && Distinct(names)
    ensures names[j] in Assign(names, values, n) && Assign(names, values, n)[names[j]] == values[j]
  {
    if j < n - 1 {
      AssignedByName(names, values, n - 1, j);
      assert names[j] != names[n - 1];
    }
  }

  /** The names an INSERT gives values for: its own list, or all columns. */
  function NamesGiven(cols: seq<Column>, names: seq<string>): seq<string> {
    if names == [] then Names(cols) else names
  }

  /** An INSERT with distinct names, listed or implied, hands every named column its own value. */
  lemma {:induction false} EveryColumnGetsItsValue(cols: seq<Column>, names: seq<string>, values: seq<Value>, k: nat,
                                                   j: nat)
    requires var given := NamesGiven(cols, names);
             Distinct(given) && k < |cols| && j < |given| && j < |values| && given[j] == cols[k].name
    ensures GetColumnValue(InsertValues(cols, names, values), cols[k]) == values[j]
  {
    var given := NamesGiven(cols, names);
    AssignedByName(given, values, |given|, j);
  }
}
