/** Rows as strips of blocks: the layout InsertRow writes and decodeStrip reads, and the value
    conversions between, from internal/storage/storage.go. */
module Layout {
  import opened GoText
  import opened World
  import opened Codec
  import opened Signs
  import opened Recovery

  type int32 = n: int | IsInt32(n)
  type int64 = n: int | IsInt64(n)

  datatype ColType = INT | BIGINT | BOOLEAN | TEXT | OTHER(name: string)
  datatype Column = Column(name: string, ordinal: int, typ: ColType)

  /** Go's interface{} values as the parser and the decoder produce them. */
  datatype Value = Null | Int32(i: int32) | Int64(l: int64) | Text(s: string) | Bool(b: bool)

  type Values = map<string, Value>

  /** A decoded row: system fields, and column values under their ordinals. */
  datatype Row = Row(xmin: int, xmax: Option<int>, cols: map<int, Value>)

  // ----- value conversions -----

  function ToInt32(v: Value): int32 {
    match v
    case Int32(n) => n
    case Int64(n) => Wrap32(n)
    case _ => 0
  }

  function ToInt64(v: Value): int64 {
    match v
    case Int32(n) => n
    case Int64(n) => n
    case _ => 0
  }

  function ToBool(v: Value): bool {
    match v
    case Bool(b) => b
    case Text(s) => s == "true" || s == "1"
    case Int64(n) => n != 0
    case _ => false
  }

  function ToText(v: Value): string {
    match v
    case Text(s) => s
    case Int64(n) => Itoa(n)
    case Bool(b) => if b then "true" else "false"
    case _ => ""
  }

  function GetColumnValue(values: Values, col: Column): Value {
    var key := "c" + Itoa(col.ordinal);
    if col.name in values then values[col.name]
    else if key in values then values[key]
    else Null
  }

  /** What a text reads back as once it has been on a sign. */
  function StoredText(s: string): string {
    SignText(SignData(SignLines(s)))
  }

  /** The value a column gives back after storing v in it. */
  function StoredValue(typ: ColType, v: Value): Value {
    match typ
    case INT => Int32(ToInt32(v))
    case BIGINT => Int64(ToInt64(v))
    case BOOLEAN => Bool(ToBool(v))
    case TEXT => Text(StoredText(ToText(v)))
    case OTHER(_) => Null
  }

  /** Types without an encoding leave nothing in the strip. */
  function StoredCell(typ: ColType, v: Value): (r: Option<Value>) {
    if typ.OTHER? then None else Some(StoredValue(typ, v))
  }

  function StoredColumn(cols: seq<Column>, values: Values, k: nat): (r: Option<Value>)
    requires k < |cols|
  {
    StoredCell(cols[k].typ, GetColumnValue(values, cols[k]))
  }

  function StoredCells(cols: seq<Column>, values: Values): (cells: seq<Option<Value>>)
    ensures |cells| == |cols|
  {
    seq(|cols|, k requires 0 <= k < |cols| => StoredColumn(cols, values, k))
  }

  /** The row map after the first n columns, each present value filed under its column's ordinal. */
  function Collect(cols: seq<Column>, cells: seq<Option<Value>>, n: nat): map<int, Value>
    requires n <= |cols| == |cells|
  {
    if n == 0 then map[]
    else if cells[n - 1].None? then Collect(cols, cells, n - 1)
    else Collect(cols, cells, n - 1)[cols[n - 1].ordinal := cells[n - 1].value]
  }

  function StoredColumns(cols: seq<Column>, values: Values): map<int, Value> {
    Collect(cols, StoredCells(cols, values), |cols|)
  }

  // ----- the strip as written -----

  function BannersOf(typ: ColType, v: Value): (bs: seq<string>) {
    match typ
    case INT => [Int32Banner(ToInt32(v))]
    case BIGINT => var (s1, s2) := Int64Banners(ToInt64(v)); [s1, s2]
    case BOOLEAN => [BoolBanner(ToBool(v))]
    case _ => []
  }

  function SignsOf(typ: ColType, v: Value): (ss: seq<string>) {
    if typ == TEXT then [SignData(SignLines(ToText(v)))] else []
  }

  function BannerWidth(typ: ColType): nat {
    match typ
    case INT => 1
    case BOOLEAN => 1
    case BIGINT => 2
    case _ => 0
  }

  function SignWidth(typ: ColType): nat {
    if typ == TEXT then 1 else 0
  }

  /** Banners and signs of the first n columns. */
  function BannerCount(cols: seq<Column>, n: nat): nat
    requires n <= |cols|
  {
    if n == 0 then 0 else BannerCount(cols, n - 1) + BannerWidth(cols[n - 1].typ)
  }

  function SignCount(cols: seq<Column>, n: nat): nat
    requires n <= |cols|
  {
    if n == 0 then 0 else SignCount(cols, n - 1) + SignWidth(cols[n - 1].typ)
  }

  /** The first n parts, one after the other, and how many blocks they take. */
  function Flatten(parts: seq<seq<string>>, n: nat): (blocks: seq<string>)
    requires n <= |parts|
    ensures |blocks| == Offset(parts, n)
  {
    if n == 0 then [] else Flatten(parts, n - 1) + parts[n - 1]
  }

  function Offset(parts: seq<seq<string>>, n: nat): nat
    requires n <= |parts|
  {
    if n == 0 then 0 else Offset(parts, n - 1) + |parts[n - 1]|
  }

  function BannerParts(cols: seq<Column>, values: Values): (parts: seq<seq<string>>)
    ensures |parts| == |cols|
  {
    seq(|cols|, k requires 0 <= k < |cols| => BannersOf(cols[k].typ, GetColumnValue(values, cols[k])))
  }

  function SignParts(cols: seq<Column>, values: Values): (parts: seq<seq<string>>)
    ensures |parts| == |cols|
  {
    seq(|cols|, k requires 0 <= k < |cols| => SignsOf(cols[k].typ, GetColumnValue(values, cols[k])))
  }

  lemma {:induction false} PartWidths(cols: seq<Column>, values: Values, k: nat)
    requires k < |cols|
    ensures |BannerParts(cols, values)[k]| == BannerWidth(cols[k].typ)
    ensures |SignParts(cols, values)[k]| == SignWidth(cols[k].typ)
  {
  }

  lemma {:induction false} OffsetIsCount(cols: seq<Column>, bs: seq<seq<string>>, ss: seq<seq<string>>, n: nat)
    requires n <= |cols| == |bs| == |ss|
    requires forall k | 0 <= k < |cols| :: |bs[k]| == BannerWidth(cols[k].typ) && |ss[k]| == SignWidth(cols[k].typ)
    ensures Offset(bs, n) == BannerCount(cols, n) && Offset(ss, n) == SignCount(cols, n)
  {
    if n > 0 {
      OffsetIsCount(cols, bs, ss, n - 1);
    }
  }

  lemma {:induction false} OffsetsCount(cols: seq<Column>, values: Values, n: nat)
    requires n <= |cols|
    ensures Offset(BannerParts(cols, values), n) == BannerCount(cols, n)
    ensures Offset(SignParts(cols, values), n) == SignCount(cols, n)
  {
    var bs, ss := BannerParts(cols, values), SignParts(cols, values);
    forall k | 0 <= k < |cols|
      ensures |bs[k]| == BannerWidth(cols[k].typ) && |ss[k]| == SignWidth(cols[k].typ)
    {
      PartWidths(cols, values, k);
    }
    OffsetIsCount(cols, bs, ss, n);
  }

  function StripWidth(cols: seq<Column>): nat {
    4 + BannerCount(cols, |cols|) + SignCount(cols, |cols|)
  }

  function Cells(cols: seq<Column>, values: Values): (cells: seq<string>)
    ensures |cells| == BannerCount(cols, |cols|) + SignCount(cols, |cols|)
  {
    OffsetsCount(cols, values, |cols|);
    Flatten(BannerParts(cols, values), |cols|) + Flatten(SignParts(cols, values), |cols|)
  }

  function SystemBlocks(txid: int): (bs: seq<string>)
    ensures |bs| == 4
  {
    var (s1, s2) := Int64Banners(txid);
    [s1, s2, NULL_HEX, NULL_HEX]
  }

  function Strip(cols: seq<Column>, values: Values, txid: int): (strip: seq<string>)
    ensures |strip| == StripWidth(cols)
  {
    SystemBlocks(txid) + Cells(cols, values)
  }

  // ----- the strip as read: one pass, a banner cursor and a sign cursor -----

  function At(cells: seq<string>, i: int): string {
    if 0 <= i < |cells| then cells[i] else ""
  }

  function ReadCell(typ: ColType, cells: seq<string>, bannerIdx: nat, signStart: nat): (r: Option<Value>) {
    match typ
    case INT =>
      var v := ReadInt32(At(cells, bannerIdx));
      if v.None? then None else Some(Int32(v.value))
    case BIGINT =>
      var v := ReadInt64(At(cells, bannerIdx), At(cells, bannerIdx + 1));
      if v.None? then None else Some(Int64(v.value))
    case BOOLEAN =>
      var v := ReadBool(At(cells, bannerIdx));
      if v.None? then None else Some(Bool(v.value))
    case TEXT =>
      if At(cells, signStart) == "" then None else Some(Text(SignText(At(cells, signStart))))
    case OTHER(_) => None
  }

  /** The pass over the columns: when it reaches column k, each cursor stands behind the blocks of
      the columns before it. */
  function ReadCells(cols: seq<Column>, cells: seq<string>): (r: seq<Option<Value>>)
    ensures |r| == |cols|
  {
    seq(|cols|, k requires 0 <= k < |cols| => ReadColumn(cols, cells, k))
  }

  function ReadColumn(cols: seq<Column>, cells: seq<string>, k: nat): (r: Option<Value>)
    requires k < |cols|
  {
    ReadCell(cols[k].typ, cells, BannerCount(cols, k), BannerCount(cols, |cols|) + SignCount(cols, k))
  }

  function DecodeStrip(data: seq<string>, cols: seq<Column>): (r: Option<Row>) {
    if |data| < 4 then None
    else
      var xmin := ReadInt64(data[0], data[1]);
      var xmax := ReadXmax(data[2], data[3]);
      if xmin.None? || xmax.None? then None
      else Some(Row(xmin.value, xmax.value, Collect(cols, ReadCells(cols, data[4..]), |cols|)))
  }

  /** A strip without a block is no row. */
  lemma {:induction false} EmptyStripIsNoRow(data: seq<string>, cols: seq<Column>)
    requires forall i | 0 <= i < |data| :: data[i] == ""
    ensures DecodeStrip(data, cols).None?
  {
    if |data| >= 4 {
      assert data[0] == "";
      assert BannerBytes("").None?;
    }
  }

  // ----- reading undoes writing -----

  /** From position i on, the cells are those of `part`. */
  predicate Holds(cells: seq<string>, i: nat, part: seq<string>) {
    forall k | 0 <= k < |part| :: At(cells, i + k) == part[k]
  }

  lemma {:induction false} CellRoundTrip(typ: ColType, v: Value, cells: seq<string>, b: nat, s: nat)
    requires Holds(cells, b, BannersOf(typ, v)) && Holds(cells, s, SignsOf(typ, v))
    ensures ReadCell(typ, cells, b, s) == StoredCell(typ, v)
  {
    var bs, ss := BannersOf(typ, v), SignsOf(typ, v);
    assert |bs| > 0 ==> At(cells, b + 0) == bs[0];
    assert |ss| > 0 ==> At(cells, s + 0) == ss[0];
    match typ
    case INT => Int32RoundTrip(ToInt32(v));
    case BIGINT =>
      assert At(cells, b + 1) == bs[1];
      Int64RoundTrip(ToInt64(v));
    case BOOLEAN => BoolRoundTrip(ToBool(v));
    case TEXT =>
      assert SignData(SignLines(ToText(v))) != "";
    case OTHER(_) =>
  }

  /** Part k stands at its place among the first n parts. */
  lemma {:induction false} PartPlace(parts: seq<seq<string>>, n: nat, k: nat)
    requires k < n <= |parts|
    ensures Offset(parts, k) + |parts[k]| <= Offset(parts, n)
    ensures Holds(Flatten(parts, n), Offset(parts, k), parts[k])
  {
    if k < n - 1 {
      PartPlace(parts, n - 1, k);
      HoldsInPrefix(Flatten(parts, n - 1), parts[n - 1], Offset(parts, k), parts[k]);
    } else {
      HoldsAtEnd(Flatten(parts, k), parts[k]);
    }
  }

  lemma {:induction false} HoldsInPrefix(a: seq<string>, more: seq<string>, i: nat, part: seq<string>)
    requires i + |part| <= |a| && Holds(a, i, part)
    ensures Holds(a + more, i, part)
  {
    forall k | 0 <= k < |part| ensures At(a + more, i + k) == part[k] {
      assert At(a, i + k) == part[k];
    }
  }

  lemma {:induction false} HoldsAtEnd(a: seq<string>, part: seq<string>)
    ensures Holds(a + part, |a|, part)
  {
  }

  lemma {:induction false} HoldsBehind(a: seq<string>, b: seq<string>, i: nat, part: seq<string>)
    requires i + |part| <= |b| && Holds(b, i, part)
    ensures Holds(a + b, |a| + i, part)
  {
    forall k | 0 <= k < |part| ensures At(a + b, |a| + i + k) == part[k] {
      assert At(b, i + k) == part[k];
    }
  }

  /** Two flattened lists in a row: part k of either is found behind its offset. */
  lemma {:induction false} PartsPlace(a: seq<seq<string>>, b: seq<seq<string>>, n: nat, k: nat)
    requires k < n == |a| == |b|
    ensures Holds(Flatten(a, n) + Flatten(b, n), Offset(a, k), a[k])
    ensures Holds(Flatten(a, n) + Flatten(b, n), Offset(a, n) + Offset(b, k), b[k])
  {
    PartPlace(a, n, k);
    PartPlace(b, n, k);
    HoldsInPrefix(Flatten(a, n), Flatten(b, n), Offset(a, k), a[k]);
    HoldsBehind(Flatten(a, n), Flatten(b, n), Offset(b, k), b[k]);
  }

  /** Wherever TEXT and numeric columns stand, the two cursors find column k's own blocks. */
  lemma {:induction false} CursorsFindColumn(cols: seq<Column>, values: Values, k: nat)
    requires k < |cols|
    ensures ReadColumn(cols, Cells(cols, values), k) == StoredColumn(cols, values, k)
  {
    ColumnPlace(cols, values, k);
    ColumnRoundTrip(cols, Cells(cols, values), values, k);
  }

  lemma {:induction false} ColumnRoundTrip(cols: seq<Column>, cells: seq<string>, values: Values, k: nat)
    requires k < |cols|
    requires Holds(cells, BannerCount(cols, k), BannersOf(cols[k].typ, GetColumnValue(values, cols[k])))
    requires Holds(cells, BannerCount(cols, |cols|) + SignCount(cols, k),
                   SignsOf(cols[k].typ, GetColumnValue(values, cols[k])))
    ensures ReadColumn(cols, cells, k) == StoredColumn(cols, values, k)
  {
    CellRoundTrip(cols[k].typ, GetColumnValue(values, cols[k]), cells,
                  BannerCount(cols, k), BannerCount(cols, |cols|) + SignCount(cols, k));
  }

  /** Where a column's blocks stand behind the system blocks: its banners behind the banners of the columns
      before it, its sign behind all banners and the signs of the columns before it. */
  lemma {:induction false} ColumnPlace(cols: seq<Column>, values: Values, k: nat)
    requires k < |cols|
    ensures var v := GetColumnValue(values, cols[k]);
            && Holds(Cells(cols, values), BannerCount(cols, k), BannersOf(cols[k].typ, v))
            && Holds(Cells(cols, values), BannerCount(cols, |cols|) + SignCount(cols, k), SignsOf(cols[k].typ, v))
  {
    var bs, ss := BannerParts(cols, values), SignParts(cols, values);
    PartsPlace(bs, ss, |cols|, k);
    OffsetsCount(cols, values, k);
    OffsetsCount(cols, values, |cols|);
    PartOf(cols, values, k);
  }

  lemma {:induction false} PartOf(cols: seq<Column>, values: Values, k: nat)
    requires k < |cols|
    ensures BannerParts(cols, values)[k] == BannersOf(cols[k].typ, GetColumnValue(values, cols[k]))
    ensures SignParts(cols, values)[k] == SignsOf(cols[k].typ, GetColumnValue(values, cols[k]))
  {
  }

  lemma {:induction false} ReadCellsInverse(cols: seq<Column>, values: Values)
    ensures ReadCells(cols, Cells(cols, values)) == StoredCells(cols, values)
  {
    forall k | 0 <= k < |cols|
      ensures ReadCells(cols, Cells(cols, values))[k] == StoredCells(cols, values)[k]
    {
      CursorsFindColumn(cols, values, k);
    }
  }

  /** For every schema and every interleaving of TEXT and numeric columns, decoding a written strip
      gives the writing transaction, no deleter, and every column's stored value. */
  lemma {:induction false} LayoutInverse(cols: seq<Column>, values: Values, txid: int)
    requires IsInt64(txid)
    ensures DecodeStrip(Strip(cols, values, txid), cols)
            == Some(Row(txid, None, StoredColumns(cols, values)))
  {
    assert Strip(cols, values, txid)[4..] == Cells(cols, values);
    Int64RoundTrip(txid);
    ReadCellsInverse(cols, values);
  }

  predicate DistinctOrdinals(cols: seq<Column>) {
    forall i, j | 0 <= i < j < |cols| :: cols[i].ordinal != cols[j].ordinal
  }

  /** Each present value is found under its own column's ordinal, and no other is found there. */
  lemma {:induction false} CollectedUnderOrdinal(cols: seq<Column>, cells: seq<Option<Value>>, n: nat, k: nat)
    requires DistinctOrdinals(cols) && k < |cols| == |cells| && n <= |cols|
    ensures var o, m := cols[k].ordinal, Collect(cols, cells, n);
            if k < n && cells[k].Some? then o in m && m[o] == cells[k].value else o !in m
  {
    if n > 0 {
      CollectedUnderOrdinal(cols, cells, n - 1, k);
    }
  }

  // ----- the source's loops -----

  method ComputeStripWidth(cols: seq<Column>) returns (w: nat)
    ensures w == StripWidth(cols)
  {
    w := 4;
    for i := 0 to |cols|
      invariant w == 4 + BannerCount(cols, i) + SignCount(cols, i)
    {
      match cols[i].typ
      case INT => w := w + 1;
      case BOOLEAN => w := w + 1;
      case BIGINT => w := w + 2;
      case TEXT => w := w + 1;
      case OTHER(_) =>
    }
  }

  lemma {:induction false} StripWritesAppend(blocks: seq<string>, data: string, y: int, z: int)
    ensures StripWrites(blocks + [data], y, z)
            == StripWrites(blocks, y, z) + [BlockWrite(Pos(|blocks|, y, z), data)]
  {
  }

  lemma {:induction false} NextPart(parts: seq<seq<string>>, head: seq<string>, n: nat)
    requires n < |parts|
    ensures head + Flatten(parts, n + 1) == head + Flatten(parts, n) + parts[n]
    ensures |parts[n]| == 2 ==>
              head + Flatten(parts, n + 1) == head + Flatten(parts, n) + [parts[n][0]] + [parts[n][1]]
  {
  }

  /** The banners of one column, encoded block by block. */
  method EncodeBanners(typ: ColType, v: Value) returns (bs: seq<string>)
    ensures bs == BannersOf(typ, v)
  {
    match typ
    case INT =>
      var enc := EncodeInt32(ToInt32(v));
      bs := [enc];
    case BIGINT =>
      var s1, s2 := EncodeInt64(ToInt64(v));
      bs := [s1, s2];
    case BOOLEAN =>
      var enc := EncodeBool(ToBool(v));
      bs := [enc];
    case _ => bs := [];
  }

  method EncodeSigns(typ: ColType, v: Value) returns (ss: seq<string>)
    ensures ss == SignsOf(typ, v)
  {
    ss := [];
    if typ == TEXT {
      var lines := EncodeText(ToText(v));
      ss := [SignData(lines)];
    }
  }

  /** Appends one column's blocks at the moving offset. */
  method AppendBlocks(writes: seq<BlockWrite>, offset: nat, blocks: seq<string>, y: int, z: int,
                      ghost done: seq<string>)
    returns (writes': seq<BlockWrite>, offset': nat)
    requires writes == StripWrites(done, y, z) && offset == |done|
    ensures writes' == StripWrites(done + blocks, y, z) && offset' == |done + blocks|
  {
    writes', offset' := writes, offset;
    for j := 0 to |blocks|
      invariant writes' == StripWrites(done + blocks[..j], y, z) && offset' == |done| + j
    {
      StripWritesAppend(done + blocks[..j], blocks[j], y, z);
      assert done + blocks[..j] + [blocks[j]] == done + blocks[..j + 1];
      writes' := writes' + [BlockWrite(Pos(offset', y, z), blocks[j])];
      offset' := offset' + 1;
    }
    assert blocks[..|blocks|] == blocks;
  }

  /** The first pass of InsertRow: INT, BIGINT and BOOLEAN columns. */
  method WriteBanners(cols: seq<Column>, values: Values, y: int, z: int, writes: seq<BlockWrite>, offset: nat,
                      ghost head: seq<string>)
    returns (writes': seq<BlockWrite>, offset': nat)
    requires writes == StripWrites(head, y, z) && offset == |head|
    ensures var blocks := head + Flatten(BannerParts(cols, values), |cols|);
            writes' == StripWrites(blocks, y, z) && offset' == |blocks|
  {
    writes', offset' := writes, offset;
    ghost var parts := BannerParts(cols, values);
    ghost var done := head;
    assert head + Flatten(parts, 0) == head;
    for i := 0 to |cols|
      invariant done == head + Flatten(parts, i)
      invariant writes' == StripWrites(done, y, z) && offset' == |done|
    {
      var banners := EncodeBanners(cols[i].typ, GetColumnValue(values, cols[i]));
      PartOf(cols, values, i);
      NextPart(parts, head, i);
      writes', offset' := AppendBlocks(writes', offset', banners, y, z, done);
      done := done + banners;
    }
  }

  /** The second pass: TEXT columns. */
  method WriteSigns(cols: seq<Column>, values: Values, y: int, z: int, writes: seq<BlockWrite>, offset: nat,
                    ghost head: seq<string>)
    returns (writes': seq<BlockWrite>, offset': nat)
    requires writes == StripWrites(head, y, z) && offset == |head|
    ensures var blocks := head + Flatten(SignParts(cols, values), |cols|);
            writes' == StripWrites(blocks, y, z) && offset' == |blocks|
  {
    writes', offset' := writes, offset;
    ghost var parts := SignParts(cols, values);
    ghost var done := head;
    assert head + Flatten(parts, 0) == head;
    for i := 0 to |cols|
      invariant done == head + Flatten(parts, i)
      invariant writes' == StripWrites(done, y, z) && offset' == |done|
    {
      PartOf(cols, values, i);
      NextPart(parts, head, i);
      var signs := EncodeSigns(cols[i].typ, GetColumnValue(values, cols[i]));
      writes', offset' := AppendBlocks(writes', offset', signs, y, z, done);
      done := done + parts[i];
    }
  }

  /** InsertRow's writes: system fields, then the numeric columns, then the TEXT columns. Every X from
      0 to the strip's width is written exactly once. */
  method BuildStripWrites(cols: seq<Column>, values: Values, txid: int64, y: int, z: int)
    returns (writes: seq<BlockWrite>)
    ensures writes == StripWrites(Strip(cols, values, txid), y, z)
  {
    var xmin0, xmin1 := EncodeInt64(txid);
    writes := [BlockWrite(Pos(0, y, z), xmin0), BlockWrite(Pos(1, y, z), xmin1),
               BlockWrite(Pos(2, y, z), NULL_HEX), BlockWrite(Pos(3, y, z), NULL_HEX)];
    ghost var head := SystemBlocks(txid);
    assert writes == StripWrites(head, y, z);
    var offset := 4;
    writes, offset := WriteBanners(cols, values, y, z, writes, offset, head);
    writes, offset := WriteSigns(cols, values, y, z, writes, offset, head + Flatten(BannerParts(cols, values), |cols|));
    StripInParts(cols, values, txid);
  }

  lemma {:induction false} StripInParts(cols: seq<Column>, values: Values, txid: int)
    ensures Strip(cols, values, txid)
            == SystemBlocks(txid) + Flatten(BannerParts(cols, values), |cols|) + Flatten(SignParts(cols, values),
                                                                                         |cols|)
  {
    ConcatAssociative(SystemBlocks(txid), Flatten(BannerParts(cols, values), |cols|),
                      Flatten(SignParts(cols, values), |cols|));
  }

  /** One turn of decodeStrip's column loop. */
  method DecodeCell(typ: ColType, cells: seq<string>, bannerIdx: nat, signStart: nat) returns (r: Option<Value>)
    ensures r == ReadCell(typ, cells, bannerIdx, signStart)
  {
    r := None;
    match typ
    case INT =>
      if bannerIdx < |cells| && cells[bannerIdx] != "" {
        var dec := DecodeInt32(cells[bannerIdx]);
        if dec.Some? {
          r := Some(Int32(dec.value));
        }
      }
    case BIGINT =>
      if bannerIdx + 1 < |cells| && cells[bannerIdx] != "" {
        var dec := DecodeInt64(cells[bannerIdx], cells[bannerIdx + 1]);
        if dec.Some? {
          r := Some(Int64(dec.value));
        }
      }
    case BOOLEAN =>
      if bannerIdx < |cells| && cells[bannerIdx] != "" {
        var dec := DecodeBool(cells[bannerIdx]);
        if dec.Some? {
          r := Some(Bool(dec.value));
        }
      }
    case TEXT =>
      if signStart < |cells| && cells[signStart] != "" {
        var lines := DecodeSignData(cells[signStart]);
        r := Some(Text(Concat(lines)));
      }
    case OTHER(_) =>
  }

  method CountBanners(cols: seq<Column>) returns (numBanners: nat)
    ensures numBanners == BannerCount(cols, |cols|)
  {
    numBanners := 0;
    for i := 0 to |cols|
      invariant numBanners == BannerCount(cols, i)
    {
      match cols[i].typ
      case INT => numBanners := numBanners + 1;
      case BOOLEAN => numBanners := numBanners + 1;
      case BIGINT => numBanners := numBanners + 2;
      case _ =>
    }
  }

  lemma {:induction false} CursorsAt(cols: seq<Column>, cells: seq<string>, k: nat, bannerIdx: nat, signStart: nat)
    requires k < |cols| && bannerIdx == BannerCount(cols, k)
    requires signStart == BannerCount(cols, |cols|) + SignCount(cols, k)
    ensures ReadCells(cols, cells)[k] == ReadCell(cols[k].typ, cells, bannerIdx, signStart)
  {
  }

  method DecodeColumns(cells: seq<string>, cols: seq<Column>) returns (row: map<int, Value>)
    ensures row == Collect(cols, ReadCells(cols, cells), |cols|)
  {
    var numBanners := CountBanners(cols);
    row := map[];
    var bannerIdx, signIdx := 0, 0;
    ghost var read := ReadCells(cols, cells);
    for i := 0 to |cols|
      invariant bannerIdx == BannerCount(cols, i) && signIdx == SignCount(cols, i)
      invariant row == Collect(cols, read, i)
    {
      var signStart := numBanners + signIdx;
      var dec := DecodeCell(cols[i].typ, cells, bannerIdx, signStart);
      CursorsAt(cols, cells, i, bannerIdx, signStart);
      if dec.Some? {
        row := row[cols[i].ordinal := dec.value];
      }
      bannerIdx := bannerIdx + BannerWidth(cols[i].typ);
      signIdx := signIdx + SignWidth(cols[i].typ);
    }
  }

  method DecodeStripBlocks(data: seq<string>, cols: seq<Column>) returns (r: Option<Row>)
    ensures r == DecodeStrip(data, cols)
  {
    if |data| < 4 {
      return None;
    }
    var xmin := DecodeInt64(data[0], data[1]);
    if xmin.None? {
      return None;
    }
    var xmax: Option<int> := None;
    if !IsNull(data[2], data[3]) {
      xmax := DecodeInt64(data[2], data[3]);
      if xmax.None? {
        return None;
      }
    }
    var row := DecodeColumns(data[4..], cols);
    r := Some(Row(xmin.value, xmax, row));
  }
}
