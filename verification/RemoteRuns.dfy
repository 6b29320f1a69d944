/** The engine over the plugin: after every writing request of a run the client sees the world the block
    store has, exactly when no INSERT of the run is cut inside a character. */
module RemoteRuns {
  import opened GoText
  import opened World
  import opened Codec
  import opened LogEntry
  import opened Wal
  import opened Layout
  import opened Store
  import opened WriteSequence
  import opened Query
  import opened Refine
  import opened Streaming
  import opened Engine
  import opened CrashRuns
  import opened ByteSeq
  import opened Utf8
  import opened Plugin
  import opened Remote
  import opened Sent
  import opened Requests

  // ----- one request -----

  /** Writes of bytes, to different blocks the server keeps, in a packet Java can read. */
  predicate Possible(server: Server, r: Request) {
    match r
    case One(write, kind) => Encodable(server, write) && Receivable(WritePacket(write, kind))
    case Many(writes, kinds) =>
      && |kinds| == |writes| && AllEncodable(server, writes) && Apart(writes)
      && Receivable(BatchWritePacket(server, writes, kinds))
  }

  function PacketOf(server: Server, r: Request): Bytes
    requires Possible(server, r)
  {
    match r
    case One(write, kind) => WritePacket(write, kind)
    case Many(writes, kinds) => BatchWritePacket(server, writes, kinds)
  }

  /** Data the plugin can take and give back. */
  predicate Whole(server: Server, r: Request) {
    match r
    case One(write, kind) => IsBytes(write.data) && Sendable(server, write, kind)
    case Many(writes, kinds) =>
      |kinds| == |writes| && AllEncodable(server, writes) && AllSendable(server, writes, kinds)
  }

  /** What the plugin then keeps; None unless it answers ACK. */
  function Relay(server: Server, k: Kept, r: Request): (k': Option<Kept>)
    requires Possible(server, r)
  {
    var s := ServeWrites(server, k, PacketOf(server, r));
    if s.None? || !s.value.ok then None else Some(s.value.world)
  }

  /** The client sees this world. */
  predicate Mirrors(k: Option<Kept>, w: Blocks) {
    k.Some? && View(k.value) == w
  }

  lemma {:induction false} RequestArrives(server: Server, k: Kept, r: Request)
    requires Possible(server, r)
    ensures Mirrors(Relay(server, k, r), PutAll(View(k), Writes(r))) <==> Whole(server, r)
  {
    match r
    case One(write, kind) =>
      PutOne(View(k), write);
      RemoteBlockSurvives(server, k, write, kind);
      PutThenGet(View(k), write);
    case Many(writes, kinds) => RemoteBatchWrite(server, k, writes, kinds);
  }

  lemma {:induction false} PutThenGet(w: Blocks, one: BlockWrite)
    ensures Get(Put(w, one.pos, one.data), one.pos) == one.data
  {
  }

  // ----- a sequence of requests -----

  function Possibly(server: Server): Request -> bool {
    (r: Request) => Possible(server, r)
  }

  function Wholly(server: Server): Request -> bool {
    (r: Request) => Whole(server, r)
  }

  predicate AllPossible(server: Server, rs: seq<Request>) {
    All(Possibly(server), rs)
  }

  predicate AllWhole(server: Server, rs: seq<Request>) {
    All(Wholly(server), rs)
  }

  /** What the plugin keeps after the first n requests. */
  function Relayed(server: Server, k: Kept, rs: seq<Request>, n: nat): (k': Option<Kept>)
    requires n <= |rs| && AllPossible(server, rs)
  {
    if n == 0 then Some(k)
    else
      var before := Relayed(server, k, rs, n - 1);
      if before.None? then None else Relay(server, before.value, rs[n - 1])
  }

  /** The world behind the first n requests. */
  function WorldAfter(w: Blocks, rs: seq<Request>, n: nat): Blocks
    requires n <= |rs|
  {
    Performed(w, rs[..n])
  }

  lemma {:induction false} WorldNext(w: Blocks, rs: seq<Request>, n: nat)
    requires n < |rs|
    ensures WorldAfter(w, rs, n + 1) == PutAll(WorldAfter(w, rs, n), Writes(rs[n]))
  {
    assert rs[..n + 1] == rs[..n] + [rs[n]];
    FoldOne(Perform(), w, rs[..n], rs[n]);
  }

  /** What the client sees behind each of the first requests is the world of the block store. */
  ghost function Mirrored(server: Server, k: Kept, rs: seq<Request>): nat -> bool
    requires AllPossible(server, rs)
  {
    (i: nat) => i <= |rs| && Mirrors(Relayed(server, k, rs, i), WorldAfter(View(k), rs, i))
  }

  ghost predicate MirrorsAll(server: Server, k: Kept, rs: seq<Request>)
    requires AllPossible(server, rs)
  {
    forall i: nat | i <= |rs| :: Mirrored(server, k, rs)(i)
  }

  lemma {:induction false} MirroredNext(server: Server, k: Kept, rs: seq<Request>, n: nat)
    requires n < |rs| && AllPossible(server, rs)
    ensures Decides(Mirrored(server, k, rs), Wholly(server), rs, n)
  {
    if Mirrors(Relayed(server, k, rs, n), WorldAfter(View(k), rs, n)) {
      MirrorsNext(server, k, rs, n);
    }
  }

  /** Request by request: all are mirrored exactly when all are whole. */
  lemma {:induction false} MirrorsWhole(server: Server, k: Kept, rs: seq<Request>)
    requires AllPossible(server, rs)
    ensures MirrorsAll(server, k, rs) <==> AllWhole(server, rs)
  {
    forall n: nat | n < |rs| ensures Decides(Mirrored(server, k, rs), Wholly(server), rs, n) {
      MirroredNext(server, k, rs, n);
    }
    MirroredFirst(server, k, rs);
    DecidesAll(Mirrored(server, k, rs), Wholly(server), rs, |rs|);
  }

  lemma {:induction false} MirroredFirst(server: Server, k: Kept, rs: seq<Request>)
    requires AllPossible(server, rs)
    ensures Mirrored(server, k, rs)(0)
  {
    assert rs[..0] == [];
  }

  lemma {:induction false} MirrorsNext(server: Server, k: Kept, rs: seq<Request>, n: nat)
    requires n < |rs| && AllPossible(server, rs) && Mirrors(Relayed(server, k, rs, n), WorldAfter(View(k), rs, n))
    ensures Mirrors(Relayed(server, k, rs, n + 1), WorldAfter(View(k), rs, n + 1)) <==> Whole(server, rs[n])
  {
    WorldNext(View(k), rs, n);
    RelayedNext(server, k, rs, n);
    RequestArrives(server, Relayed(server, k, rs, n).value, rs[n]);
  }

  lemma {:induction false} RelayedNext(server: Server, k: Kept, rs: seq<Request>, n: nat)
    requires n < |rs| && AllPossible(server, rs) && Relayed(server, k, rs, n).Some?
    ensures Possible(server, rs[n])
    ensures Relayed(server, k, rs, n + 1) == Relay(server, Relayed(server, k, rs, n).value, rs[n])
  {
  }

  // ----- the requests of a statement -----

  lemma {:induction false} ThreeWhole(server: Server, a: Request, b: Request, c: Request)
    ensures AllPossible(server, [a] + [b] + [c]) ==> Possible(server, a) && Possible(server, b) && Possible(server, c)
    ensures AllWhole(server, [a] + [b] + [c]) <==> Whole(server, a) && Whole(server, b) && Whole(server, c)
  {
    var rs := [a] + [b] + [c];
    assert rs[0] == a && rs[1] == b && rs[2] == c;
  }

  lemma {:induction false} WholeBook(server: Server, lsn: int, book: string)
    ensures Whole(server, BookRequest(lsn, book)) <==> Utf8Text(book)
  {
  }

  lemma {:induction false} TagsAreAscii(status: string, op: string)
    requires (status == PENDING || status == COMMITTED) && (op == INSERT || op == UPDATE_XMAX)
    ensures AsciiText(status) && AsciiText(op)
  {
  }

  lemma {:induction false} BookWhole(server: Server, op: LoggedOp, lsn: int, status: string, r: Request)
    requires r == BookRequest(lsn, Serialize(EntryOf(op, lsn, status)))
    requires (status == PENDING || status == COMMITTED) && (op.op == INSERT || op.op == UPDATE_XMAX)
    ensures Whole(server, r) <==> AllUtf8(Chunks(op.newValue))
  {
    TagsAreAscii(status, op.op);
    BookSurvives(EntryOf(op, lsn, status));
    WholeBook(server, lsn, Serialize(EntryOf(op, lsn, status)));
  }

  /** The three requests of a logged operation: its two books differ in the status alone. */
  lemma {:induction false} OpParts(w: Blocks, lsn: int, op: LoggedOp, kinds: seq<byte>) returns (a: Request, c: Request)
    requires lsn >= 1 && Loggable(op, lsn) && OffLog(op)
    ensures OpRequests(w, lsn, op, kinds) == [a] + [Many(op.writes, kinds)] + [c]
    ensures a == BookRequest(lsn, Serialize(EntryOf(op, lsn, PENDING)))
    ensures c == BookRequest(lsn, Serialize(EntryOf(op, lsn, COMMITTED)))
  {
    SequenceCommits(w, lsn, op);
    SerializedIsNotEmpty(EntryOf(op, lsn, COMMITTED));
    a := BookRequest(lsn, Serialize(EntryOf(op, lsn, PENDING)));
    c := BookRequest(lsn, Serialize(EntryOf(op, lsn, COMMITTED)));
  }

  lemma {:induction false} PartsWhole(server: Server, w: Blocks, lsn: int, op: LoggedOp, kinds: seq<byte>)
    returns (a: Request, c: Request)
    requires lsn >= 1 && Loggable(op, lsn) && OffLog(op) && (op.op == INSERT || op.op == UPDATE_XMAX)
    ensures OpRequests(w, lsn, op, kinds) == [a] + [Many(op.writes, kinds)] + [c]
    ensures Whole(server, a) <==> AllUtf8(Chunks(op.newValue))
    ensures Whole(server, c) <==> AllUtf8(Chunks(op.newValue))
  {
    a, c := OpParts(w, lsn, op, kinds);
    BookWhole(server, op, lsn, PENDING, a);
    BookWhole(server, op, lsn, COMMITTED, c);
  }

  lemma {:induction false} OpWhole(server: Server, w: Blocks, lsn: int, op: LoggedOp, kinds: seq<byte>)
    requires lsn >= 1 && Loggable(op, lsn) && OffLog(op) && (op.op == INSERT || op.op == UPDATE_XMAX)
    ensures var data, rs := Many(op.writes, kinds), OpRequests(w, lsn, op, kinds);
            && (AllPossible(server, rs) ==> Possible(server, data))
            && (AllWhole(server, rs) <==> AllUtf8(Chunks(op.newValue)) && Whole(server, data))
  {
    var a, c := PartsWhole(server, w, lsn, op, kinds);
    ThreeWhole(server, a, Many(op.writes, kinds), c);
  }

  /** An INSERT's texts: no character is cut by a line of a sign, nor by a page of the log entry. */
  ghost predicate Uncut(json: Json, cols: seq<Column>, values: Values) {
    WholeLines(cols, values) && AllUtf8(Chunks(json.marshal(values)))
  }

  /** Possible requests arrive whole exactly under this condition; sealed. */
  ghost predicate WholeIf(server: Server, rs: seq<Request>, condition: bool) {
    forall b {:trigger Open(OfInsert, b)} :: Open(OfInsert, b) ==>
      (AllPossible(server, rs) ==> (AllWhole(server, rs) <==> condition))
  }

  lemma {:induction false} InsertIsLogged(db: DB, ts: Tables, json: Json, name: string, values: Values, txid: int64)
    requires Writable(json) && Represents(db, ts, json) && Fits(db, 1) && name in db.tables
    ensures var op := InsertOp(db.tables[name], values, txid, json);
            db.nextLSN >= 1 && Loggable(op, db.nextLSN) && OffLog(op)
  {
    MarshalIsOneLine(json, values);
    InsertLoggable(db, ts, json, name, Strip(db.tables[name].columns, values, txid), json.marshal(values), txid);
  }

  lemma {:induction false} InsertWhole(server: Server, w: Blocks, lsn: int, meta: Meta, json: Json, values: Values,
                                       txid: int64)
    requires var op := InsertOp(meta, values, txid, json); lsn >= 1 && Loggable(op, lsn) && OffLog(op)
    ensures WholeIf(server, OpRequests(w, lsn, InsertOp(meta, values, txid, json), StripKinds(meta.columns)),
                    Uncut(json, meta.columns, values))
  {
    AppendWhole(server, w, lsn, InsertOp(meta, values, txid, json), json, meta.columns, values, txid,
                meta.yLevel, meta.zStart + meta.rowCount);
  }

  lemma {:induction false} AppendWhole(server: Server, w: Blocks, lsn: int, op: LoggedOp, json: Json,
                                       cols: seq<Column>, values: Values, txid: int, y: int, z: int)
    requires lsn >= 1 && Loggable(op, lsn) && OffLog(op) && op.op == INSERT
    requires op.writes == StripWrites(Strip(cols, values, txid), y, z) && op.newValue == json.marshal(values)
    ensures WholeIf(server, OpRequests(w, lsn, op, StripKinds(cols)), Uncut(json, cols, values))
  {
    OpWhole(server, w, lsn, op, StripKinds(cols));
    if Possible(server, Many(op.writes, StripKinds(cols))) {
      OpUncut(server, op, json, cols, values, txid, y, z, OpRequests(w, lsn, op, StripKinds(cols)));
    }
  }

  lemma {:induction false} OpUncut(server: Server, op: LoggedOp, json: Json, cols: seq<Column>, values: Values,
                                   txid: int, y: int, z: int, rs: seq<Request>)
    requires op.writes == StripWrites(Strip(cols, values, txid), y, z) && op.newValue == json.marshal(values)
    requires Possible(server, Many(op.writes, StripKinds(cols)))
    requires AllWhole(server, rs) <==> AllUtf8(Chunks(op.newValue)) && Whole(server, Many(op.writes, StripKinds(cols)))
    ensures AllWhole(server, rs) <==> Uncut(json, cols, values)
  {
    StripWhole(server, cols, values, txid, y, z, op.writes);
  }

  lemma {:induction false} StripWhole(server: Server, cols: seq<Column>, values: Values, txid: int, y: int, z: int,
                                      writes: seq<BlockWrite>)
    requires writes == StripWrites(Strip(cols, values, txid), y, z)
    ensures Possible(server, Many(writes, StripKinds(cols))) ==>
              (Whole(server, Many(writes, StripKinds(cols))) <==> WholeLines(cols, values))
  {
    if AllEncodable(server, writes) {
      InsertSendable(server, cols, values, txid, y, z);
    }
  }

  /** Where the executor finds rows. */
  predicate InTables(p: Pos) {
    p.x == 0 && p.y == TABLE_Y && 0 <= p.z && IsInt64(p.z)
  }

  lemma {:induction false} MarkWhole(server: Server, m: Marks, pos: Pos, txid: int64)
    requires 1 <= m.lsn && IsInt64(m.lsn) && InTables(pos)
    ensures AllPossible(server, MarkRequests(m, pos, txid)) ==> AllWhole(server, MarkRequests(m, pos, txid))
  {
    if m.ok && HasXmax(m.world, pos) && AllPossible(server, MarkRequests(m, pos, txid)) {
      var op := DeleteOp(pos, txid);
      DeleteIsLoggable(pos, txid, m.lsn);
      OpWhole(server, m.world, m.lsn, op, [BANNER, BANNER]);
      XmaxSendable(server, pos, txid);
      ItoaIsAscii(txid);
      AsciiChunks(op.newValue, 0);
    }
  }

  ghost predicate AtMark(p: Request -> bool, q: Request -> bool, w: Blocks, lsn: int, rows: seq<Scanned>, txid: int,
                         i: nat)
    requires i < |rows|
  {
    forall b {:trigger Open(OfMark, b)} :: Open(OfMark, b) ==>
      var rs := MarkRequests(MarkAll(w, lsn, rows, txid, i), rows[i].pos, txid); All(p, rs) ==> All(q, rs)
  }

  ghost predicate ToMark(p: Request -> bool, q: Request -> bool, w: Blocks, lsn: int, rows: seq<Scanned>, txid: int,
                         n: nat)
    requires n <= |rows|
  {
    forall b {:trigger Open(OfMark, b)} :: Open(OfMark, b) ==>
      var rs := MarkAllRequests(w, lsn, rows, txid, n); All(p, rs) ==> All(q, rs)
  }

  ghost function Implied(p: Request -> bool, q: Request -> bool, w: Blocks, lsn: int, rows: seq<Scanned>, txid: int)
    : nat -> bool
  {
    (k: nat) => k <= |rows| ==> ToMark(p, q, w, lsn, rows, txid, k)
  }

  /** What holds of the requests of each mark holds of all. */
  lemma {:induction false} MarksImply(p: Request -> bool, q: Request -> bool, w: Blocks, lsn: int, rows: seq<Scanned>,
                                      txid: int)
    requires forall i: nat | i < |rows| :: AtMark(p, q, w, lsn, rows, txid, i)
    ensures ToMark(p, q, w, lsn, rows, txid, |rows|)
  {
    forall k: nat | k < |rows| ensures Carries(Implied(p, q, w, lsn, rows, txid), k) {
      NextMarkImplies(p, q, w, lsn, rows, txid, k);
    }
    NoMarkImplies(p, q, w, lsn, rows, txid);
    CountUp(Implied(p, q, w, lsn, rows, txid), |rows|);
  }

  lemma {:induction false} NoMarkImplies(p: Request -> bool, q: Request -> bool, w: Blocks, lsn: int,
                                         rows: seq<Scanned>, txid: int)
    ensures Implied(p, q, w, lsn, rows, txid)(0)
  {
  }

  lemma {:induction false} NextMarkImplies(p: Request -> bool, q: Request -> bool, w: Blocks, lsn: int,
                                           rows: seq<Scanned>, txid: int, n: nat)
    requires n < |rows| && AtMark(p, q, w, lsn, rows, txid, n)
    ensures Carries(Implied(p, q, w, lsn, rows, txid), n)
  {
    if ToMark(p, q, w, lsn, rows, txid, n) {
      OneMoreMark(p, q, w, lsn, rows, txid, n, MarkRequests(MarkAll(w, lsn, rows, txid, n), rows[n].pos, txid));
    }
  }

  lemma {:induction false} OneMoreMark(p: Request -> bool, q: Request -> bool, w: Blocks, lsn: int, rows: seq<Scanned>,
                                       txid: int, n: nat, more: seq<Request>)
    requires n < |rows| && ToMark(p, q, w, lsn, rows, txid, n) && AtMark(p, q, w, lsn, rows, txid, n)
    requires more == MarkRequests(MarkAll(w, lsn, rows, txid, n), rows[n].pos, txid)
    ensures ToMark(p, q, w, lsn, rows, txid, n + 1)
  {
    assert Open(OfMark, true);
    AllImply(p, q, MarkAllRequests(w, lsn, rows, txid, n), more);
    MarkRequestsNext(w, lsn, rows, txid, n);
  }

  lemma {:induction false} MarkRequestsNext(w: Blocks, lsn: int, rows: seq<Scanned>, txid: int, n: nat)
    requires n < |rows|
    ensures MarkAllRequests(w, lsn, rows, txid, n + 1)
            == MarkAllRequests(w, lsn, rows, txid, n)
               + MarkRequests(MarkAll(w, lsn, rows, txid, n), rows[n].pos, txid)
  {
  }

  lemma {:induction false} AllImply<T>(p: T -> bool, q: T -> bool, a: seq<T>, b: seq<T>)
    requires (All(p, a) ==> All(q, a)) && (All(p, b) ==> All(q, b))
    ensures All(p, a + b) ==> All(q, a + b)
  {
    AllBoth(p, a, b);
    AllBoth(q, a, b);
  }

  lemma {:induction false} MarksWhole(server: Server, w: Blocks, lsn: int, rows: seq<Scanned>, txid: int64)
    requires 1 <= lsn && IsInt64(lsn + |rows|) && forall i | 0 <= i < |rows| :: InTables(rows[i].pos)
    ensures WholeIf(server, MarkAllRequests(w, lsn, rows, txid, |rows|), true)
  {
    forall i: nat | i < |rows|
      ensures AtMark(Possibly(server), Wholly(server), w, lsn, rows, txid, i)
    {
      DeleteFootprint(w, lsn, rows, txid, i, Pos(1, 0, 0));
      MarkWhole(server, MarkAll(w, lsn, rows, txid, i), rows[i].pos, txid);
    }
    MarksImply(Possibly(server), Wholly(server), w, lsn, rows, txid);
    assert Open(OfMark, true);
  }

  lemma {:induction false} MatchingPlaces(w: Blocks, meta: Meta, keep: Row -> bool, txid: int, n: nat, last: int)
    requires meta.yLevel == TABLE_Y && 0 <= meta.zStart && meta.zStart + n <= last <= MAX_INT64
    ensures var ms := Matching(w, meta, keep, txid, n);
            && |ms| <= n
            && forall i | 0 <= i < |ms| :: InTables(ms[i].pos)
  {
    if n > 0 {
      MatchingPlaces(w, meta, keep, txid, n - 1, last);
    }
  }

  /** Nothing is cut but by an INSERT. */
  ghost predicate UncutStatement(json: Json, ts: Tables, stmt: Stmt) {
    stmt.InsertStmt? && stmt.table in ts.byName ==>
      var cols := ts.byName[stmt.table].columns; Uncut(json, cols, InsertValues(cols, stmt.names, stmt.values))
  }

  /** JSON text is UTF-8. */
  ghost predicate Utf8Json(json: Json) {
    forall r :: Utf8Text(json.encode(r))
  }

  /** The requests of a statement arrive whole exactly when no text of an INSERT is cut. */
  lemma {:induction false} StatementWhole(server: Server, db: DB, ts: Tables, json: Json, floats: Floats, stmt: Stmt,
                                          txid: int64)
    requires Writable(json) && Utf8Json(json) && Represents(db, ts, json) && Fits(db, SPACING)
    ensures WholeIf(server, ExecRequests(db, json, floats, stmt, txid), UncutStatement(json, ts, stmt))
  {
    if !stmt.Unsupported? && stmt.table in db.tables {
      var meta := db.tables[stmt.table];
      SameColumns(db, ts, json, stmt.table);
      match stmt
      case InsertStmt(table, names, values) =>
        InsertIsLogged(db, ts, json, table, InsertValues(meta.columns, names, values), txid);
        InsertWhole(server, db.world, db.nextLSN, meta, json, InsertValues(meta.columns, names, values), txid);
      case DeleteStmt(table, where) =>
        PlacedFields(db, ts, json, table);
        var keep := Keep(meta.columns, where, floats);
        MatchingPlaces(db.world, meta, keep, txid, meta.rowCount, meta.zStart + meta.rowCount);
        var ms := Matching(db.world, meta, keep, txid, meta.rowCount);
        MarksWhole(server, db.world, db.nextLSN, ms, txid);
      case _ =>
    }
  }

  // ----- whole runs -----

  function StatementRequests(json: Json, floats: Floats, run: seq<Call>): nat -> seq<Request> {
    (c: nat) => if c < |run| then ExecRequests(StoreAfter(json, floats, run, c), json, floats, run[c].stmt, run[c].txid)
                else []
  }

  /** The writing requests of the first n statements. */
  function RunRequests(json: Json, floats: Floats, run: seq<Call>, n: nat): (rs: seq<Request>) {
    Flat(StatementRequests(json, floats, run), n)
  }

  /** They are those of the code: performed on a world without blocks they go through the worlds the run
      goes through. */
  lemma {:induction false} RunIsTraced(json: Json, floats: Floats, run: seq<Call>, n: nat)
    requires n <= |run|
    ensures Performed(map[], RunRequests(json, floats, run, n)) == StoreAfter(json, floats, run, n).world
    ensures TraceOf(map[], RunRequests(json, floats, run, n)) == RunTrace(json, floats, run, n)
  {
    AllTraced(json, floats, run, n);
    assert Open(OfAnswer, true);
  }

  /** World by world. */
  lemma {:induction false} WorldsAreTraced(json: Json, floats: Floats, run: seq<Call>, i: nat)
    requires i < |RunTrace(json, floats, run, |run|)|
    ensures |RunRequests(json, floats, run, |run|)| == |RunTrace(json, floats, run, |run|)|
    ensures WorldAfter(map[], RunRequests(json, floats, run, |run|), i + 1) == RunTrace(json, floats, run, |run|)[i]
  {
    RunIsTraced(json, floats, run, |run|);
    FoldsAt(Perform(), map[], RunRequests(json, floats, run, |run|), i);
  }

  lemma {:induction false} AllTraced(json: Json, floats: Floats, run: seq<Call>, n: nat)
    requires n <= |run|
    ensures TracedTo(json, floats, run, n)
  {
    forall k: nat | k < |run| ensures Carries(Traced(json, floats, run), k) {
      NextTraced(json, floats, run, k);
    }
    NoneTraced(json, floats, run);
    CountUp(Traced(json, floats, run), n);
  }

  ghost predicate TracedTo(json: Json, floats: Floats, run: seq<Call>, n: nat)
    requires n <= |run|
  {
    forall k {:trigger Open(OfAnswer, k)} :: Open(OfAnswer, k) ==>
      && Performed(map[], RunRequests(json, floats, run, n)) == StoreAfter(json, floats, run, n).world
      && TraceOf(map[], RunRequests(json, floats, run, n)) == RunTrace(json, floats, run, n)
  }

  ghost function Traced(json: Json, floats: Floats, run: seq<Call>): nat -> bool {
    (k: nat) => k <= |run| ==> TracedTo(json, floats, run, k)
  }

  lemma {:induction false} NoneTraced(json: Json, floats: Floats, run: seq<Call>)
    ensures Traced(json, floats, run)(0)
  {
  }

  lemma {:induction false} NextRequests(json: Json, floats: Floats, run: seq<Call>, n: nat, db: DB)
    requires n < |run| && db == StoreAfter(json, floats, run, n)
    ensures RunRequests(json, floats, run, n + 1)
            == RunRequests(json, floats, run, n) + ExecRequests(db, json, floats, run[n].stmt, run[n].txid)
  {
    FlatNext(StatementRequests(json, floats, run), n);
  }

  lemma {:induction false} NextTraced(json: Json, floats: Floats, run: seq<Call>, n: nat)
    requires n < |run|
    ensures Carries(Traced(json, floats, run), n)
  {
    if TracedTo(json, floats, run, n) {
      OneMoreTraced(json, floats, run, n, StoreAfter(json, floats, run, n));
    }
  }

  lemma {:induction false} OneMoreTraced(json: Json, floats: Floats, run: seq<Call>, n: nat, db: DB)
    requires n < |run| && TracedTo(json, floats, run, n) && db == StoreAfter(json, floats, run, n)
    ensures TracedTo(json, floats, run, n + 1)
  {
    assert Open(OfAnswer, true);
    NextRequests(json, floats, run, n, db);
    StatementIsTraced(RunRequests(json, floats, run, n), db, json, floats, run[n].stmt, run[n].txid);
    StateAtNext(json, floats, run, n);
    TraceAtNext(json, floats, run, n, db);
    TraceAppends(RunTrace(json, floats, run, n), db, json, floats, run[n].stmt, run[n].txid);
  }

  lemma {:induction false} StatementIsTraced(rs: seq<Request>, db: DB, json: Json, floats: Floats, stmt: Stmt,
                                             txid: int)
    requires Performed(map[], rs) == db.world
    ensures var more := ExecRequests(db, json, floats, stmt, txid);
            && Performed(map[], rs + more) == Exec(db, json, floats, stmt, txid).1.world
            && TraceOf(map[], rs + more) == TraceOf(map[], rs) + ExecTrace([], db, json, floats, stmt, txid)
  {
    RequestsAreTraced(db, json, floats, stmt, txid);
    PerformsMore(map[], rs, ExecRequests(db, json, floats, stmt, txid), db.world);
  }

  lemma {:induction false} StatementOfRunWhole(server: Server, json: Json, floats: Floats, run: seq<Call>, c: nat)
    requires Runnable(json, floats, run) && Utf8Json(json) && c < |run|
    ensures WholeIf(server, StatementRequests(json, floats, run)(c),
                    UncutStatement(json, TablesAfter(floats, run, c), run[c].stmt))
  {
    var db, ts := ReachedAll(json, floats, run, c);
    assert Open(OfRun, true);
    StatementWhole(server, db, ts, json, floats, run[c].stmt, run[c].txid);
  }

  /** The engine over the plugin: behind every writing request of a run from an empty world the plugin has
      answered ACK, and the client sees the world the block store has, if and only if no INSERT of the run
      has a text that is cut inside a character. */
  lemma {:induction false} RunIsMirrored(server: Server, json: Json, floats: Floats, run: seq<Call>)
    requires Runnable(json, floats, run) && Utf8Json(json)
    requires AllPossible(server, RunRequests(json, floats, run, |run|))
    ensures var rs := RunRequests(json, floats, run, |run|);
            MirrorsAll(server, map[], rs)
            <==> forall c: nat | c < |run| :: UncutStatement(json, TablesAfter(floats, run, c), run[c].stmt)
  {
    var rs := RunRequests(json, floats, run, |run|);
    MirrorsWhole(server, map[], rs);
    AllFlat(Possibly(server), StatementRequests(json, floats, run), |run|);
    AllFlat(Wholly(server), StatementRequests(json, floats, run), |run|);
    forall c: nat | c < |run|
      ensures AllWhole(server, StatementRequests(json, floats, run)(c))
              <==> UncutStatement(json, TablesAfter(floats, run, c), run[c].stmt)
    {
      StatementOfRunWhole(server, json, floats, run, c);
      assert Open(OfInsert, true);
    }
  }
}
