/** The write sequence of InsertRow and MarkDeleted, block by block. */
module WriteSequence {
  import opened GoText
  import opened World
  import opened Codec
  import opened LogEntry
  import opened Wal
  import opened Recovery
  import opened Layout
  import opened Store

  /** An operation whose entry fits a book: int64 fields, one-line op, a non-empty one-line value. */
  predicate Loggable(op: LoggedOp, lsn: int) {
    OneLine(EntryOf(op, lsn, PENDING)) && op.newValue != "" && Free(op.newValue, '\n')
  }

  /** The data blocks lie off the log's column of lecterns. */
  ghost predicate OffLog(op: LoggedOp) {
    forall i | 0 <= i < |op.writes| :: op.writes[i].pos.x != 0 || op.writes[i].pos.z >= 0
  }

  lemma {:induction false} PutAllElsewhere(w: Blocks, writes: seq<BlockWrite>, p: Pos)
    requires forall i | 0 <= i < |writes| :: writes[i].pos != p
    ensures Get(PutAll(w, writes), p) == Get(w, p)
    decreases |writes|
  {
    if writes != [] {
      PutAllElsewhere(w, writes[..|writes| - 1], p);
    }
  }

  /** The same writes over two worlds that agree at p give worlds that agree at p. */
  lemma {:induction false} PutAllCongruent(w: Blocks, w': Blocks, writes: seq<BlockWrite>, p: Pos)
    requires Get(w', p) == Get(w, p)
    ensures Get(PutAll(w', writes), p) == Get(PutAll(w, writes), p)
    decreases |writes|
  {
    if writes != [] {
      PutAllCongruent(w, w', writes[..|writes| - 1], p);
    }
  }

  lemma {:induction false} EntrySurvivesData(w: Blocks, lsn: int, op: LoggedOp)
    requires lsn >= 1 && OffLog(op)
    ensures Get(AfterData(w, lsn, op), Lectern(lsn)) == Serialize(EntryOf(op, lsn, PENDING))
  {
    SerializedIsNotEmpty(EntryOf(op, lsn, PENDING));
    PutAllElsewhere(AfterAppend(w, lsn, op), op.writes, Lectern(lsn));
  }

  /** Commit finds its own pending entry, so the sequence ends in the committed form of it. */
  lemma {:induction false} SequenceCommits(w: Blocks, lsn: int, op: LoggedOp)
    requires lsn >= 1 && Loggable(op, lsn) && OffLog(op)
    ensures AfterCommit(w, lsn, op)
            == Some(Put(AfterData(w, lsn, op), Lectern(lsn), Serialize(EntryOf(op, lsn, COMMITTED))))
  {
    EntrySurvivesData(w, lsn, op);
    RoundTrip(EntryOf(op, lsn, PENDING));
  }

  /** Off its own lectern, the finished world is the data writes and nothing else. */
  lemma {:induction false} FinishedBlocks(w: Blocks, lsn: int, op: LoggedOp, p: Pos)
    requires lsn >= 1 && Loggable(op, lsn) && OffLog(op) && p != Lectern(lsn)
    ensures Get(Finished(w, lsn, op), p) == Get(PutAll(w, op.writes), p)
  {
    SequenceCommits(w, lsn, op);
    SerializedIsNotEmpty(EntryOf(op, lsn, PENDING));
    SerializedIsNotEmpty(EntryOf(op, lsn, COMMITTED));
    PutAllCongruent(w, AfterAppend(w, lsn, op), op.writes, p);
  }

  lemma {:induction false} CommittedIsInert(e: Entry)
    requires OneLine(e) && e.status == COMMITTED
    ensures Inert(Serialize(e)) && Serialize(e) != ""
  {
    HeaderRoundTrip(e);
    SerializedIsNotEmpty(e);
  }

  lemma {:induction false} FinishedBook(w: Blocks, lsn: int, op: LoggedOp)
    requires lsn >= 1 && Loggable(op, lsn) && OffLog(op)
    ensures Get(Finished(w, lsn, op), Lectern(lsn)) == Serialize(EntryOf(op, lsn, COMMITTED))
  {
    SequenceCommits(w, lsn, op);
    SerializedIsNotEmpty(EntryOf(op, lsn, COMMITTED));
  }

  lemma {:induction false} FinishedSettles(w: Blocks, lsn: int, op: LoggedOp)
    requires lsn >= 1 && Loggable(op, lsn) && OffLog(op)
    ensures Settled(Finished(w, lsn, op), lsn)
  {
    FinishedBook(w, lsn, op);
    CommittedIsInert(EntryOf(op, lsn, COMMITTED));
  }

  // ----- the log between operations -----

  /** Entries 1 to lsn-1 are there and need no recovery; everything beyond is free. */
  ghost predicate Quiet(w: Blocks, lsn: int) {
    && lsn >= 1
    && AllSettled(w, lsn - 1)
    && forall k | k >= lsn :: !Logged(w, k)
  }

  lemma {:induction false} SequenceKeepsQuiet(w: Blocks, lsn: int, op: LoggedOp)
    requires Quiet(w, lsn) && Loggable(op, lsn) && OffLog(op)
    ensures Quiet(Finished(w, lsn, op), lsn + 1)
  {
    var w' := Finished(w, lsn, op);
    FinishedSettles(w, lsn, op);
    forall k | k != lsn && k >= 1 ensures Get(w', Lectern(k)) == Get(w, Lectern(k)) {
      assert Lectern(k) != Lectern(lsn);
      FinishedBlocks(w, lsn, op, Lectern(k));
      PutAllElsewhere(w, op.writes, Lectern(k));
    }
    QuietNext(w, w', lsn);
  }

  lemma {:induction false} QuietNext(w: Blocks, w': Blocks, lsn: int)
    requires Quiet(w, lsn) && Settled(w', lsn)
    requires forall k | k != lsn && k >= 1 :: Get(w', Lectern(k)) == Get(w, Lectern(k))
    ensures Quiet(w', lsn + 1)
  {
    forall i | 1 <= i <= lsn ensures Settled(w', i) {
      if i < lsn {
        assert Settled(w, i);
        assert Get(w', Lectern(i)) == Get(w, Lectern(i));
      }
    }
    forall k | k >= lsn + 1 ensures !Logged(w', k) {
      assert !Logged(w, k);
      assert Get(w', Lectern(k)) == Get(w, Lectern(k));
    }
  }

  lemma {:induction false} QuietLength(w: Blocks, lsn: int)
    requires Quiet(w, lsn)
    ensures LogLength(w) == lsn - 1 && Recovered(w) == w
  {
    forall k | 1 <= k <= lsn - 1 ensures Logged(w, k) {
      assert Settled(w, k);
    }
    LogLengthUnique(w, lsn - 1);
    SettledIsFixed(w, lsn - 1);
  }

  // ----- the two operations are such sequences -----

  lemma {:induction false} AppendIsLoggable(meta: Meta, strip: seq<string>, newValue: string, txid: int64, lsn: int)
    requires newValue != "" && Free(newValue, '\n')
    requires IsInt64(lsn) && IsInt64(meta.id) && IsInt64(meta.yLevel)
    requires 0 <= meta.zStart && IsInt64(meta.zStart + meta.rowCount)
    ensures Loggable(AppendOp(meta, strip, newValue, txid), lsn) && OffLog(AppendOp(meta, strip, newValue, txid))
  {
    StripIsOffLog(strip, meta.yLevel, meta.zStart + meta.rowCount);
  }

  lemma {:induction false} StripIsOffLog(strip: seq<string>, y: int, z: int)
    requires z >= 0
    ensures forall i | 0 <= i < |StripWrites(strip, y, z)| :: StripWrites(strip, y, z)[i].pos.z >= 0
  {
  }

  lemma {:induction false} DeleteIsLoggable(pos: Pos, txid: int64, lsn: int)
    requires IsInt64(lsn) && IsInt64(pos.x) && IsInt64(pos.y) && IsInt64(pos.z) && pos.z >= 0
    ensures Loggable(DeleteOp(pos, txid), lsn) && OffLog(DeleteOp(pos, txid))
  {
    ItoaFree(txid, '\n');
  }

  /** The blocks after a finished INSERT: the new strip, and everything else off the new lectern as before. */
  lemma {:induction false} InsertedBlocks(w: Blocks, lsn: int, meta: Meta, strip: seq<string>, newValue: string,
                                          txid: int64, p: Pos)
    requires lsn >= 1 && p != Lectern(lsn)
    requires var op := AppendOp(meta, strip, newValue, txid); Loggable(op, lsn) && OffLog(op)
    ensures Get(Finished(w, lsn, AppendOp(meta, strip, newValue, txid)), p)
            == if p.y == meta.yLevel && p.z == meta.zStart + meta.rowCount && 0 <= p.x < |strip|
               then strip[p.x] else Get(w, p)
  {
    FinishedBlocks(w, lsn, AppendOp(meta, strip, newValue, txid), p);
    PutStrip(w, strip, meta.yLevel, meta.zStart + meta.rowCount);
  }

  /** The blocks after a finished delete: two banners, and everything else off the new lectern as before. */
  lemma {:induction false} MarkedBlocks(w: Blocks, lsn: int, pos: Pos, txid: int64, p: Pos)
    requires lsn >= 1 && p != Lectern(lsn)
    requires Loggable(DeleteOp(pos, txid), lsn) && OffLog(DeleteOp(pos, txid))
    ensures Get(Finished(w, lsn, DeleteOp(pos, txid)), p)
            == var (s1, s2) := Int64Banners(txid);
               if p == Pos(2, pos.y, pos.z) then s1 else if p == Pos(3, pos.y, pos.z) then s2 else Get(w, p)
  {
    FinishedBlocks(w, lsn, DeleteOp(pos, txid), p);
    PutTwo(w, XmaxWrites(pos, txid));
  }

  // ----- rows depend on their own strip only -----

  function BlockAt(w: Blocks, m: Meta, ri: int, x: int): string {
    Get(w, Pos(x, m.yLevel, m.zStart + ri))
  }

  ghost predicate SameStrip(w: Blocks, w': Blocks, m: Meta, ri: int) {
    forall x | 0 <= x < m.stripWidth :: BlockAt(w', m, ri, x) == BlockAt(w, m, ri, x)
  }

  lemma {:induction false} SameStripSameRow(w: Blocks, w': Blocks, m: Meta, ri: int)
    requires SameStrip(w, w', m, ri)
    ensures RowAt(w', m, ri) == RowAt(w, m, ri)
  {
    SameStripSameData(w, w', m, ri);
  }

  lemma {:induction false} SameStripSameData(w: Blocks, w': Blocks, m: Meta, ri: int)
    requires SameStrip(w, w', m, ri)
    ensures ReadStrip(w', m.stripWidth, m.yLevel, m.zStart + ri) == ReadStrip(w, m.stripWidth, m.yLevel, m.zStart + ri)
  {
    var data' := ReadStrip(w', m.stripWidth, m.yLevel, m.zStart + ri);
    forall x | 0 <= x < m.stripWidth ensures data'[x] == Get(w, Pos(x, m.yLevel, m.zStart + ri)) {
      assert BlockAt(w', m, ri, x) == BlockAt(w, m, ri, x);
    }
  }

  /** Outside the xmax banners the strips agree. */
  ghost predicate SameButXmax(w: Blocks, w': Blocks, m: Meta, ri: int) {
    forall x | 0 <= x < m.stripWidth && x != 2 && x != 3 :: BlockAt(w', m, ri, x) == BlockAt(w, m, ri, x)
  }

  function WithXmax(r: Option<Row>, xmax: Option<Option<int>>): (r': Option<Row>) {
    if r.None? || xmax.None? then None else Some(r.value.(xmax := xmax.value))
  }

  lemma {:induction false} DecodeWithXmax(data: seq<string>, data': seq<string>, cols: seq<Column>)
    requires |data| == |data'| >= 4 && data[..2] == data'[..2] && data[4..] == data'[4..]
    requires ReadXmax(data[2], data[3]).Some?
    ensures DecodeStrip(data', cols) == WithXmax(DecodeStrip(data, cols), ReadXmax(data'[2], data'[3]))
  {
    assert data[0] == data[..2][0] && data[1] == data[..2][1];
    assert data'[0] == data'[..2][0] && data'[1] == data'[..2][1];
  }

  lemma {:induction false} SameButXmaxData(w: Blocks, w': Blocks, m: Meta, ri: int)
    requires m.stripWidth >= 4 && SameButXmax(w, w', m, ri)
    ensures var z := m.zStart + ri;
            var data, data' := ReadStrip(w, m.stripWidth, m.yLevel, z), ReadStrip(w', m.stripWidth, m.yLevel, z);
            && data[..2] == data'[..2] && data[4..] == data'[4..]
            && ReadXmax(data[2], data[3]) == XmaxAt(w, m.yLevel, z)
            && ReadXmax(data'[2], data'[3]) == XmaxAt(w', m.yLevel, z)
  {
    var data := ReadStrip(w, m.stripWidth, m.yLevel, m.zStart + ri);
    var data' := ReadStrip(w', m.stripWidth, m.yLevel, m.zStart + ri);
    forall x | 0 <= x < m.stripWidth && x != 2 && x != 3 ensures data'[x] == data[x] {
      assert BlockAt(w', m, ri, x) == BlockAt(w, m, ri, x);
    }
  }

  /** Then the row is the same up to its deleter. */
  lemma {:induction false} RowWithXmax(w: Blocks, w': Blocks, m: Meta, ri: int)
    requires m.stripWidth >= 4 && SameButXmax(w, w', m, ri) && XmaxAt(w, m.yLevel, m.zStart + ri).Some?
    ensures RowAt(w', m, ri) == WithXmax(RowAt(w, m, ri), XmaxAt(w', m.yLevel, m.zStart + ri))
  {
    SameButXmaxData(w, w', m, ri);
    RowOfData(w, w', m, ri, ReadStrip(w, m.stripWidth, m.yLevel, m.zStart + ri),
              ReadStrip(w', m.stripWidth, m.yLevel, m.zStart + ri));
  }

  lemma {:induction false} RowOfData(w: Blocks, w': Blocks, m: Meta, ri: int, data: seq<string>, data': seq<string>)
    requires data == ReadStrip(w, m.stripWidth, m.yLevel, m.zStart + ri)
    requires data' == ReadStrip(w', m.stripWidth, m.yLevel, m.zStart + ri)
    requires |data| == |data'| >= 4 && data[..2] == data'[..2] && data[4..] == data'[4..]
    requires ReadXmax(data[2], data[3]).Some?
    ensures RowAt(w', m, ri) == WithXmax(RowAt(w, m, ri), ReadXmax(data'[2], data'[3]))
  {
    RowOfRead(w, m, ri, data);
    RowOfRead(w', m, ri, data');
    DecodeWithXmax(data, data', m.columns);
  }

  lemma {:induction false} RowOfRead(w: Blocks, m: Meta, ri: int, data: seq<string>)
    requires data == ReadStrip(w, m.stripWidth, m.yLevel, m.zStart + ri)
    ensures RowAt(w, m, ri) == DecodeStrip(data, m.columns)
  {
  }
}
