/** A crash at any HAL step of InsertRow or MarkDeleted, followed by recovery, leaves every row either
    as it was before the statement or as it is after it. */
module Crash {
  import opened GoText
  import opened World
  import opened Codec
  import opened LogEntry
  import opened Wal
  import opened Recovery
  import opened Layout
  import opened Store
  import opened WriteSequence

  /** The world a crash leaves once `steps` of the sequence's three writes have been made. */
  function CrashWorld(w: Blocks, lsn: int, op: LoggedOp, steps: nat): Blocks {
    if steps == 0 then w
    else if steps == 1 then AfterAppend(w, lsn, op)
    else if steps == 2 then AfterData(w, lsn, op)
    else Finished(w, lsn, op)
  }

  /** A world whose only unsettled entry is the last one, still pending. */
  ghost predicate OnePending(v: Blocks, lsn: int, e: Entry) {
    && lsn >= 1 && AllSettled(v, lsn - 1)
    && Get(v, Lectern(lsn)) == Serialize(e)
    && OneLine(e) && e.status == PENDING && e.newValue != "" && Free(e.newValue, '\n')
    && forall k | k > lsn :: !Logged(v, k)
  }

  lemma {:induction false} OnePendingLength(v: Blocks, lsn: int, e: Entry)
    requires OnePending(v, lsn, e)
    ensures LogLength(v) == lsn
  {
    SerializedIsNotEmpty(e);
    forall k | 1 <= k <= lsn ensures Logged(v, k) {
      assert k < lsn ==> Settled(v, k);
    }
    LogLengthUnique(v, lsn);
  }

  lemma {:induction false} PendingIsHandled(v: Blocks, lsn: int, e: Entry)
    requires OnePending(v, lsn, e) && Replayable(e)
    ensures Handle(v, lsn) == Put(Replay(v, e), Lectern(lsn), Committed(e))
  {
    RoundTrip(e);
  }

  /** Recovery of such a world: replay the entry, commit it, touch nothing else. */
  lemma {:induction false} RecoverOnePending(v: Blocks, lsn: int, e: Entry)
    requires OnePending(v, lsn, e) && Replayable(e)
    ensures Recovered(v) == Put(Replay(v, e), Lectern(lsn), Committed(e))
  {
    OnePendingLength(v, lsn, e);
    SettledIsFixed(v, lsn - 1);
    LastIsHandled(v, lsn);
    PendingIsHandled(v, lsn, e);
  }

  lemma {:induction false} LastIsHandled(v: Blocks, lsn: int)
    requires lsn >= 1 && LogLength(v) == lsn && After(v, lsn - 1) == v
    ensures Recovered(v) == Handle(v, lsn)
  {
    NextAfter(v, v, lsn);
  }

  lemma {:induction false} AppendLeavesOnePending(w: Blocks, lsn: int, op: LoggedOp)
    requires Quiet(w, lsn) && Loggable(op, lsn) && OffLog(op)
    ensures OnePending(AfterAppend(w, lsn, op), lsn, EntryOf(op, lsn, PENDING))
    ensures OnePending(AfterData(w, lsn, op), lsn, EntryOf(op, lsn, PENDING))
  {
    var v, d := AfterAppend(w, lsn, op), AfterData(w, lsn, op);
    SerializedIsNotEmpty(EntryOf(op, lsn, PENDING));
    EntrySurvivesData(w, lsn, op);
    forall k | k >= 1 && k != lsn
      ensures Get(v, Lectern(k)) == Get(w, Lectern(k)) && Get(d, Lectern(k)) == Get(w, Lectern(k))
    {
      assert Lectern(k) != Lectern(lsn);
      PutAllElsewhere(v, op.writes, Lectern(k));
    }
    OtherBooksKept(w, v, lsn);
    OtherBooksKept(w, d, lsn);
  }

  lemma {:induction false} OtherBooksKept(w: Blocks, v: Blocks, lsn: int)
    requires Quiet(w, lsn) && forall k | k >= 1 && k != lsn :: Get(v, Lectern(k)) == Get(w, Lectern(k))
    ensures AllSettled(v, lsn - 1) && forall k | k > lsn :: !Logged(v, k)
  {
    forall i | 1 <= i <= lsn - 1 ensures Settled(v, i) {
      assert Settled(w, i);
      assert Get(v, Lectern(i)) == Get(w, Lectern(i));
    }
    forall k | k > lsn ensures !Logged(v, k) {
      assert !Logged(w, k);
      assert Get(v, Lectern(k)) == Get(w, Lectern(k));
    }
  }

  // ----- INSERT: before the data write nothing happened, from it on everything did -----

  lemma {:induction false} CrashInInsert(w: Blocks, lsn: int, op: LoggedOp, steps: nat, p: Pos)
    requires Quiet(w, lsn) && Loggable(op, lsn) && OffLog(op) && op.op == INSERT
    requires p != Lectern(lsn)
    ensures Get(Recovered(CrashWorld(w, lsn, op, steps)), p)
            == Get(if steps <= 1 then w else Finished(w, lsn, op), p)
  {
    var e := EntryOf(op, lsn, PENDING);
    SerializedIsNotEmpty(e.(status := COMMITTED));
    if steps == 0 {
      QuietLength(w, lsn);
    } else if steps == 1 {
      AppendLeavesOnePending(w, lsn, op);
      RecoverOnePending(AfterAppend(w, lsn, op), lsn, e);
      SerializedIsNotEmpty(e);
    } else if steps == 2 {
      RecoverInsertedData(w, lsn, op);
    } else {
      SequenceKeepsQuiet(w, lsn, op);
      QuietLength(Finished(w, lsn, op), lsn + 1);
    }
  }

  lemma {:induction false} RecoverInsertedData(w: Blocks, lsn: int, op: LoggedOp)
    requires Quiet(w, lsn) && Loggable(op, lsn) && OffLog(op) && op.op == INSERT
    ensures Recovered(AfterData(w, lsn, op)) == Finished(w, lsn, op)
  {
    AppendLeavesOnePending(w, lsn, op);
    RecoverOnePending(AfterData(w, lsn, op), lsn, EntryOf(op, lsn, PENDING));
    SequenceCommits(w, lsn, op);
  }

  // ----- DELETE: once the entry is persisted, recovery completes it -----

  lemma {:induction false} DeleteEntry(pos: Pos, txid: int64, lsn: int)
    ensures var e := EntryOf(DeleteOp(pos, txid), lsn, PENDING);
            e.op == UPDATE_XMAX && ParseInt(e.newValue) == Some(txid) && Replayable(e)
  {
    ParseItoa(txid);
  }

  lemma {:induction false} ReplayedBlocks(v: Blocks, e: Entry, p: Pos)
    requires Replayable(e) && p != Pos(2, e.y, e.z) && p != Pos(3, e.y, e.z)
    ensures Get(Replay(v, e), p) == Get(v, p)
  {
  }

  /** A delete whose entry is persisted, recovered: nothing but the two xmax banners differs from
      before, and storage reads the deleting transaction there. */
  lemma {:induction false} CrashInDelete(w: Blocks, lsn: int, pos: Pos, txid: int64, p: Pos)
    requires Quiet(w, lsn) && Loggable(DeleteOp(pos, txid), lsn) && OffLog(DeleteOp(pos, txid))
    ensures var r := Recovered(AfterAppend(w, lsn, DeleteOp(pos, txid)));
            && (p != Lectern(lsn) && p != Pos(2, pos.y, pos.z) && p != Pos(3, pos.y, pos.z) ==> Get(r, p) == Get(w, p))
            && (XmaxAt(r, pos.y, pos.z) == Some(Some(txid))
                <==> !(txid == -1 && XmaxAt(w, pos.y, pos.z) == Some(None)))
  {
    var op := DeleteOp(pos, txid);
    var e, v := EntryOf(op, lsn, PENDING), AfterAppend(w, lsn, op);
    AppendLeavesOnePending(w, lsn, op);
    DeleteEntry(pos, txid, lsn);
    RecoverOnePending(v, lsn, e);
    SerializedIsNotEmpty(e);
    SerializedIsNotEmpty(e.(status := COMMITTED));
    ReplayedXmax(v, e);
    if p != Pos(2, pos.y, pos.z) && p != Pos(3, pos.y, pos.z) {
      ReplayedBlocks(v, e, p);
    }
  }

  /** After the data write, recovery reaches exactly the finished world. */
  lemma {:induction false} RecoverDeletedData(w: Blocks, lsn: int, pos: Pos, txid: int64)
    requires Quiet(w, lsn) && Loggable(DeleteOp(pos, txid), lsn) && OffLog(DeleteOp(pos, txid))
    ensures Recovered(AfterData(w, lsn, DeleteOp(pos, txid))) == Finished(w, lsn, DeleteOp(pos, txid))
  {
    var op := DeleteOp(pos, txid);
    var e, d := EntryOf(op, lsn, PENDING), AfterData(w, lsn, op);
    AppendLeavesOnePending(w, lsn, op);
    DeleteEntry(pos, txid, lsn);
    RecoverOnePending(d, lsn, e);
    SequenceCommits(w, lsn, op);
    PutTwo(AfterAppend(w, lsn, op), XmaxWrites(pos, txid));
    Int64RoundTrip(txid);
    var (s1, s2) := Int64Banners(txid);
    assert Get(d, Pos(2, pos.y, pos.z)) == s1 && Get(d, Pos(3, pos.y, pos.z)) == s2;
  }

  // ----- what storage reads after the crash -----

  /** Slots of a table never lie on the log. */
  predicate OffLogSlot(m: Meta, ri: int) {
    m.zStart + ri >= 0 && m.stripWidth >= 4
  }

  /** Every slot of every table reads as before the INSERT, or every slot reads as after it. */
  lemma {:induction false} InsertIsAtomic(w: Blocks, lsn: int, op: LoggedOp, steps: nat, m: Meta, ri: int)
    requires Quiet(w, lsn) && Loggable(op, lsn) && OffLog(op) && op.op == INSERT && OffLogSlot(m, ri)
    ensures RowAt(Recovered(CrashWorld(w, lsn, op, steps)), m, ri)
            == RowAt(if steps <= 1 then w else Finished(w, lsn, op), m, ri)
  {
    CrashedBlocks(w, lsn, op, steps);
    OffLogRow(if steps <= 1 then w else Finished(w, lsn, op), Recovered(CrashWorld(w, lsn, op, steps)), m, ri);
  }

  lemma {:induction false} CrashedBlocks(w: Blocks, lsn: int, op: LoggedOp, steps: nat)
    requires Quiet(w, lsn) && Loggable(op, lsn) && OffLog(op) && op.op == INSERT
    ensures forall p: Pos | p.z >= 0 :: Get(Recovered(CrashWorld(w, lsn, op, steps)), p)
                                        == Get(if steps <= 1 then w else Finished(w, lsn, op), p)
  {
    forall p: Pos | p.z >= 0
      ensures Get(Recovered(CrashWorld(w, lsn, op, steps)), p) == Get(if steps <= 1 then w else Finished(w, lsn, op), p)
    {
      CrashInInsert(w, lsn, op, steps, p);
    }
  }

  lemma {:induction false} OffLogRow(w: Blocks, w': Blocks, m: Meta, ri: int)
    requires OffLogSlot(m, ri) && forall p: Pos | p.z >= 0 :: Get(w', p) == Get(w, p)
    ensures RowAt(w', m, ri) == RowAt(w, m, ri)
  {
    forall x | 0 <= x < m.stripWidth ensures BlockAt(w', m, ri, x) == BlockAt(w, m, ri, x) {
    }
    SameStripSameRow(w, w', m, ri);
  }

  lemma {:induction false} DeleteMarksSlot(w: Blocks, lsn: int, pos: Pos, txid: int64, m: Meta, ri: int)
    requires Quiet(w, lsn) && Loggable(DeleteOp(pos, txid), lsn) && OffLog(DeleteOp(pos, txid)) && OffLogSlot(m, ri)
    requires !(txid == -1 && XmaxAt(w, pos.y, pos.z) == Some(None))
    ensures RowAt(Recovered(AfterAppend(w, lsn, DeleteOp(pos, txid))), m, ri)
            == RowAt(Finished(w, lsn, DeleteOp(pos, txid)), m, ri)
  {
    var r, f := Recovered(AfterAppend(w, lsn, DeleteOp(pos, txid))), Finished(w, lsn, DeleteOp(pos, txid));
    forall p: Pos | p.z >= 0 && p != Pos(2, pos.y, pos.z) && p != Pos(3, pos.y, pos.z)
      ensures Get(f, p) == Get(r, p)
    {
      CrashInDelete(w, lsn, pos, txid, p);
      MarkedBlocks(w, lsn, pos, txid, p);
    }
    MarkedXmax(w, lsn, pos, txid);
    CrashInDelete(w, lsn, pos, txid, pos);
    SameUpToXmax(r, f, pos, m, ri);
  }

  /** Worlds that differ only in how one row spells its deleter read the same. */
  lemma {:induction false} SameUpToXmax(r: Blocks, f: Blocks, pos: Pos, m: Meta, ri: int)
    requires OffLogSlot(m, ri)
    requires forall p: Pos | p.z >= 0 && p != Pos(2, pos.y, pos.z) && p != Pos(3, pos.y, pos.z) :: Get(f, p) == Get(r,
                                                                                                                    p)
    requires XmaxAt(r, pos.y, pos.z).Some? && XmaxAt(f, pos.y, pos.z) == XmaxAt(r, pos.y, pos.z)
    ensures RowAt(r, m, ri) == RowAt(f, m, ri)
  {
    if m.yLevel == pos.y && m.zStart + ri == pos.z {
      RowWithXmax(r, f, m, ri);
      WithSameXmax(r, m, ri);
    } else {
      SameStripSameRow(r, f, m, ri);
    }
  }

  lemma {:induction false} MarkedXmax(w: Blocks, lsn: int, pos: Pos, txid: int64)
    requires lsn >= 1 && Loggable(DeleteOp(pos, txid), lsn) && OffLog(DeleteOp(pos, txid))
    ensures XmaxAt(Finished(w, lsn, DeleteOp(pos, txid)), pos.y, pos.z) == Some(Some(txid))
  {
    MarkedBlocks(w, lsn, pos, txid, Pos(2, pos.y, pos.z));
    MarkedBlocks(w, lsn, pos, txid, Pos(3, pos.y, pos.z));
    Int64RoundTrip(txid);
    Int64NeverNull(txid);
  }

  lemma {:induction false} WithSameXmax(w: Blocks, m: Meta, ri: int)
    requires m.stripWidth >= 4 && XmaxAt(w, m.yLevel, m.zStart + ri).Some?
    ensures WithXmax(RowAt(w, m, ri), XmaxAt(w, m.yLevel, m.zStart + ri)) == RowAt(w, m, ri)
  {
  }

  /** The one delete recovery does not complete: transaction -1 over an undeleted row, whose null
      sentinel decodes to -1, stopped between its log entry and its data. */
  predicate LosesDelete(w: Blocks, pos: Pos, txid: int, steps: nat) {
    steps == 1 && txid == -1 && XmaxAt(w, pos.y, pos.z) == Some(None)
  }

  /** The same for a DELETE of one row, by any transaction: stopped at any write and recovered, every
      slot reads as before it or every slot as after it. Once its entry is persisted it is completed,
      but for the one case above. */
  lemma {:induction false} DeleteIsAtomic(w: Blocks, lsn: int, pos: Pos, txid: int64, steps: nat, m: Meta, ri: int)
    requires Quiet(w, lsn) && Loggable(DeleteOp(pos, txid), lsn) && OffLog(DeleteOp(pos, txid)) && OffLogSlot(m, ri)
    ensures RowAt(Recovered(CrashWorld(w, lsn, DeleteOp(pos, txid), steps)), m, ri)
            == RowAt(if steps == 0 || LosesDelete(w, pos, txid, steps) then w else Finished(w, lsn, DeleteOp(pos,
                     txid)),
                     m, ri)
  {
    var op := DeleteOp(pos, txid);
    if steps == 0 {
      QuietLength(w, lsn);
    } else if LosesDelete(w, pos, txid, steps) {
      LostDelete(w, lsn, pos, m, ri);
    } else if steps == 1 {
      DeleteMarksSlot(w, lsn, pos, txid, m, ri);
    } else if steps == 2 {
      RecoverDeletedData(w, lsn, pos, txid);
    } else {
      SequenceKeepsQuiet(w, lsn, op);
      QuietLength(Finished(w, lsn, op), lsn + 1);
    }
  }

  lemma {:induction false} LostDelete(w: Blocks, lsn: int, pos: Pos, m: Meta, ri: int)
    requires Quiet(w, lsn) && Loggable(DeleteOp(pos, -1), lsn) && OffLog(DeleteOp(pos, -1)) && OffLogSlot(m, ri)
    requires XmaxAt(w, pos.y, pos.z) == Some(None)
    ensures RowAt(Recovered(AfterAppend(w, lsn, DeleteOp(pos, -1))), m, ri) == RowAt(w, m, ri)
  {
    var r := Recovered(AfterAppend(w, lsn, DeleteOp(pos, -1)));
    forall p: Pos | p.z >= 0 && p != Pos(2, pos.y, pos.z) && p != Pos(3, pos.y, pos.z) ensures Get(w, p) == Get(r, p) {
      CrashInDelete(w, lsn, pos, -1, p);
    }
    MinusOneIsLost(w, lsn, pos);
    SameUpToXmax(r, w, pos, m, ri);
  }

  /** The exception is real: such a delete, crashed after its log entry, is never carried out. */
  lemma {:induction false} MinusOneIsLost(w: Blocks, lsn: int, pos: Pos)
    requires Quiet(w, lsn) && Loggable(DeleteOp(pos, -1), lsn) && OffLog(DeleteOp(pos, -1))
    requires XmaxAt(w, pos.y, pos.z) == Some(None)
    ensures XmaxAt(Recovered(AfterAppend(w, lsn, DeleteOp(pos, -1))), pos.y, pos.z) == Some(None)
    ensures XmaxAt(Finished(w, lsn, DeleteOp(pos, -1)), pos.y, pos.z) == Some(Some(-1))
  {
    var e, v := EntryOf(DeleteOp(pos, -1), lsn, PENDING), AfterAppend(w, lsn, DeleteOp(pos, -1));
    AppendLeavesOnePending(w, lsn, DeleteOp(pos, -1));
    DeleteEntry(pos, -1, lsn);
    RecoverOnePending(v, lsn, e);
    NullReadsAsMinusOne();
    MarkedXmax(w, lsn, pos, -1);
  }
}
