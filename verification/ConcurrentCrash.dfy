/** A crash while inserts run concurrently. An LSN is taken under a lock but persisted later, so the log
    can have a gap; recovery stops at the gap, and LSNs behind it are issued again. */
module ConcurrentCrash {
  import opened GoText
  import opened World
  import opened LogEntry
  import opened Wal
  import opened Recovery
  import opened Layout
  import opened Store
  import opened WriteSequence
  import opened Query
  import opened Refine
  import opened Engine
  import opened Vacancy
  import opened Concurrency
  import opened ConcurrentRuns
  import opened ConcurrentScans

  /** An LSN taken and not yet in the log. */
  predicate Unpersisted(th: Thread) {
    th.stage.Issued?
  }

  predicate IsPersisted(th: Thread) {
    HasLsn(th) && !th.stage.Issued?
  }

  /** No call has its entry in the log while one with a smaller LSN has not. */
  predicate GapFree(threads: seq<Thread>) {
    forall i, j | 0 <= i < |threads| && 0 <= j < |threads| && Unpersisted(threads[i]) && IsPersisted(threads[j]) ::
      threads[j].lsn < threads[i].lsn
  }

  /** The next LSN after a crash and a recovery by a fresh log object. */
  ghost function NextAfterCrash(w: Blocks): int {
    LogLength(Recovered(w)) + 1
  }

  /** No entry is where a later statement will write its own. */
  ghost predicate NoneReissued(w: Blocks) {
    forall k | k >= NextAfterCrash(w) :: !Logged(Recovered(w), k)
  }

  lemma {:induction false} PersistedIsLogged(u: Setup, s: Sys, i: nat)
    requires Inv(u, s) && i < |u.jobs| && HasLsn(s.threads[i])
    ensures Logged(s.world, s.threads[i].lsn) <==> IsPersisted(s.threads[i])
  {
    var th, meta, job := s.threads[i], MetaOf(u, i), u.jobs[i];
    assert ThreadOk(s.world, meta, job, th);
    SerializedIsNotEmpty(EntryFor(meta, job, th.z, th.lsn, PENDING));
    SerializedIsNotEmpty(EntryFor(meta, job, th.z, th.lsn, COMMITTED));
  }

  /** Entries from before the concurrent calls are all there. */
  lemma {:induction false} OldEntriesStay(u: Setup, s: Sys)
    requires Inv(u, s)
    ensures forall k | 1 <= k < u.lsn :: Logged(s.world, k)
    ensures LogLength(s.world) >= u.lsn - 1
  {
    forall k | 1 <= k < u.lsn ensures Logged(s.world, k) {
      OldBookKept(u, s, k);
    }
    AtLeast(s.world, u.lsn - 1);
  }

  lemma {:induction false} AtLeast(w: Blocks, n: int)
    requires forall k | 1 <= k <= n :: Logged(w, k)
    ensures LogLength(w) >= n
  {
    LogLengthIsFirstGap(w);
  }

  lemma {:induction false} OwnerOfLsn(u: Setup, s: Sys, k: int) returns (i: nat)
    requires Inv(u, s) && u.lsn <= k < s.nextLSN
    ensures i < |u.jobs| && HasLsn(s.threads[i]) && s.threads[i].lsn == k
  {
    assert IssuedTo(s.threads, k);
    i :| 0 <= i < |s.threads| && HasLsn(s.threads[i]) && s.threads[i].lsn == k;
  }

  /** Without a gap, nothing lies behind the end recovery finds. */
  lemma {:induction false} NothingBehind(u: Setup, s: Sys, k: int)
    requires Inv(u, s) && GapFree(s.threads) && k > LogLength(s.world)
    ensures !Logged(s.world, k)
  {
    OldEntriesStay(u, s);
    LogLengthIsFirstGap(s.world);
    BehindFirst(u, s, LogLength(s.world) + 1, k);
  }

  lemma {:induction false} BehindFirst(u: Setup, s: Sys, end: int, k: int)
    requires Inv(u, s) && GapFree(s.threads) && u.lsn <= end <= k && !Logged(s.world, end)
    ensures !Logged(s.world, k)
  {
    if end < k {
      BehindGap(u, s, end, k);
    }
  }

  lemma {:induction false} BehindGap(u: Setup, s: Sys, end: int, k: int)
    requires Inv(u, s) && GapFree(s.threads) && u.lsn <= end < k && !Logged(s.world, end)
    ensures !Logged(s.world, k)
  {
    if k >= s.nextLSN {
      LaterLecternIsFree(u, s, k);
    } else {
      var j := OwnerOfLsn(u, s, k);
      var i := OwnerOfLsn(u, s, end);
      GapIsEarlier(u, s, i, j);
    }
  }

  lemma {:induction false} GapIsEarlier(u: Setup, s: Sys, i: nat, j: nat)
    requires Inv(u, s) && GapFree(s.threads) && i < |u.jobs| && j < |u.jobs|
    requires HasLsn(s.threads[i]) && HasLsn(s.threads[j]) && s.threads[i].lsn <= s.threads[j].lsn
    requires !Logged(s.world, s.threads[i].lsn)
    ensures !Logged(s.world, s.threads[j].lsn)
  {
    PersistedIsLogged(u, s, j);
    PersistedIsLogged(u, s, i);
  }

  /** With one, something does. */
  lemma {:induction false} SomethingBehind(u: Setup, s: Sys, i: nat, j: nat)
    requires Inv(u, s) && i < |u.jobs| && j < |u.jobs|
    requires Unpersisted(s.threads[i]) && IsPersisted(s.threads[j]) && s.threads[i].lsn <= s.threads[j].lsn
    ensures LogLength(s.world) < s.threads[j].lsn && Logged(s.world, s.threads[j].lsn)
  {
    PersistedIsLogged(u, s, i);
    PersistedIsLogged(u, s, j);
    RangesArePositive(u, s, i);
    LogLengthIsFirstGap(s.world);
  }

  lemma {:induction false} RecoveryKeepsLog(w: Blocks, k: int)
    requires k >= 1
    ensures Logged(Recovered(w), k) <==> Logged(w, k)
    ensures NextAfterCrash(w) == LogLength(w) + 1
  {
    RecoveryIsIdempotent(w);
    AfterKeepsLog(w, LogLength(w), k);
  }

  /** Stop any interleaving at any moment and recover: no persisted LSN is issued again if and only if
      the persisted LSNs had no gap. */
  lemma {:induction false} ReissueAfterCrash(u: Setup, schedule: seq<nat>, n: nat)
    requires BoundedRun(u, schedule) && n <= |schedule|
    ensures NoneReissued(Interleaved(u, schedule, n).world) <==> GapFree(Interleaved(u, schedule, n).threads)
  {
    InvAlways(u, schedule, n);
    ReissueFrom(u, Interleaved(u, schedule, n));
  }

  lemma {:induction false} ReissueFrom(u: Setup, s: Sys)
    requires Inv(u, s)
    ensures NoneReissued(s.world) <==> GapFree(s.threads)
  {
    RecoveryKeepsLog(s.world, 1);
    if GapFree(s.threads) {
      forall k | k >= NextAfterCrash(s.world) ensures !Logged(Recovered(s.world), k) {
        RecoveryKeepsLog(s.world, k);
        NothingBehind(u, s, k);
      }
    } else {
      var i, j :| 0 <= i < |s.threads| && 0 <= j < |s.threads| && Unpersisted(s.threads[i]) && IsPersisted(s.threads[j])
                  && !(s.threads[j].lsn < s.threads[i].lsn);
      SomethingBehind(u, s, i, j);
      RecoveryKeepsLog(s.world, s.threads[j].lsn);
      assert Logged(Recovered(s.world), s.threads[j].lsn);
    }
  }

  // ----- what becomes of the rows -----

  /** A book on which recovery writes no data block. */
  predicate NoDelete(book: string) {
    Inert(book) || Deserialize(book).value.op != UPDATE_XMAX
  }

  lemma {:induction false} HandleSpares(w: Blocks, k: int, book: string, p: Pos)
    requires book == Get(w, Lectern(k)) && NoDelete(book) && p != Lectern(k)
    ensures Get(Handle(w, k), p) == Get(w, p)
  {
  }

  lemma {:induction false} AfterSpares(w: Blocks, k: nat, p: Pos)
    requires k <= LogLength(w) && p.z >= 0
    requires forall n | 1 <= n <= LogLength(w) :: NoDelete(Get(w, Lectern(n)))
    ensures Get(After(w, k), p) == Get(w, p)
  {
    if k > 0 {
      AfterSpares(w, k - 1, p);
      AfterFrame(w, k - 1);
      HandleSpares(After(w, k - 1), k, Get(w, Lectern(k)), p);
    }
  }

  lemma {:induction false} PendingBook(meta: Meta, job: Job, z: int, lsn: int, book: string)
    requires MetaOk(meta) && JobOk(meta, job) && IsInt64(z) && IsInt64(lsn)
    requires book == Serialize(EntryFor(meta, job, z, lsn, PENDING))
    ensures NoDelete(book)
  {
    EntryIsOneLine(meta, job, z, lsn);
  }

  lemma {:induction false} CallBook(u: Setup, s: Sys, i: nat)
    requires Inv(u, s) && i < |u.jobs| && IsPersisted(s.threads[i])
    ensures NoDelete(Get(s.world, Lectern(s.threads[i].lsn)))
  {
    var th, meta, job := s.threads[i], MetaOf(u, i), u.jobs[i];
    if th.stage.Returned? {
      NewBookSettled(u, s, i);
    } else {
      assert ThreadOk(s.world, meta, job, th) && InRange(meta, s.counts[job.table], u.lsn, s.nextLSN, th);
      assert MetaOk(meta) && JobOk(meta, job) && s.counts[job.table] <= SPACING;
      PendingBook(meta, job, th.z, th.lsn, Get(s.world, Lectern(th.lsn)));
    }
  }

  lemma {:induction false} NoDeletes(u: Setup, s: Sys, n: int)
    requires Inv(u, s) && n >= 1 && Logged(s.world, n)
    ensures NoDelete(Get(s.world, Lectern(n)))
  {
    if n < u.lsn {
      OldBookKept(u, s, n);
    } else if n >= s.nextLSN {
      LaterLecternIsFree(u, s, n);
    } else {
      var i := OwnerOfLsn(u, s, n);
      PersistedIsLogged(u, s, i);
      CallBook(u, s, i);
    }
  }

  /** Recovery changes nothing in the table region. */
  lemma {:induction false} RecoverySpares(u: Setup, s: Sys, p: Pos)
    requires Inv(u, s) && p.z >= 0
    ensures Get(Recovered(s.world), p) == Get(s.world, p)
  {
    LogLengthIsFirstGap(s.world);
    forall n | 1 <= n <= LogLength(s.world) ensures NoDelete(Get(s.world, Lectern(n))) {
      NoDeletes(u, s, n);
    }
    AfterSpares(s.world, LogLength(s.world), p);
  }

  lemma {:induction false} RecoveredSlot(u: Setup, s: Sys, meta: Meta, ri: nat)
    requires Inv(u, s) && meta.zStart >= 0
    ensures RowAt(Recovered(s.world), meta, ri) == RowAt(s.world, meta, ri)
  {
    forall p: Pos | p.z >= 0 ensures Get(Recovered(s.world), p) == Get(s.world, p) {
      RecoverySpares(u, s, p);
    }
    SameRegionSameRow(s.world, Recovered(s.world), meta, ri);
  }

  lemma {:induction false} SameRegionSameRow(w: Blocks, w': Blocks, meta: Meta, ri: nat)
    requires meta.zStart >= 0 && forall p: Pos | p.z >= 0 :: Get(w', p) == Get(w, p)
    ensures RowAt(w', meta, ri) == RowAt(w, meta, ri)
  {
    forall x | 0 <= x < meta.stripWidth ensures BlockAt(w', meta, ri, x) == BlockAt(w, meta, ri, x) {
    }
    SameStripSameRow(w, w', meta, ri);
  }

  lemma {:induction false} UntakenSlot(u: Setup, s: Sys, t: nat, ri: nat)
    requires Inv(u, s) && t < |u.metas| && s.counts[t] <= ri < SPACING
    ensures RowAt(s.world, u.metas[t], ri).None?
  {
    var meta := u.metas[t];
    assert MetaOk(meta) && Vacant(u.world, meta, meta.rowCount);
    var z := meta.zStart + ri;
    forall x ensures RowBlock(s.world, z, x) == "" {
      forall i | 0 <= i < |s.threads| ensures !OwnedBy(s.threads[i], Pos(x, TABLE_Y, z)) {
        NotThisCall(u, s, t, ri, x, i);
      }
    }
    NoStripNoRow(s.world, meta, ri);
  }

  lemma {:induction false} NotThisCall(u: Setup, s: Sys, t: nat, ri: nat, x: int, i: nat)
    requires Inv(u, s) && t < |u.metas| && s.counts[t] <= ri < SPACING && i < |u.jobs|
    ensures !OwnedBy(s.threads[i], Pos(x, TABLE_Y, u.metas[t].zStart + ri))
  {
    RangesArePositive(u, s, i);
    assert MetaOk(u.metas[t]) && MetaOk(MetaOf(u, i));
    assert InRange(MetaOf(u, i), s.counts[u.jobs[i].table], u.lsn, s.nextLSN, s.threads[i]);
    assert u.jobs[i].table != t ==> MetaOf(u, i).id != u.metas[t].id;
  }

  /** Stop any interleaving at any moment and recover: every old slot reads as before the calls, every
      call's slot as its whole row or as none, exactly as its strip was written, and no other slot as a
      row. */
  lemma {:induction false} CrashAmongInserts(u: Setup, schedule: seq<nat>, n: nat, json: Json, ins: seq<Insertion>,
                                             t: nat, ri: nat)
    requires BoundedRun(u, schedule) && n <= |schedule| && Inserting(u, ins, json) && t < |u.metas| && ri < SPACING
    ensures RowsGained(u, Interleaved(u, schedule, n), ins)
    ensures var s := Interleaved(u, schedule, n);
            RowAt(Recovered(s.world), u.metas[t], ri) == LiveRow(u, s, ins, t, ri)
  {
    var s := Interleaved(u, schedule, n);
    InvAlways(u, schedule, n);
    InvGains(u, s, ins);
    assert MetaOk(u.metas[t]);
    RecoveredSlot(u, s, u.metas[t], ri);
    if ri < s.counts[t] {
      LiveRowIs(u, s, json, ins, t, ri);
    } else {
      UntakenSlot(u, s, t, ri);
    }
  }

  /** So a run's acknowledged versions survive a crash among the inserts that came after it. */
  lemma {:induction false} OldVersionsSurvive(json: Json, floats: Floats, run: seq<Call>, ins: seq<Insertion>,
                                              schedule: seq<nat>, n: nat, db: DB, ts: Tables, u: Setup, name: string,
                                              ri: nat)
    requires Runnable(json, floats, run) && n <= |schedule|
    requires db == StoreAfter(json, floats, run, |run|) && ts == TablesAfter(floats, run, |run|)
    requires Numbered(db.tables, ts.order) && TablesExist(ts.order, ins) && u == SetupOf(db, ts.order, json, ins)
    requires forall k | 0 <= k < |schedule| :: schedule[k] < |ins|
    requires forall k | 0 <= k <= |schedule| :: Bounded(Interleaved(u, schedule, k))
    requires name in ts.byName && ri < |ts.byName[name].rows|
    ensures name in db.tables
    ensures RowAt(Recovered(Interleaved(u, schedule, n).world), db.tables[name], ri) == Some(ts.byName[name].rows[ri])
  {
    RunBegins(json, floats, run, ins, db, ts, u);
    var t := TableNumber(db, ts, json, ins, u, name);
    CrashAmongInserts(u, schedule, n, json, ins, t, ri);
    DecodesTo(db.world, db.tables[name], ri, ts.byName[name].rows[ri]);
    assert Decodes(db.world, db.tables[name], ri, ts.byName[name].rows[ri]);
  }

  lemma {:induction false} RunBegins(json: Json, floats: Floats, run: seq<Call>, ins: seq<Insertion>, db: DB,
                                     ts: Tables, u: Setup)
    requires Runnable(json, floats, run)
    requires db == StoreAfter(json, floats, run, |run|) && ts == TablesAfter(floats, run, |run|)
    requires Numbered(db.tables, ts.order) && TablesExist(ts.order, ins) && u == SetupOf(db, ts.order, json, ins)
    ensures Begun(db, ts, json, ins, u) && Inserting(u, ins, json) && WellFormed(u)
  {
    RunIsTidy(json, floats, run, |run|);
    RunFits(json, floats, run);
    StoreIsSetup(db, ts, json, ins);
    JobsOfSetup(db, ts.order, json, ins);
    forall t | 0 <= t < |u.metas|
      ensures u.metas[t].stripWidth == StripWidth(u.metas[t].columns) && u.metas[t].rowCount <= SPACING
    {
      PlacedFields(db, ts, json, ts.order[t]);
    }
  }

  // ----- two inserts are enough -----

  /** The first call takes its slot and LSN; the second takes its own and persists its entry. */
  const OVERTAKING: seq<nat> := [0, 0, 1, 1, 1]

  lemma {:induction false} Overtaken(u: Setup, s: Sys)
    requires Shaped(u, s) && |u.jobs| >= 2 && s.threads[0].stage.Called? && s.threads[1].stage.Called?
    ensures var s' := Step(u, Step(u, Step(u, Step(u, Step(u, s, 0), 0), 1), 1), 1);
            && s'.threads[0].stage.Issued? && s'.threads[0].lsn == s.nextLSN
            && s'.threads[1].stage.Persisted? && s'.threads[1].lsn == s.nextLSN + 1
  {
    var s1 := Step(u, s, 0);
    var s2 := Step(u, s1, 0);
    assert s2.threads[0].stage.Issued? && s2.threads[0].lsn == s.nextLSN && s2.nextLSN == s.nextLSN + 1;
    var s3 := Step(u, s2, 1);
    var s4 := Step(u, s3, 1);
    assert s4.threads[1].stage.Issued? && s4.threads[1].lsn == s.nextLSN + 1 && s4.threads[0] == s2.threads[0];
  }

  /** Any two concurrent inserts can do it: crash after the second has persisted LSN n+1 and before the
      first has persisted LSN n. Recovery then starts again at n, and the second statement logged from
      there writes its entry over a persisted one. */
  lemma {:induction false} EntryIsOverwritten(u: Setup, first: LoggedOp, second: LoggedOp)
    requires |u.jobs| >= 2 && BoundedRun(u, OVERTAKING)
    ensures var w := Interleaved(u, OVERTAKING, 5).world;
            && Logged(w, u.lsn + 1) && NextAfterCrash(w) == u.lsn
            && Get(AfterAppend(AfterAppend(Recovered(w), u.lsn, first), u.lsn + 1, second), Lectern(u.lsn + 1))
               == Serialize(EntryOf(second, u.lsn + 1, PENDING))
  {
    FiveSteps(u);
    Overtaken(u, Start(u));
    InvAlways(u, OVERTAKING, 5);
    RestartsAtGap(u, Interleaved(u, OVERTAKING, 5));
    AppendWrites(AfterAppend(Recovered(Interleaved(u, OVERTAKING, 5).world), u.lsn, first), u.lsn + 1, second);
  }

  lemma {:induction false} RestartsAtGap(u: Setup, s: Sys)
    requires Inv(u, s) && |u.jobs| >= 2 && s.threads[0].stage.Issued? && s.threads[0].lsn == u.lsn
    requires s.threads[1].stage.Persisted? && s.threads[1].lsn == u.lsn + 1
    ensures Logged(s.world, u.lsn + 1) && NextAfterCrash(s.world) == u.lsn
  {
    SomethingBehind(u, s, 0, 1);
    EndsBeforeGap(u, s, 0);
    RecoveryKeepsLog(s.world, 1);
  }

  lemma {:induction false} AppendWrites(w: Blocks, lsn: int, op: LoggedOp)
    ensures Get(AfterAppend(w, lsn, op), Lectern(lsn)) == Serialize(EntryOf(op, lsn, PENDING))
  {
    SerializedIsNotEmpty(EntryOf(op, lsn, PENDING));
  }

  lemma {:induction false} FiveSteps(u: Setup)
    requires Shaped(u, Start(u)) && |u.jobs| >= 2
    ensures Interleaved(u, OVERTAKING, 5) == Step(u, Step(u, Step(u, Step(u, Step(u, Start(u), 0), 0), 1), 1), 1)
  {
    assert Interleaved(u, OVERTAKING, 0) == Start(u);
    assert Interleaved(u, OVERTAKING, 1) == Step(u, Start(u), 0);
    assert Interleaved(u, OVERTAKING, 2) == Step(u, Step(u, Start(u), 0), 0);
    assert Interleaved(u, OVERTAKING, 3) == Step(u, Step(u, Step(u, Start(u), 0), 0), 1);
    assert Interleaved(u, OVERTAKING, 4) == Step(u, Step(u, Step(u, Step(u, Start(u), 0), 0), 1), 1);
  }

  /** Recovery stops right before the oldest unpersisted LSN, if all below it are old entries. */
  lemma {:induction false} EndsBeforeGap(u: Setup, s: Sys, i: nat)
    requires Inv(u, s) && i < |u.jobs| && Unpersisted(s.threads[i]) && s.threads[i].lsn == u.lsn
    ensures LogLength(s.world) == u.lsn - 1
  {
    OldEntriesStay(u, s);
    PersistedIsLogged(u, s, i);
    LogLengthIsFirstGap(s.world);
  }
}
