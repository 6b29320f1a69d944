/** Concurrent InsertRow calls: threads that interleave at every lock and every HAL request, in any
    order a scheduler may choose. */
module Concurrency {
  import opened GoText
  import opened World
  import opened LogEntry
  import opened Wal
  import opened Recovery
  import opened Layout
  import opened Store
  import opened WriteSequence

  /** One call: the table it inserts into, the strip it lays out, its values as logged, its transaction. */
  datatype Job = Job(table: nat, strip: seq<string>, newValue: string, txid: int64)

  /** The store when the calls start. */
  datatype Setup = Setup(world: Blocks, lsn: int, metas: seq<Meta>, jobs: seq<Job>)

  /** What a call has done last. */
  datatype Stage = Called | Slotted | Issued | Persisted | Written | Reread | Returned | Errored

  datatype Thread = Thread(stage: Stage, z: int, lsn: int, book: string)

  datatype Sys = Sys(world: Blocks, nextLSN: int, counts: seq<nat>, threads: seq<Thread>)

  // ----- the machine -----

  ghost predicate WellFormed(u: Setup) {
    && u.lsn >= 1 && Quiet(u.world, u.lsn)
    && (forall t | 0 <= t < |u.metas| :: MetaOk(u.metas[t]))
    && (forall t, t' | 0 <= t < t' < |u.metas| :: u.metas[t].id != u.metas[t'].id)
    && (forall t | 0 <= t < |u.metas| :: Vacant(u.world, u.metas[t], u.metas[t].rowCount))
    && (forall i | 0 <= i < |u.jobs| :: u.jobs[i].table < |u.metas| && JobOk(u.metas[u.jobs[i].table], u.jobs[i]))
  }

  predicate MetaOk(meta: Meta) {
    && meta.id >= 1 && meta.yLevel == TABLE_Y && meta.zStart == (meta.id - 1) * SPACING
    && IsInt64(meta.id * SPACING)
  }

  predicate JobOk(meta: Meta, job: Job) {
    |job.strip| == meta.stripWidth && job.newValue != "" && Free(job.newValue, '\n')
  }

  /** Slots of a table from ri on hold no block. */
  ghost predicate Vacant(w: Blocks, meta: Meta, ri: nat) {
    forall p: Pos | p.y == TABLE_Y && meta.zStart + ri <= p.z < meta.zStart + SPACING :: Get(w, p) == ""
  }

  function MetaOf(u: Setup, i: nat): Meta
    requires i < |u.jobs| && u.jobs[i].table < |u.metas|
  {
    u.metas[u.jobs[i].table]
  }

  function EntryFor(meta: Meta, job: Job, z: int, lsn: int, status: string): Entry {
    Entry(lsn, job.txid, status, INSERT, meta.id, 0, meta.yLevel, z, job.newValue)
  }

  function Start(u: Setup): Sys {
    Sys(u.world, u.lsn, seq(|u.metas|, t requires 0 <= t < |u.metas| => u.metas[t].rowCount),
        seq(|u.jobs|, i => Thread(Called, 0, 0, "")))
  }

  predicate Shaped(u: Setup, s: Sys) {
    && |s.threads| == |u.jobs| && |s.counts| == |u.metas|
    && forall i | 0 <= i < |u.jobs| :: u.jobs[i].table < |u.metas|
  }

  /** The next step of call i: up to the end of a locked section, or one HAL request. */
  function Step(u: Setup, s: Sys, i: nat): (s': Sys)
    requires Shaped(u, s) && i < |u.jobs|
    ensures Shaped(u, s')
  {
    var th, job, meta := s.threads[i], u.jobs[i], MetaOf(u, i);
    match th.stage
    case Called =>
      var n := s.counts[job.table];
      s.(counts := s.counts[job.table := n + 1], threads := s.threads[i := Thread(Slotted, meta.zStart + n, 0, "")])
    case Slotted =>
      s.(nextLSN := s.nextLSN + 1, threads := s.threads[i := th.(stage := Issued, lsn := s.nextLSN)])
    case Issued =>
      s.(world := Put(s.world, Lectern(th.lsn), Serialize(EntryFor(meta, job, th.z, th.lsn, PENDING))),
         threads := s.threads[i := th.(stage := Persisted)])
    case Persisted =>
      s.(world := PutAll(s.world, StripWrites(job.strip, meta.yLevel, th.z)),
         threads := s.threads[i := th.(stage := Written)])
    case Written =>
      s.(threads := s.threads[i := th.(stage := Reread, book := Get(s.world, Lectern(th.lsn)))])
    case Reread =>
      var e := Deserialize(th.book);
      if e.None? || e.value.status != PENDING then s.(threads := s.threads[i := th.(stage := Errored)])
      else
        s.(world := Put(s.world, Lectern(th.lsn), Committed(e.value)),
           threads := s.threads[i := th.(stage := Returned)])
    case _ => s
  }

  /** The state after the first n choices of the scheduler. */
  function Interleaved(u: Setup, schedule: seq<nat>, n: nat): (s: Sys)
    requires Shaped(u, Start(u)) && n <= |schedule| && forall k | 0 <= k < |schedule| :: schedule[k] < |u.jobs|
    ensures Shaped(u, s)
  {
    if n == 0 then Start(u) else Step(u, Interleaved(u, schedule, n - 1), schedule[n - 1])
  }

  /** Within the 10000-row bound, with counters that fit. */
  predicate Bounded(s: Sys) {
    IsInt64(s.nextLSN) && forall t | 0 <= t < |s.counts| :: s.counts[t] <= SPACING
  }

  // ----- the invariant -----

  predicate HasSlot(th: Thread) {
    !th.stage.Called?
  }

  predicate HasLsn(th: Thread) {
    !th.stage.Called? && !th.stage.Slotted?
  }

  /** The blocks that are a call's own: its lectern and its slot. */
  predicate OwnedBy(th: Thread, p: Pos) {
    || (HasLsn(th) && p == Lectern(th.lsn))
    || (HasSlot(th) && p.y == TABLE_Y && p.z == th.z)
  }

  predicate Apart(a: Thread, b: Thread) {
    && (HasSlot(a) && HasSlot(b) ==> a.z != b.z)
    && (HasLsn(a) && HasLsn(b) ==> a.lsn != b.lsn)
  }

  function RowBlock(w: Blocks, z: int, x: int): string {
    Get(w, Pos(x, TABLE_Y, z))
  }

  ghost predicate NoStrip(w: Blocks, z: int) {
    forall x :: RowBlock(w, z, x) == ""
  }

  /** The whole strip and nothing else in the slot. */
  ghost predicate WholeStrip(w: Blocks, z: int, strip: seq<string>) {
    forall x :: RowBlock(w, z, x) == At(strip, x)
  }

  predicate BookIs(w: Blocks, meta: Meta, job: Job, th: Thread, status: string) {
    Get(w, Lectern(th.lsn)) == Serialize(EntryFor(meta, job, th.z, th.lsn, status))
  }

  /** What the world holds for a call, by its stage. */
  ghost predicate ThreadOk(w: Blocks, meta: Meta, job: Job, th: Thread) {
    match th.stage
    case Called => true
    case Slotted => NoStrip(w, th.z)
    case Issued => NoStrip(w, th.z) && !Logged(w, th.lsn)
    case Persisted => NoStrip(w, th.z) && BookIs(w, meta, job, th, PENDING)
    case Written => WholeStrip(w, th.z, job.strip) && BookIs(w, meta, job, th, PENDING)
    case Reread =>
      && WholeStrip(w, th.z, job.strip) && BookIs(w, meta, job, th, PENDING)
      && th.book == Get(w, Lectern(th.lsn))
    case Returned => WholeStrip(w, th.z, job.strip) && BookIs(w, meta, job, th, COMMITTED)
    case Errored => false
  }

  /** Slots come from the table's counter, LSNs from the log's. */
  predicate InRange(meta: Meta, count: nat, lsn: int, nextLSN: int, th: Thread) {
    && (HasSlot(th) ==> meta.zStart + meta.rowCount <= th.z < meta.zStart + count)
    && (HasLsn(th) ==> lsn <= th.lsn < nextLSN)
  }

  ghost predicate Frame(u: Setup, s: Sys) {
    forall p | Get(s.world, p) != Get(u.world, p) :: exists i | 0 <= i < |s.threads| :: OwnedBy(s.threads[i], p)
  }

  /** Every LSN issued so far belongs to a call. */
  ghost predicate Covered(u: Setup, s: Sys) {
    forall n | u.lsn <= n < s.nextLSN :: IssuedTo(s.threads, n)
  }

  ghost predicate IssuedTo(threads: seq<Thread>, n: int) {
    exists i | 0 <= i < |threads| :: HasLsn(threads[i]) && threads[i].lsn == n
  }

  /** Every slot handed out so far belongs to a call on its table. */
  ghost predicate SlotsCovered(u: Setup, s: Sys)
    requires Shaped(u, s)
  {
    forall t, ri | 0 <= t < |u.metas| && u.metas[t].rowCount <= ri < s.counts[t] :: HeldBy(u, s, t, ri)
  }

  /** Slot ri of table t. */
  ghost predicate HeldBy(u: Setup, s: Sys, t: nat, ri: int)
    requires Shaped(u, s) && t < |u.metas|
  {
    exists i | 0 <= i < |u.jobs| :: SlotHeld(u, s, t, ri, i)
  }

  predicate SlotHeld(u: Setup, s: Sys, t: nat, ri: int, i: nat)
    requires Shaped(u, s) && t < |u.metas| && i < |u.jobs|
  {
    HasSlot(s.threads[i]) && u.jobs[i].table == t && s.threads[i].z == u.metas[t].zStart + ri
  }

  ghost predicate AllApart(threads: seq<Thread>) {
    forall i, j | 0 <= i < |threads| && 0 <= j < |threads| && i != j :: Apart(threads[i], threads[j])
  }

  ghost predicate AllOk(u: Setup, s: Sys)
    requires Shaped(u, s)
  {
    forall i | 0 <= i < |u.jobs| :: ThreadOk(s.world, MetaOf(u, i), u.jobs[i], s.threads[i])
  }

  ghost predicate AllInRange(u: Setup, s: Sys)
    requires Shaped(u, s)
  {
    forall i | 0 <= i < |u.jobs| ::
      InRange(MetaOf(u, i), s.counts[u.jobs[i].table], u.lsn, s.nextLSN, s.threads[i])
  }

  ghost predicate Inv(u: Setup, s: Sys) {
    && WellFormed(u) && Shaped(u, s) && u.lsn <= s.nextLSN && Bounded(s)
    && (forall t | 0 <= t < |u.metas| :: u.metas[t].rowCount <= s.counts[t])
    && AllInRange(u, s) && AllApart(s.threads) && AllOk(u, s) && Frame(u, s) && Covered(u, s) && SlotsCovered(u, s)
  }

  lemma {:induction false} StartsWell(u: Setup)
    requires WellFormed(u) && Bounded(Start(u))
    ensures Inv(u, Start(u))
  {
  }

  // ----- one step keeps it -----

  /** A call's blocks are as they were, so it is as well off as before. */
  lemma {:induction false} OthersUnmoved(w: Blocks, w': Blocks, meta: Meta, job: Job, th: Thread)
    requires ThreadOk(w, meta, job, th) && forall p | OwnedBy(th, p) :: Get(w', p) == Get(w, p)
    ensures ThreadOk(w', meta, job, th)
  {
    if HasLsn(th) {
      assert OwnedBy(th, Lectern(th.lsn));
    }
    if HasSlot(th) {
      forall x ensures RowBlock(w', th.z, x) == RowBlock(w, th.z, x) {
        assert OwnedBy(th, Pos(x, TABLE_Y, th.z));
      }
    }
  }

  lemma {:induction false} ApartOwnsNothingShared(a: Thread, b: Thread, p: Pos)
    requires Apart(a, b) && (HasLsn(a) ==> a.lsn >= 1) && (HasLsn(b) ==> b.lsn >= 1)
    requires (HasSlot(a) ==> a.z >= 0) && (HasSlot(b) ==> b.z >= 0)
    ensures !(OwnedBy(a, p) && OwnedBy(b, p))
  {
  }

  lemma {:induction false} RangesArePositive(u: Setup, s: Sys, i: nat)
    requires WellFormed(u) && Shaped(u, s) && AllInRange(u, s) && i < |u.jobs|
    ensures HasLsn(s.threads[i]) ==> s.threads[i].lsn >= 1
    ensures HasSlot(s.threads[i]) ==> s.threads[i].z >= 0
  {
    assert InRange(MetaOf(u, i), s.counts[u.jobs[i].table], u.lsn, s.nextLSN, s.threads[i]);
    assert MetaOk(MetaOf(u, i));
  }

  /** Two calls never own the same block, hence never write the same block. */
  lemma {:induction false} NoSharedBlock(u: Setup, s: Sys, i: nat, j: nat, p: Pos)
    requires Inv(u, s) && i < |u.jobs| && j < |u.jobs| && OwnedBy(s.threads[i], p) && OwnedBy(s.threads[j], p)
    ensures i == j
  {
    RangesArePositive(u, s, i);
    RangesArePositive(u, s, j);
    if i != j {
      ApartOwnsNothingShared(s.threads[i], s.threads[j], p);
    }
  }

  /** A step by call i that moves only what i owns keeps the other calls well. */
  lemma {:induction false} StepKeepsOthers(u: Setup, s: Sys, s': Sys, i: nat)
    requires Inv(u, s) && Shaped(u, s') && i < |u.jobs| && AllInRange(u, s') && AllApart(s'.threads)
    requires forall j | 0 <= j < |u.jobs| && j != i :: s'.threads[j] == s.threads[j]
    requires forall p | !OwnedBy(s'.threads[i], p) :: Get(s'.world, p) == Get(s.world, p)
    requires ThreadOk(s'.world, MetaOf(u, i), u.jobs[i], s'.threads[i])
    ensures AllOk(u, s')
  {
    forall j | 0 <= j < |u.jobs| ensures ThreadOk(s'.world, MetaOf(u, j), u.jobs[j], s'.threads[j]) {
      if j != i {
        assert ThreadOk(s.world, MetaOf(u, j), u.jobs[j], s.threads[j]);
        RangesArePositive(u, s', i);
        RangesArePositive(u, s', j);
        forall p | OwnedBy(s'.threads[j], p) ensures Get(s'.world, p) == Get(s.world, p) {
          ApartOwnsNothingShared(s'.threads[i], s'.threads[j], p);
        }
        OthersUnmoved(s.world, s'.world, MetaOf(u, j), u.jobs[j], s.threads[j]);
      }
    }
  }

  predicate Keeps(th: Thread, th': Thread) {
    (HasSlot(th) ==> HasSlot(th') && th'.z == th.z) && (HasLsn(th) ==> HasLsn(th') && th'.lsn == th.lsn)
  }

  lemma {:induction false} StepKeepsFrame(u: Setup, s: Sys, s': Sys, i: nat)
    requires Frame(u, s) && |s.threads| == |s'.threads| && i < |s.threads| && Keeps(s.threads[i], s'.threads[i])
    requires forall j | 0 <= j < |s.threads| && j != i :: s'.threads[j] == s.threads[j]
    requires forall p | !OwnedBy(s'.threads[i], p) :: Get(s'.world, p) == Get(s.world, p)
    ensures Frame(u, s')
  {
    forall p | Get(s'.world, p) != Get(u.world, p) ensures exists k | 0 <= k < |s'.threads| :: OwnedBy(s'.threads[k],
                                                                                                       p) {
      if OwnedBy(s'.threads[i], p) {
      } else {
        assert Get(s.world, p) != Get(u.world, p);
        var k :| 0 <= k < |s.threads| && OwnedBy(s.threads[k], p);
        assert OwnedBy(s'.threads[k], p);
      }
    }
  }

  // ----- stage by stage -----

  lemma {:induction false} TakesFreshSlot(u: Setup, s: Sys, i: nat)
    requires Inv(u, s) && i < |u.jobs| && s.threads[i].stage.Called? && Bounded(Step(u, s, i))
    ensures var s' := Step(u, s, i);
            && NoStrip(s'.world, s'.threads[i].z) && AllInRange(u, s') && AllApart(s'.threads)
  {
    var s' := Step(u, s, i);
    var t := u.jobs[i].table;
    var meta := u.metas[t];
    var z := meta.zStart + s.counts[t];
    assert s'.counts[t] == s.counts[t] + 1;
    forall j | 0 <= j < |u.jobs|
      ensures InRange(MetaOf(u, j), s'.counts[u.jobs[j].table], u.lsn, s'.nextLSN, s'.threads[j])
      ensures j != i && HasSlot(s.threads[j]) ==> s.threads[j].z != z
    {
      assert InRange(MetaOf(u, j), s.counts[u.jobs[j].table], u.lsn, s.nextLSN, s.threads[j]);
      if HasSlot(s.threads[j]) {
        SlotIsNew(u, s, i, j);
      }
    }
    forall x ensures RowBlock(s.world, z, x) == "" {
      var p := Pos(x, TABLE_Y, z);
      UnownedIsOld(u, s, i, p);
      assert Vacant(u.world, meta, meta.rowCount);
    }
  }

  lemma {:induction false} SlotIsNew(u: Setup, s: Sys, i: nat, j: nat)
    requires Inv(u, s) && i < |u.jobs| && j < |u.jobs| && HasSlot(s.threads[j]) && s.counts[u.jobs[i].table] < SPACING
    ensures s.threads[j].z != MetaOf(u, i).zStart + s.counts[u.jobs[i].table]
  {
    assert InRange(MetaOf(u, j), s.counts[u.jobs[j].table], u.lsn, s.nextLSN, s.threads[j]);
    assert MetaOk(MetaOf(u, i)) && MetaOk(MetaOf(u, j));
    assert u.jobs[i].table != u.jobs[j].table ==> MetaOf(u, i).id != MetaOf(u, j).id;
  }

  /** A block of the slot about to be taken still holds what it held at the start. */
  lemma {:induction false} UnownedIsOld(u: Setup, s: Sys, i: nat, p: Pos)
    requires Inv(u, s) && i < |u.jobs| && s.counts[u.jobs[i].table] < SPACING
    requires p.y == TABLE_Y && p.z == MetaOf(u, i).zStart + s.counts[u.jobs[i].table]
    ensures Get(s.world, p) == Get(u.world, p)
  {
    forall j | 0 <= j < |s.threads| ensures !OwnedBy(s.threads[j], p) {
      RangesArePositive(u, s, j);
      assert MetaOk(MetaOf(u, i));
      if HasSlot(s.threads[j]) {
        SlotIsNew(u, s, i, j);
      }
    }
  }

  lemma {:induction false} StripLands(w: Blocks, strip: seq<string>, z: int)
    requires NoStrip(w, z)
    ensures WholeStrip(PutAll(w, StripWrites(strip, TABLE_Y, z)), z, strip)
    ensures forall p: Pos | !(p.y == TABLE_Y && p.z == z) :: Get(PutAll(w, StripWrites(strip, TABLE_Y, z)),
                                                                 p) == Get(w, p)
  {
    PutStrip(w, strip, TABLE_Y, z);
    var w' := PutAll(w, StripWrites(strip, TABLE_Y, z));
    forall x ensures RowBlock(w', z, x) == At(strip, x) {
      assert RowBlock(w, z, x) == "";
    }
  }

  lemma {:induction false} EntryIsOneLine(meta: Meta, job: Job, z: int, lsn: int)
    requires MetaOk(meta) && JobOk(meta, job) && IsInt64(z) && IsInt64(lsn)
    ensures OneLine(EntryFor(meta, job, z, lsn, PENDING))
    ensures Deserialize(Serialize(EntryFor(meta, job, z, lsn, PENDING))) == Some(EntryFor(meta, job, z, lsn, PENDING))
  {
    RoundTrip(EntryFor(meta, job, z, lsn, PENDING));
  }

  /** What each step does, seen from the call that takes it. */
  ghost predicate OwnStep(u: Setup, s: Sys, s': Sys, i: nat)
    requires Shaped(u, s) && Shaped(u, s') && i < |u.jobs|
  {
    && (forall p | !OwnedBy(s'.threads[i], p) :: Get(s'.world, p) == Get(s.world, p))
    && ThreadOk(s'.world, MetaOf(u, i), u.jobs[i], s'.threads[i])
    && Keeps(s.threads[i], s'.threads[i])
    && AllInRange(u, s') && AllApart(s'.threads)
  }

  lemma {:induction false} SlotStep(u: Setup, s: Sys, i: nat)
    requires Inv(u, s) && i < |u.jobs| && s.threads[i].stage.Called? && Bounded(Step(u, s, i))
    ensures OwnStep(u, s, Step(u, s, i), i)
  {
    TakesFreshSlot(u, s, i);
  }

  lemma {:induction false} NumberStep(u: Setup, s: Sys, i: nat)
    requires Inv(u, s) && i < |u.jobs| && s.threads[i].stage.Slotted?
    ensures OwnStep(u, s, Step(u, s, i), i)
  {
    LaterLecternIsFree(u, s, s.nextLSN);
    var s' := Step(u, s, i);
    assert ThreadOk(s.world, MetaOf(u, i), u.jobs[i], s.threads[i]);
    forall j | 0 <= j < |u.jobs|
      ensures InRange(MetaOf(u, j), s'.counts[u.jobs[j].table], u.lsn, s'.nextLSN, s'.threads[j])
      ensures j != i ==> Apart(s'.threads[i], s'.threads[j]) && Apart(s'.threads[j], s'.threads[i])
    {
      assert InRange(MetaOf(u, j), s.counts[u.jobs[j].table], u.lsn, s.nextLSN, s.threads[j]);
      assert j != i ==> Apart(s.threads[i], s.threads[j]);
    }
  }

  /** Later stages change neither slots nor LSNs. */
  lemma {:induction false} SamePlaces(u: Setup, s: Sys, s': Sys, i: nat)
    requires Inv(u, s) && Shaped(u, s') && i < |u.jobs| && HasLsn(s.threads[i]) && HasLsn(s'.threads[i])
    requires s'.counts == s.counts && s'.nextLSN == s.nextLSN && s'.threads == s.threads[i := s'.threads[i]]
    requires s'.threads[i].z == s.threads[i].z && s'.threads[i].lsn == s.threads[i].lsn
    ensures AllInRange(u, s') && AllApart(s'.threads) && Keeps(s.threads[i], s'.threads[i])
  {
    forall j | 0 <= j < |u.jobs|
      ensures InRange(MetaOf(u, j), s'.counts[u.jobs[j].table], u.lsn, s'.nextLSN, s'.threads[j])
    {
      assert InRange(MetaOf(u, j), s.counts[u.jobs[j].table], u.lsn, s.nextLSN, s.threads[j]);
    }
    forall j, k | 0 <= j < |s'.threads| && 0 <= k < |s'.threads| && j != k ensures Apart(s'.threads[j], s'.threads[k]) {
      assert Apart(s.threads[j], s.threads[k]);
    }
  }

  /** A write to the call's own lectern leaves its strip alone. */
  lemma {:induction false} BookWrite(w: Blocks, lsn: int, z: int, book: string)
    requires lsn >= 1 && z >= 0 && book != ""
    ensures forall p | p != Lectern(lsn) :: Get(Put(w, Lectern(lsn), book), p) == Get(w, p)
    ensures forall x :: RowBlock(Put(w, Lectern(lsn), book), z, x) == RowBlock(w, z, x)
    ensures Get(Put(w, Lectern(lsn), book), Lectern(lsn)) == book
  {
  }

  lemma {:induction false} PersistStep(u: Setup, s: Sys, i: nat)
    requires Inv(u, s) && i < |u.jobs| && s.threads[i].stage.Issued?
    ensures OwnStep(u, s, Step(u, s, i), i)
  {
    var th := s.threads[i];
    RangesArePositive(u, s, i);
    assert ThreadOk(s.world, MetaOf(u, i), u.jobs[i], th);
    var e := EntryFor(MetaOf(u, i), u.jobs[i], th.z, th.lsn, PENDING);
    SerializedIsNotEmpty(e);
    BookWrite(s.world, th.lsn, th.z, Serialize(e));
    SamePlaces(u, s, Step(u, s, i), i);
  }

  lemma {:induction false} DataStep(u: Setup, s: Sys, i: nat)
    requires Inv(u, s) && i < |u.jobs| && s.threads[i].stage.Persisted?
    ensures OwnStep(u, s, Step(u, s, i), i)
  {
    var th := s.threads[i];
    RangesArePositive(u, s, i);
    assert MetaOk(MetaOf(u, i)) && ThreadOk(s.world, MetaOf(u, i), u.jobs[i], th);
    StripLands(s.world, u.jobs[i].strip, th.z);
    SamePlaces(u, s, Step(u, s, i), i);
  }

  lemma {:induction false} RereadStep(u: Setup, s: Sys, i: nat)
    requires Inv(u, s) && i < |u.jobs| && s.threads[i].stage.Written?
    ensures OwnStep(u, s, Step(u, s, i), i)
  {
    assert ThreadOk(s.world, MetaOf(u, i), u.jobs[i], s.threads[i]);
    SamePlaces(u, s, Step(u, s, i), i);
  }

  /** The book a call reads back is its own pending entry. */
  lemma {:induction false} FindsOwnEntry(u: Setup, s: Sys, i: nat)
    requires Inv(u, s) && i < |u.jobs| && s.threads[i].stage.Reread?
    ensures var th := s.threads[i];
            Deserialize(th.book) == Some(EntryFor(MetaOf(u, i), u.jobs[i], th.z, th.lsn, PENDING))
  {
    var th := s.threads[i];
    assert ThreadOk(s.world, MetaOf(u, i), u.jobs[i], th);
    assert InRange(MetaOf(u, i), s.counts[u.jobs[i].table], u.lsn, s.nextLSN, th);
    assert MetaOk(MetaOf(u, i)) && JobOk(MetaOf(u, i), u.jobs[i]) && s.counts[u.jobs[i].table] <= SPACING;
    EntryIsOneLine(MetaOf(u, i), u.jobs[i], th.z, th.lsn);
  }

  lemma {:induction false} CommitStep(u: Setup, s: Sys, i: nat)
    requires Inv(u, s) && i < |u.jobs| && s.threads[i].stage.Reread?
    ensures OwnStep(u, s, Step(u, s, i), i)
  {
    var th := s.threads[i];
    RangesArePositive(u, s, i);
    assert ThreadOk(s.world, MetaOf(u, i), u.jobs[i], th);
    FindsOwnEntry(u, s, i);
    var e := EntryFor(MetaOf(u, i), u.jobs[i], th.z, th.lsn, COMMITTED);
    SerializedIsNotEmpty(e);
    BookWrite(s.world, th.lsn, th.z, Serialize(e));
    SamePlaces(u, s, Step(u, s, i), i);
  }

  lemma {:induction false} AnyStep(u: Setup, s: Sys, i: nat)
    requires Inv(u, s) && i < |u.jobs| && Bounded(Step(u, s, i))
    ensures Step(u, s, i) == s || OwnStep(u, s, Step(u, s, i), i)
  {
    match s.threads[i].stage
    case Called => SlotStep(u, s, i);
    case Slotted => NumberStep(u, s, i);
    case Issued => PersistStep(u, s, i);
    case Persisted => DataStep(u, s, i);
    case Written => RereadStep(u, s, i);
    case Reread => CommitStep(u, s, i);
    case _ =>
  }

  lemma {:induction false} StepCounts(u: Setup, s: Sys, i: nat)
    requires Shaped(u, s) && i < |u.jobs|
    ensures var s' := Step(u, s, i); forall t | 0 <= t < |u.metas| :: s.counts[t] <= s'.counts[t]
  {
  }

  lemma {:induction false} StepNumbers(u: Setup, s: Sys, i: nat)
    requires Shaped(u, s) && i < |u.jobs|
    ensures var s' := Step(u, s, i);
            s'.nextLSN == s.nextLSN
            || (s'.nextLSN == s.nextLSN + 1 && HasLsn(s'.threads[i]) && s'.threads[i].lsn == s.nextLSN)
  {
  }

  lemma {:induction false} StepMovesOne(u: Setup, s: Sys, i: nat)
    requires Shaped(u, s) && i < |u.jobs|
    ensures forall j | 0 <= j < |u.jobs| && j != i :: Step(u, s, i).threads[j] == s.threads[j]
  {
  }

  lemma {:induction false} StepCovers(u: Setup, s: Sys, s': Sys, i: nat)
    requires Covered(u, s) && |s.threads| == |s'.threads| && i < |s.threads| && Keeps(s.threads[i], s'.threads[i])
    requires forall j | 0 <= j < |s.threads| && j != i :: s'.threads[j] == s.threads[j]
    requires s'.nextLSN != s.nextLSN ==>
               s'.nextLSN == s.nextLSN + 1 && HasLsn(s'.threads[i]) && s'.threads[i].lsn == s.nextLSN
    ensures Covered(u, s')
  {
    forall n | u.lsn <= n < s'.nextLSN ensures IssuedTo(s'.threads, n) {
      if n < s.nextLSN {
        assert IssuedTo(s.threads, n);
        var k :| 0 <= k < |s.threads| && HasLsn(s.threads[k]) && s.threads[k].lsn == n;
        assert HasLsn(s'.threads[k]) && s'.threads[k].lsn == n;
      } else {
        assert HasLsn(s'.threads[i]) && s'.threads[i].lsn == n;
      }
    }
  }

  lemma {:induction false} StepHolds(u: Setup, s: Sys, i: nat, t: nat, ri: int)
    requires Shaped(u, s) && i < |u.jobs| && t < |u.metas| && SlotsCovered(u, s)
    requires Keeps(s.threads[i], Step(u, s, i).threads[i])
    requires u.metas[t].rowCount <= ri < Step(u, s, i).counts[t]
    ensures HeldBy(u, Step(u, s, i), t, ri)
  {
    var s' := Step(u, s, i);
    if ri < s.counts[t] {
      assert HeldBy(u, s, t, ri);
      var k :| 0 <= k < |u.jobs| && SlotHeld(u, s, t, ri, k);
      StepMovesOne(u, s, i);
      assert SlotHeld(u, s', t, ri, k);
    } else {
      assert SlotHeld(u, s', t, ri, i);
    }
  }

  lemma {:induction false} StepCoversSlots(u: Setup, s: Sys, i: nat)
    requires Shaped(u, s) && i < |u.jobs| && SlotsCovered(u, s) && Keeps(s.threads[i], Step(u, s, i).threads[i])
    ensures SlotsCovered(u, Step(u, s, i))
  {
    var s' := Step(u, s, i);
    forall t, ri | 0 <= t < |u.metas| && u.metas[t].rowCount <= ri < s'.counts[t] ensures HeldBy(u, s', t, ri) {
      StepHolds(u, s, i, t, ri);
    }
  }

  /** Any step of any call keeps the invariant and writes only blocks of its own. */
  lemma {:induction false} StepKeepsInv(u: Setup, s: Sys, i: nat)
    requires Inv(u, s) && i < |u.jobs| && Bounded(Step(u, s, i))
    ensures Inv(u, Step(u, s, i))
    ensures forall p | Get(Step(u, s, i).world, p) != Get(s.world, p) :: OwnedBy(Step(u, s, i).threads[i], p)
  {
    AnyStep(u, s, i);
    StepCounts(u, s, i);
    StepNumbers(u, s, i);
    StepMovesOne(u, s, i);
    if Step(u, s, i) != s {
      StepCoversSlots(u, s, i);
    }
    Reassemble(u, s, Step(u, s, i), i);
  }

  lemma {:induction false} Reassemble(u: Setup, s: Sys, s': Sys, i: nat)
    requires Inv(u, s) && Shaped(u, s') && i < |u.jobs| && Bounded(s') && (s' == s || OwnStep(u, s, s', i))
    requires s.nextLSN <= s'.nextLSN && (forall t | 0 <= t < |u.metas| :: s.counts[t] <= s'.counts[t])
    requires forall j | 0 <= j < |u.jobs| && j != i :: s'.threads[j] == s.threads[j]
    requires s'.nextLSN != s.nextLSN ==>
               s'.nextLSN == s.nextLSN + 1 && HasLsn(s'.threads[i]) && s'.threads[i].lsn == s.nextLSN
    requires SlotsCovered(u, s')
    ensures Inv(u, s')
  {
    if s' != s {
      StepKeepsOthers(u, s, s', i);
      StepKeepsFrame(u, s, s', i);
      StepCovers(u, s, s', i);
    }
  }

  // ----- a call left alone -----

  /** Six steps of the same call in a row. */
  function Solo(u: Setup, s: Sys, i: nat): Sys
    requires Shaped(u, s) && i < |u.jobs|
  {
    Step(u, Step(u, Step(u, Step(u, Step(u, Step(u, s, i), i), i), i), i), i)
  }

  lemma {:induction false} ThreeSteps(u: Setup, s: Sys, i: nat, op: LoggedOp)
    requires Shaped(u, s) && i < |u.jobs| && s.threads[i].stage.Called?
    requires var meta, job := MetaOf(u, i), u.jobs[i];
             op == AppendOp(meta.(rowCount := s.counts[job.table]), job.strip, job.newValue, job.txid)
    ensures var s3 := Step(u, Step(u, Step(u, s, i), i), i);
            && s3.world == AfterAppend(s.world, s.nextLSN, op) && s3.nextLSN == s.nextLSN + 1
            && s3.threads[i] == Thread(Persisted, op.z, s.nextLSN, "")
  {
  }

  lemma {:induction false} TwoMoreSteps(u: Setup, s: Sys, i: nat, w: Blocks, op: LoggedOp)
    requires Shaped(u, s) && i < |u.jobs| && s.threads[i].stage.Persisted? && s.threads[i].z == op.z
    requires s.world == AfterAppend(w, s.threads[i].lsn, op)
    requires op.writes == StripWrites(u.jobs[i].strip, MetaOf(u, i).yLevel, op.z)
    ensures var s5, lsn := Step(u, Step(u, s, i), i), s.threads[i].lsn;
            && s5.world == AfterData(w, lsn, op) && s5.nextLSN == s.nextLSN
            && s5.threads[i] == Thread(Reread, op.z, lsn, Get(s5.world, Lectern(lsn)))
  {
  }

  lemma {:induction false} LastStep(u: Setup, s: Sys, i: nat, w: Blocks, op: LoggedOp)
    requires Shaped(u, s) && i < |u.jobs| && s.threads[i].stage.Reread?
    requires s.world == AfterData(w, s.threads[i].lsn, op)
    requires s.threads[i].book == Get(s.world, Lectern(s.threads[i].lsn))
    ensures Step(u, s, i).world == Finished(w, s.threads[i].lsn, op) && Step(u, s, i).nextLSN == s.nextLSN
  {
  }

  /** A call that is never interrupted does exactly what the storage method does. */
  lemma {:induction false} SoloIsInsertRow(u: Setup, s: Sys, i: nat)
    requires Shaped(u, s) && i < |u.jobs| && s.threads[i].stage.Called?
    ensures var meta, job := MetaOf(u, i), u.jobs[i];
            var op := AppendOp(meta.(rowCount := s.counts[job.table]), job.strip, job.newValue, job.txid);
            && Solo(u, s, i).world == Finished(s.world, s.nextLSN, op)
            && Solo(u, s, i).nextLSN == s.nextLSN + 1
  {
    var meta, job := MetaOf(u, i), u.jobs[i];
    var op := AppendOp(meta.(rowCount := s.counts[job.table]), job.strip, job.newValue, job.txid);
    ThreeSteps(u, s, i, op);
    var s3 := Step(u, Step(u, Step(u, s, i), i), i);
    TwoMoreSteps(u, s3, i, s.world, op);
    LastStep(u, Step(u, Step(u, s3, i), i), i, s.world, op);
  }

  // ----- every interleaving -----

  ghost predicate BoundedRun(u: Setup, schedule: seq<nat>) {
    && WellFormed(u)
    && (forall k | 0 <= k < |schedule| :: schedule[k] < |u.jobs|)
    && (forall n | 0 <= n <= |schedule| :: Bounded(Interleaved(u, schedule, n)))
  }

  lemma {:induction false} InvAlways(u: Setup, schedule: seq<nat>, n: nat)
    requires BoundedRun(u, schedule) && n <= |schedule|
    ensures Inv(u, Interleaved(u, schedule, n))
  {
    assert Bounded(Interleaved(u, schedule, n));
    if n == 0 {
      StartsWell(u);
    } else {
      InvAlways(u, schedule, n - 1);
      StepKeepsInv(u, Interleaved(u, schedule, n - 1), schedule[n - 1]);
    }
  }

  /** Whatever the interleaving: slots and LSNs are distinct, no call fails to commit, two calls never
      write the same block, and blocks no call owns are as they were. */
  lemma {:induction false} InsertsDoNotInterfere(u: Setup, schedule: seq<nat>, n: nat, i: nat, j: nat)
    requires BoundedRun(u, schedule) && n <= |schedule| && i < |u.jobs| && j < |u.jobs| && i != j
    ensures var s := Interleaved(u, schedule, n);
            && Apart(s.threads[i], s.threads[j]) && !s.threads[i].stage.Errored?
            && (forall p :: !(OwnedBy(s.threads[i], p) && OwnedBy(s.threads[j], p)))
            && (forall p | Get(s.world, p) != Get(u.world, p) ::
                  exists k | 0 <= k < |u.jobs| :: OwnedBy(s.threads[k], p))
  {
    InvAlways(u, schedule, n);
    var s := Interleaved(u, schedule, n);
    assert ThreadOk(s.world, MetaOf(u, i), u.jobs[i], s.threads[i]);
    forall p ensures !(OwnedBy(s.threads[i], p) && OwnedBy(s.threads[j], p)) {
      if OwnedBy(s.threads[i], p) && OwnedBy(s.threads[j], p) {
        NoSharedBlock(u, s, i, j, p);
      }
    }
  }

  /** Write-ahead at every moment: a block of a call's slot is there only if its log entry is. */
  lemma {:induction false} StripOnlyWithEntry(u: Setup, schedule: seq<nat>, n: nat, i: nat, x: int)
    requires BoundedRun(u, schedule) && n <= |schedule| && i < |u.jobs|
    ensures var s := Interleaved(u, schedule, n);
            var th := s.threads[i];
            HasSlot(th) && RowBlock(s.world, th.z, x) != "" ==>
              && HasLsn(th)
              && (BookIs(s.world, MetaOf(u, i), u.jobs[i], th, PENDING)
                  || BookIs(s.world, MetaOf(u, i), u.jobs[i], th, COMMITTED))
  {
    InvAlways(u, schedule, n);
    var s := Interleaved(u, schedule, n);
    assert ThreadOk(s.world, MetaOf(u, i), u.jobs[i], s.threads[i]);
  }

  /** A scan that reads a slot at any moment finds the whole row of the call that owns it, or nothing. */
  lemma {:induction false} ScansSeeWholeRows(u: Setup, schedule: seq<nat>, n: nat, i: nat, values: Values)
    requires BoundedRun(u, schedule) && n <= |schedule| && i < |u.jobs|
    requires u.jobs[i].strip == Strip(MetaOf(u, i).columns, values, u.jobs[i].txid)
    requires HasSlot(Interleaved(u, schedule, n).threads[i])
    ensures var s, meta := Interleaved(u, schedule, n), MetaOf(u, i);
            var row := RowIn(s.world, meta.stripWidth, meta.yLevel, s.threads[i].z, meta.columns);
            row == None || row == Some(Row(u.jobs[i].txid, None, StoredColumns(meta.columns, values)))
  {
    InvAlways(u, schedule, n);
    var s := Interleaved(u, schedule, n);
    SlotIsWholeOrEmpty(u, s, i);
    WholeOrNothing(s.world, MetaOf(u, i), s.threads[i].z, u.jobs[i].strip, values, u.jobs[i].txid);
  }

  lemma {:induction false} SlotIsWholeOrEmpty(u: Setup, s: Sys, i: nat)
    requires Inv(u, s) && i < |u.jobs| && HasSlot(s.threads[i])
    ensures MetaOf(u, i).yLevel == TABLE_Y && |u.jobs[i].strip| == MetaOf(u, i).stripWidth
    ensures NoStrip(s.world, s.threads[i].z) || WholeStrip(s.world, s.threads[i].z, u.jobs[i].strip)
  {
    assert MetaOk(MetaOf(u, i)) && ThreadOk(s.world, MetaOf(u, i), u.jobs[i], s.threads[i]);
  }

  lemma {:induction false} WholeOrNothing(w: Blocks, meta: Meta, z: int, strip: seq<string>, values: Values,
                                          txid: int64)
    requires meta.yLevel == TABLE_Y && |strip| == meta.stripWidth && strip == Strip(meta.columns, values, txid)
    requires NoStrip(w, z) || WholeStrip(w, z, strip)
    ensures var row := RowIn(w, meta.stripWidth, meta.yLevel, z, meta.columns);
            row == None || row == Some(Row(txid, None, StoredColumns(meta.columns, values)))
  {
    var data := ReadStrip(w, meta.stripWidth, meta.yLevel, z);
    forall x | 0 <= x < |data| ensures data[x] == RowBlock(w, z, x) {
    }
    if WholeStrip(w, z, strip) {
      forall x | 0 <= x < |data| ensures data[x] == strip[x] {
        assert RowBlock(w, z, x) == At(strip, x);
      }
      assert data == strip;
      LayoutInverse(meta.columns, values, txid);
    } else {
      forall x | 0 <= x < |data| ensures data[x] == "" {
        assert RowBlock(w, z, x) == "";
      }
      EmptyStripIsNoRow(data, meta.columns);
    }
  }

  // ----- when all have returned -----

  /** Once every call has returned, each has its strip in place and its entry committed, and the log is
      quiet again: gap-free up to the next LSN and in no need of recovery. */
  lemma {:induction false} AllReturned(u: Setup, schedule: seq<nat>, n: nat)
    requires BoundedRun(u, schedule) && n <= |schedule|
    requires forall i | 0 <= i < |u.jobs| :: Interleaved(u, schedule, n).threads[i].stage.Returned?
    ensures var s := Interleaved(u, schedule, n);
            && Quiet(s.world, s.nextLSN)
            && (forall i | 0 <= i < |u.jobs| ::
                  && WholeStrip(s.world, s.threads[i].z, u.jobs[i].strip)
                  && BookIs(s.world, MetaOf(u, i), u.jobs[i], s.threads[i], COMMITTED))
  {
    InvAlways(u, schedule, n);
    var s := Interleaved(u, schedule, n);
    forall i | 0 <= i < |u.jobs|
      ensures WholeStrip(s.world, s.threads[i].z, u.jobs[i].strip)
      ensures BookIs(s.world, MetaOf(u, i), u.jobs[i], s.threads[i], COMMITTED)
    {
      assert ThreadOk(s.world, MetaOf(u, i), u.jobs[i], s.threads[i]);
    }
    EndsQuiet(u, s);
  }

  lemma {:induction false} EndsQuiet(u: Setup, s: Sys)
    requires Inv(u, s)
    requires forall i | 0 <= i < |u.jobs| :: s.threads[i].stage.Returned?
    ensures Quiet(s.world, s.nextLSN)
  {
    forall k | 1 <= k <= s.nextLSN - 1 ensures Settled(s.world, k) {
      SettledAtEnd(u, s, k);
    }
    forall k | k >= s.nextLSN ensures !Logged(s.world, k) {
      LaterLecternIsFree(u, s, k);
    }
  }

  lemma {:induction false} SettledAtEnd(u: Setup, s: Sys, k: int)
    requires Inv(u, s) && 1 <= k < s.nextLSN
    requires forall i | 0 <= i < |u.jobs| :: s.threads[i].stage.Returned?
    ensures Settled(s.world, k)
  {
    if k < u.lsn {
      OldBookKept(u, s, k);
    } else {
      assert IssuedTo(s.threads, k);
      var i :| 0 <= i < |s.threads| && HasLsn(s.threads[i]) && s.threads[i].lsn == k;
      NewBookSettled(u, s, i);
    }
  }

  lemma {:induction false} OldBookKept(u: Setup, s: Sys, k: int)
    requires Inv(u, s) && 1 <= k < u.lsn
    ensures Settled(s.world, k)
  {
    forall j | 0 <= j < |s.threads| ensures !OwnedBy(s.threads[j], Lectern(k)) {
      RangesArePositive(u, s, j);
      assert InRange(MetaOf(u, j), s.counts[u.jobs[j].table], u.lsn, s.nextLSN, s.threads[j]);
    }
    assert Settled(u.world, k);
  }

  lemma {:induction false} NewBookSettled(u: Setup, s: Sys, i: nat)
    requires Inv(u, s) && i < |u.jobs| && s.threads[i].stage.Returned?
    ensures Settled(s.world, s.threads[i].lsn)
  {
    var th, meta := s.threads[i], MetaOf(u, i);
    assert ThreadOk(s.world, meta, u.jobs[i], th);
    assert InRange(meta, s.counts[u.jobs[i].table], u.lsn, s.nextLSN, th);
    assert MetaOk(meta) && JobOk(meta, u.jobs[i]) && s.counts[u.jobs[i].table] <= SPACING;
    EntryIsOneLine(meta, u.jobs[i], th.z, th.lsn);
    CommittedIsInert(EntryFor(meta, u.jobs[i], th.z, th.lsn, COMMITTED));
  }

  lemma {:induction false} LaterLecternIsFree(u: Setup, s: Sys, k: int)
    requires Inv(u, s) && k >= s.nextLSN
    ensures !Logged(s.world, k)
  {
    forall j | 0 <= j < |s.threads| ensures !OwnedBy(s.threads[j], Lectern(k)) {
      RangesArePositive(u, s, j);
      assert InRange(MetaOf(u, j), s.counts[u.jobs[j].table], u.lsn, s.nextLSN, s.threads[j]);
    }
    assert !Logged(u.world, k);
  }
}
