/** The log over any number of crash and recovery epochs with one statement at a time: a persisted
    entry is only ever overwritten by its own committed form, and no persisted LSN is issued again. */
module Epochs {
  import opened GoText
  import opened World
  import opened LogEntry
  import opened Wal
  import opened Recovery
  import opened Store
  import opened WriteSequence
  import opened Crash

  /** What may become of a book: it stays, or a readable uncommitted entry turns committed. */
  predicate BookStep(b: string, b': string) {
    b' == b || (var e := Deserialize(b); e.Some? && e.value.status != COMMITTED && b' == Committed(e.value))
  }

  ghost predicate LogStep(w: Blocks, w': Blocks) {
    forall n | n >= 1 && Logged(w, n) :: Logged(w', n) && BookStep(Get(w, Lectern(n)), Get(w', Lectern(n)))
  }

  /** A committed book never changes again, so two steps are one. */
  lemma {:induction false} BookStepTransitive(a: string, b: string, c: string)
    requires BookStep(a, b) && BookStep(b, c)
    ensures BookStep(a, c)
  {
    if b != a {
      ParsedIsOneLine(a);
      HeaderRoundTrip(Deserialize(a).value.(status := COMMITTED));
    }
  }

  lemma {:induction false} LogStepTransitive(u: Blocks, v: Blocks, w: Blocks)
    requires LogStep(u, v) && LogStep(v, w)
    ensures LogStep(u, w)
  {
    forall n | n >= 1 && Logged(u, n) ensures Logged(w, n) && BookStep(Get(u, Lectern(n)), Get(w, Lectern(n))) {
      assert Logged(v, n);
      BookStepTransitive(Get(u, Lectern(n)), Get(v, Lectern(n)), Get(w, Lectern(n)));
    }
  }

  lemma {:induction false} SameBooksStep(w: Blocks, w': Blocks)
    requires forall n | n >= 1 && Logged(w, n) :: Get(w', Lectern(n)) == Get(w, Lectern(n))
    ensures LogStep(w, w')
  {
  }

  /** Consecutive elements are related. */
  ghost predicate Linked<T(!new)>(rel: (T, T) -> bool, ws: seq<T>) {
    forall i | 0 < i < |ws| :: rel(ws[i - 1], ws[i])
  }

  // ----- recovery makes log steps -----

  lemma {:induction false} ReplayIsLogStep(w: Blocks, e: Entry)
    requires Replayable(e)
    ensures LogStep(w, Replay(w, e))
  {
    forall n | n >= 1 && Logged(w, n) ensures Get(Replay(w, e), Lectern(n)) == Get(w, Lectern(n)) {
      ReplayKeepsBook(w, e, n);
    }
    SameBooksStep(w, Replay(w, e));
  }

  // ----- the system, one HAL write at a time -----

  /** Where the engine stands: between statements, after the entry, after the data, down, in a
      recovery with k entries dealt with, or there with entry k+1 replayed and not yet committed. */
  datatype Phase = Idle(lsn: int) | Appended(lsn: int, op: LoggedOp) | Written(lsn: int, op: LoggedOp)
                 | Down | Scanning(k: nat) | Replayed(k: nat, e: Entry)

  datatype System = System(world: Blocks, phase: Phase)

  /** Begin takes the next LSN and persists the entry; Crash can strike anywhere; Boot is a fresh log
      object starting its recovery. */
  datatype Action = Begin(op: LoggedOp) | WriteData | Commit | Crash | Boot | Advance

  /** What one action does; None if it cannot happen there. */
  ghost function Next(s: System, a: Action): (r: Option<System>) {
    match a
    case Begin(op) =>
      if s.phase.Idle? then Some(System(AfterAppend(s.world, s.phase.lsn, op), Appended(s.phase.lsn, op))) else None
    case WriteData =>
      if s.phase.Appended? then Some(System(PutAll(s.world, s.phase.op.writes), Written(s.phase.lsn, s.phase.op)))
      else None
    case Commit =>
      if s.phase.Written? then
        var w := CommitOf(s.world, s.phase.lsn);
        if w.None? then Some(System(s.world, Down)) else Some(System(w.value, Idle(s.phase.lsn + 1)))
      else None
    case Crash => Some(System(s.world, Down))
    case Boot => if s.phase.Down? then Some(System(s.world, Scanning(0))) else None
    case Advance => if s.phase.Scanning? || s.phase.Replayed? then Some(AdvanceRecovery(s)) else None
  }

  /** One step of the recovery loop, cut at its writes. */
  function AdvanceRecovery(s: System): System
    requires s.phase.Scanning? || s.phase.Replayed?
  {
    var n := s.phase.k + 1;
    if s.phase.Replayed? then System(Put(s.world, Lectern(n), Committed(s.phase.e)), Scanning(n))
    else
      var book := Get(s.world, Lectern(n));
      if book == "" then System(s.world, Idle(n))
      else if Inert(book) then System(s.world, Scanning(n))
      else
        var e := Deserialize(book).value;
        System(Replay(s.world, e), Replayed(s.phase.k, e))
  }

  /** The log has no holes. */
  ghost predicate Tight(w: Blocks) {
    forall i, k | 1 <= i <= k && Logged(w, k) :: Logged(w, i)
  }

  ghost predicate Inv(s: System) {
    && Tight(s.world)
    && match s.phase
       case Idle(lsn) => Quiet(s.world, lsn)
       case Appended(lsn, op) => OnePending(s.world, lsn, EntryOf(op, lsn, PENDING)) && OffLog(op)
       case Written(lsn, op) => OnePending(s.world, lsn, EntryOf(op, lsn, PENDING))
       case Down => true
       case Scanning(k) => AllSettled(s.world, k)
       case Replayed(k, e) =>
         && AllSettled(s.world, k) && !Inert(Get(s.world, Lectern(k + 1)))
         && Deserialize(Get(s.world, Lectern(k + 1))) == Some(e)
  }

  /** Statements the engine can log: their fields are int64, their data lies off the log. */
  predicate CanBegin(s: System, a: Action) {
    a.Begin? && s.phase.Idle? ==> Loggable(a.op, s.phase.lsn)
  }

  lemma {:induction false} SameLogTight(w: Blocks, w': Blocks)
    requires Tight(w) && forall n | n >= 1 :: Logged(w', n) <==> Logged(w, n)
    ensures Tight(w')
  {
    forall i, k | 1 <= i <= k && Logged(w', k) ensures Logged(w', i) {
      assert Logged(w, k) && Logged(w, i);
    }
  }

  lemma {:induction false} BeginStep(w: Blocks, lsn: int, op: LoggedOp)
    requires Tight(w) && Quiet(w, lsn) && Loggable(op, lsn) && OffLog(op)
    ensures Inv(System(AfterAppend(w, lsn, op), Appended(lsn, op)))
    ensures !Logged(w, lsn) && LogStep(w, AfterAppend(w, lsn, op))
  {
    var v := AfterAppend(w, lsn, op);
    AppendLeavesOnePending(w, lsn, op);
    SerializedIsNotEmpty(EntryOf(op, lsn, PENDING));
    forall n | n >= 1 && n != lsn ensures Get(v, Lectern(n)) == Get(w, Lectern(n)) {
      assert Lectern(n) != Lectern(lsn);
    }
    PendingIsTight(v, lsn, EntryOf(op, lsn, PENDING));
    SameBooksStep(w, v);
  }

  lemma {:induction false} PendingIsTight(v: Blocks, lsn: int, e: Entry)
    requires OnePending(v, lsn, e)
    ensures Tight(v)
  {
    SerializedIsNotEmpty(e);
    forall i, k | 1 <= i <= k && Logged(v, k) ensures Logged(v, i) {
      assert i < lsn ==> Settled(v, i);
    }
  }

  lemma {:induction false} DataStep(w: Blocks, lsn: int, op: LoggedOp)
    requires Tight(w) && OnePending(w, lsn, EntryOf(op, lsn, PENDING)) && OffLog(op)
    ensures Inv(System(PutAll(w, op.writes), Written(lsn, op)))
    ensures LogStep(w, PutAll(w, op.writes))
  {
    var v := PutAll(w, op.writes);
    forall n | n >= 1 ensures Get(v, Lectern(n)) == Get(w, Lectern(n)) {
      PutAllElsewhere(w, op.writes, Lectern(n));
    }
    SameLogTight(w, v);
    SameBooksStep(w, v);
    SameBooksSettled(w, v, lsn - 1);
  }

  lemma {:induction false} SameBooksSettled(w: Blocks, v: Blocks, k: nat)
    requires AllSettled(w, k) && forall n | n >= 1 :: Get(v, Lectern(n)) == Get(w, Lectern(n))
    ensures AllSettled(v, k)
  {
    forall i | 1 <= i <= k ensures Settled(v, i) {
      assert Settled(w, i);
    }
  }

  /** Commit always finds the pending entry of its own statement. */
  lemma {:induction false} CommitStep(w: Blocks, lsn: int, op: LoggedOp)
    requires Tight(w) && OnePending(w, lsn, EntryOf(op, lsn, PENDING))
    ensures CommitOf(w, lsn).Some?
    ensures Inv(System(CommitOf(w, lsn).value, Idle(lsn + 1))) && LogStep(w, CommitOf(w, lsn).value)
  {
    var e := EntryOf(op, lsn, PENDING);
    RoundTrip(e);
    var v := CommitOf(w, lsn).value;
    assert v == Put(w, Lectern(lsn), Committed(e));
    CommitsEntry(w, v, lsn, e);
    QuietAfterCommit(w, v, lsn, e);
  }

  /** Writing an entry's committed form over it, and nothing else. */
  lemma {:induction false} CommitsEntry(w: Blocks, v: Blocks, n: int, e: Entry)
    requires Tight(w) && n >= 1 && v == Put(w, Lectern(n), Committed(e))
    requires Deserialize(Get(w, Lectern(n))) == Some(e) && e.status != COMMITTED && Logged(w, n)
    ensures Tight(v) && LogStep(w, v) && Settled(v, n)
    ensures forall k | k >= 1 && k != n :: Get(v, Lectern(k)) == Get(w, Lectern(k))
  {
    ParsedIsOneLine(Get(w, Lectern(n)));
    CommittedIsInert(e.(status := COMMITTED));
    forall k | k >= 1 && k != n ensures Get(v, Lectern(k)) == Get(w, Lectern(k)) {
      assert Lectern(k) != Lectern(n);
    }
    SameLogTight(w, v);
  }

  lemma {:induction false} QuietAfterCommit(w: Blocks, v: Blocks, lsn: int, e: Entry)
    requires OnePending(w, lsn, e) && Settled(v, lsn)
    requires forall k | k >= 1 && k != lsn :: Get(v, Lectern(k)) == Get(w, Lectern(k))
    ensures Quiet(v, lsn + 1)
  {
    forall i | 1 <= i <= lsn ensures Settled(v, i) {
      if i < lsn {
        assert Settled(w, i) && Get(v, Lectern(i)) == Get(w, Lectern(i));
      }
    }
    forall k | k >= lsn + 1 ensures !Logged(v, k) {
      assert !Logged(w, k) && Get(v, Lectern(k)) == Get(w, Lectern(k));
    }
  }

  lemma {:induction false} ScanEndsQuiet(w: Blocks, k: nat)
    requires Tight(w) && AllSettled(w, k) && !Logged(w, k + 1)
    ensures Quiet(w, k + 1)
  {
    forall i | i >= k + 1 ensures !Logged(w, i) {
    }
  }

  lemma {:induction false} ReplayStep(w: Blocks, k: nat, e: Entry)
    requires Tight(w) && AllSettled(w, k)
    requires !Inert(Get(w, Lectern(k + 1))) && Deserialize(Get(w, Lectern(k + 1))) == Some(e)
    ensures Inv(System(Replay(w, e), Replayed(k, e))) && LogStep(w, Replay(w, e))
  {
    ReplayIsLogStep(w, e);
    forall i | i >= 1 ensures Get(Replay(w, e), Lectern(i)) == Get(w, Lectern(i)) {
      ReplayKeepsBook(w, e, i);
    }
    SameBooksReplayed(w, Replay(w, e), k, e);
  }

  lemma {:induction false} SameBooksReplayed(w: Blocks, t: Blocks, k: nat, e: Entry)
    requires Tight(w) && AllSettled(w, k)
    requires !Inert(Get(w, Lectern(k + 1))) && Deserialize(Get(w, Lectern(k + 1))) == Some(e)
    requires forall i | i >= 1 :: Get(t, Lectern(i)) == Get(w, Lectern(i))
    ensures Inv(System(t, Replayed(k, e)))
  {
    SameLogTight(w, t);
    SameBooksSettled(w, t, k);
  }

  lemma {:induction false} ScanStep(w: Blocks, k: nat)
    requires Inv(System(w, Scanning(k)))
    ensures var s' := AdvanceRecovery(System(w, Scanning(k))); Inv(s') && LogStep(w, s'.world)
  {
    SameBooksStep(w, w);
    var book := Get(w, Lectern(k + 1));
    if book == "" {
      ScanEndsQuiet(w, k);
    } else if Inert(book) {
      SettledOneMore(w, k);
    } else {
      ReplayStep(w, k, Deserialize(book).value);
    }
  }

  lemma {:induction false} SettledOneMore(w: Blocks, k: nat)
    requires AllSettled(w, k) && Settled(w, k + 1)
    ensures AllSettled(w, k + 1)
  {
  }

  lemma {:induction false} ReplayedStep(s: System)
    requires Inv(s) && s.phase.Replayed?
    ensures Inv(AdvanceRecovery(s)) && LogStep(s.world, AdvanceRecovery(s).world)
  {
    var w, n, e := s.world, s.phase.k + 1, s.phase.e;
    var v := Put(w, Lectern(n), Committed(e));
    assert Logged(w, n) by {
      EmptyBookIsInert();
    }
    CommitsEntry(w, v, n, e);
    forall i | 1 <= i <= n ensures Settled(v, i) {
      if i < n {
        assert Settled(w, i) && Get(v, Lectern(i)) == Get(w, Lectern(i));
      }
    }
  }

  lemma {:induction false} EmptyBookIsInert()
    ensures Inert("")
  {
    assert IndexFrom("", PAGE_SEP, 0) == -1;
  }

  /** Every action keeps the invariant, and moves books only from pending to committed. */
  lemma {:induction false} ActionStep(s: System, a: Action)
    requires Inv(s) && CanBegin(s, a) && Next(s, a).Some?
    requires a.Begin? ==> OffLog(a.op)
    ensures Inv(Next(s, a).value) && LogStep(s.world, Next(s, a).value.world)
  {
    SameBooksStep(s.world, s.world);
    match a
    case Begin(op) => BeginStep(s.world, s.phase.lsn, op);
    case WriteData => DataStep(s.world, s.phase.lsn, s.phase.op);
    case Commit => CommitStep(s.world, s.phase.lsn, s.phase.op);
    case Crash =>
    case Boot =>
    case Advance =>
      if s.phase.Scanning? {
        ScanStep(s.world, s.phase.k);
      } else {
        ReplayedStep(s);
      }
  }

  // ----- whole runs -----

  ghost predicate Goes(s: System, s': System) {
    exists a :: CanBegin(s, a) && (a.Begin? ==> OffLog(a.op)) && Next(s, a) == Some(s')
  }

  /** A run: any statements, crashes and recoveries, in any order and cut anywhere. */
  ghost predicate IsRun(ss: seq<System>) {
    ss != [] && Inv(ss[0]) && Linked(Goes, ss)
  }

  lemma {:induction false} RunInv(ss: seq<System>, i: nat)
    requires IsRun(ss) && i < |ss|
    ensures Inv(ss[i])
  {
    if i > 0 {
      RunInv(ss, i - 1);
      GoesStep(ss[i - 1], ss[i]);
    }
  }

  lemma {:induction false} GoesStep(s: System, s': System)
    requires Inv(s) && Goes(s, s')
    ensures Inv(s') && LogStep(s.world, s'.world)
  {
    var a :| CanBegin(s, a) && (a.Begin? ==> OffLog(a.op)) && Next(s, a) == Some(s');
    ActionStep(s, a);
  }

  /** Over any run a persisted entry is overwritten only by its own committed form. */
  lemma {:induction false} EntriesOnlyCommit(ss: seq<System>, i: nat, j: nat)
    requires IsRun(ss) && i <= j < |ss|
    ensures LogStep(ss[i].world, ss[j].world)
    decreases j
  {
    if i == j {
      SameBooksStep(ss[i].world, ss[i].world);
    } else {
      EntriesOnlyCommit(ss, i, j - 1);
      RunInv(ss, j - 1);
      GoesStep(ss[j - 1], ss[j]);
      LogStepTransitive(ss[i].world, ss[j - 1].world, ss[j].world);
    }
  }

  /** And the LSN a statement is about to take has been persisted nowhere earlier in the run. */
  lemma {:induction false} NoLsnTwice(ss: seq<System>, i: nat, j: nat)
    requires IsRun(ss) && i <= j < |ss| && ss[j].phase.Idle?
    ensures !Logged(ss[i].world, ss[j].phase.lsn)
  {
    RunInv(ss, j);
    EntriesOnlyCommit(ss, i, j);
    assert !Logged(ss[j].world, ss[j].phase.lsn);
  }

  /** An engine started on an empty world is such a system. */
  lemma {:induction false} EmptyWorldStarts()
    ensures Inv(System(map[], Idle(1)))
  {
  }

  // ----- the recovery of this system is that of the code -----

  function Advanced(s: System, n: nat): System {
    if n == 0 then s
    else
      var t := Advanced(s, n - 1);
      if t.phase.Scanning? || t.phase.Replayed? then AdvanceRecovery(t) else t
  }

  lemma {:induction false} AdvancedTwice(s: System, n: nat)
    requires Advanced(s, n).phase.Scanning? && AdvanceRecovery(Advanced(s, n)).phase.Replayed?
    ensures Advanced(s, n + 1) == AdvanceRecovery(Advanced(s, n))
    ensures Advanced(s, n + 2) == AdvanceRecovery(AdvanceRecovery(Advanced(s, n)))
  {
    assert Advanced(s, n + 1) == AdvanceRecovery(Advanced(s, n));
  }

  /** One or two advances deal with an entry as Handle does; where there is none the scan ends. */
  lemma {:induction false} AdvanceIsHandle(w: Blocks, k: nat)
    ensures var s := AdvanceRecovery(System(w, Scanning(k)));
            if !Logged(w, k + 1) then s == System(w, Idle(k + 1))
            else if s.phase.Scanning? then s == System(Handle(w, k + 1), Scanning(k + 1))
            else s.phase.Replayed? && AdvanceRecovery(s) == System(Handle(w, k + 1), Scanning(k + 1))
  {
  }

  lemma {:induction false} AdvancesPast(s: System, m: nat, w: Blocks, k: nat, k': nat) returns (n: nat)
    requires Advanced(s, m) == System(w, Scanning(k)) && k' == k + 1 && Logged(w, k')
    ensures Advanced(s, n) == System(Handle(w, k'), Scanning(k'))
  {
    AdvanceIsHandle(w, k);
    if AdvanceRecovery(System(w, Scanning(k))).phase.Scanning? {
      n := m + 1;
    } else {
      n := m + 2;
      AdvancedTwice(s, m);
    }
  }

  lemma {:induction false} AdvancesOut(s: System, m: nat, w: Blocks, k: nat) returns (n: nat)
    requires Advanced(s, m) == System(w, Scanning(k)) && !Logged(w, k + 1)
    ensures Advanced(s, n) == System(w, Idle(k + 1))
  {
    n := m + 1;
    AdvanceIsHandle(w, k);
  }

  /** Some number of advances leads there; sealed. */
  ghost predicate LeadsTo(s: System, t: System) {
    forall b {:trigger Open(OfFlow, b)} :: Open(OfFlow, b) ==> exists n: nat :: Advanced(s, n) == t
  }

  lemma {:induction false} LeadsPast(s: System, w: Blocks, k: nat, k': nat, v: Blocks)
    requires LeadsTo(s, System(w, Scanning(k))) && k' == k + 1 && Logged(w, k') && v == Handle(w, k')
    ensures LeadsTo(s, System(v, Scanning(k')))
  {
    assert Open(OfFlow, true);
    var m: nat :| Advanced(s, m) == System(w, Scanning(k));
    var n := AdvancesPast(s, m, w, k, k');
  }

  lemma {:induction false} LeadsOut(s: System, w: Blocks, k: nat)
    requires LeadsTo(s, System(w, Scanning(k))) && !Logged(w, k + 1)
    ensures LeadsTo(s, System(w, Idle(k + 1)))
  {
    assert Open(OfFlow, true);
    var m: nat :| Advanced(s, m) == System(w, Scanning(k));
    var n := AdvancesOut(s, m, w, k);
  }

  /** Entry j + 1 is there and is handled. */
  ghost predicate Handles(f: nat -> Blocks, j: nat) {
    Logged(f(j), j + 1) && f(j + 1) == Handle(f(j), j + 1)
  }

  lemma {:induction false} LeadsOneMore(s: System, f: nat -> Blocks, j: nat, k: nat)
    requires k == j + 1 && Handles(f, j) && LeadsTo(s, System(f(j), Scanning(j)))
    ensures LeadsTo(s, System(f(k), Scanning(k)))
  {
    LeadsPast(s, f(j), j, k, f(k));
  }

  lemma {:induction false} LeadsNowhere(s: System)
    ensures LeadsTo(s, s)
  {
    assert Advanced(s, 0) == s;
  }

  ghost function LeadsAt(s: System, f: nat -> Blocks): nat -> bool {
    (j: nat) => LeadsTo(s, System(f(j), Scanning(j)))
  }

  lemma {:induction false} LeadsNext(s: System, f: nat -> Blocks, j: nat)
    requires Handles(f, j)
    ensures Carries(LeadsAt(s, f), j)
  {
    if LeadsTo(s, System(f(j), Scanning(j))) {
      LeadsOneMore(s, f, j, j + 1);
    }
  }

  lemma {:induction false} LeadsAll(s: System, f: nat -> Blocks, k: nat)
    requires s == System(f(0), Scanning(0)) && forall j: nat | j < k :: Handles(f, j)
    ensures LeadsTo(s, System(f(k), Scanning(k)))
  {
    forall j: nat | j < k ensures Carries(LeadsAt(s, f), j) {
      LeadsNext(s, f, j);
    }
    LeadsNowhere(s);
    CountUp(LeadsAt(s, f), k);
  }

  ghost function Along(w: Blocks): nat -> Blocks {
    (j: nat) => After(w, j)
  }

  lemma {:induction false} EachIsHandled(w: Blocks, j: nat)
    requires j < LogLength(w)
    ensures Handles(Along(w), j)
  {
    ScanEnds(w, j + 1);
  }

  lemma {:induction false} LeadsAlong(w: Blocks, k: nat)
    requires k <= LogLength(w)
    ensures LeadsTo(System(w, Scanning(0)), System(After(w, k), Scanning(k)))
  {
    forall j: nat | j < k ensures Handles(Along(w), j) {
      EachIsHandled(w, j);
    }
    LeadsAll(System(w, Scanning(0)), Along(w), k);
  }

  /** Booted on any world and left to run, the system ends in the world and at the LSN where Recover ends. */
  lemma {:induction false} RecoveryIsAdvances(w: Blocks) returns (n: nat)
    ensures Advanced(System(w, Scanning(0)), n) == System(Recovered(w), Idle(LogLength(w) + 1))
  {
    LeadsAlong(w, LogLength(w));
    LogEndsThere(w, LogLength(w));
    LeadsOut(System(w, Scanning(0)), Recovered(w), LogLength(w));
    assert Open(OfFlow, true);
    n :| Advanced(System(w, Scanning(0)), n) == System(Recovered(w), Idle(LogLength(w) + 1));
  }

  lemma {:induction false} LogEndsThere(w: Blocks, k: nat)
    requires k == LogLength(w)
    ensures !Logged(After(w, k), k + 1)
  {
    AfterFrame(w, k);
    LogLengthIsFirstGap(w);
  }
}
