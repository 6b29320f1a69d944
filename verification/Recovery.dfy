/** What recovery guarantees on any world, corrupt books included: it settles every entry of the
    gap-free run, running it again changes nothing, and stopping it after any of its writes and
    starting over reaches the same world. */
module Recovery {
  import opened GoText
  import opened World
  import opened Codec
  import opened LogEntry
  import opened Wal

  predicate Settled(w: Blocks, n: int) {
    Logged(w, n) && Inert(Get(w, Lectern(n)))
  }

  ghost predicate AllSettled(w: Blocks, k: nat) {
    forall i | 1 <= i <= k :: Settled(w, i)
  }

  /** Once dealt with, an entry is never acted on again, whatever its book said. */
  lemma {:induction false} HandleSettles(w: Blocks, n: int)
    requires Logged(w, n)
    ensures Settled(Handle(w, n), n)
  {
    HandleFrame(w, n);
    var book := Get(w, Lectern(n));
    if !Inert(book) {
      var e := Deserialize(book).value;
      ParsedIsOneLine(book);
      HeaderRoundTrip(e.(status := COMMITTED));
      SerializedIsNotEmpty(e.(status := COMMITTED));
    }
  }

  lemma {:induction false} HandleKeepsSettled(w: Blocks, n: int, i: int)
    requires Logged(w, n) && Settled(w, i)
    ensures Settled(Handle(w, n), i)
  {
    if i == n {
      HandleSettles(w, n);
    } else {
      HandleFrame(w, n);
      assert Lectern(i) != Lectern(n);
    }
  }

  lemma {:induction false} AfterSettles(w: Blocks, k: nat)
    requires k <= LogLength(w)
    ensures AllSettled(After(w, k), k)
  {
    if k > 0 {
      AfterSettles(w, k - 1);
      ScanEnds(w, k);
      SettlesNext(After(w, k - 1), k);
    }
  }

  lemma {:induction false} SettlesNext(w: Blocks, k: nat)
    requires k >= 1 && AllSettled(w, k - 1) && Logged(w, k)
    ensures AllSettled(Handle(w, k), k)
  {
    HandleSettles(w, k);
    forall i | 1 <= i <= k ensures Settled(Handle(w, k), i) {
      if i < k {
        HandleKeepsSettled(w, k, i);
      }
    }
  }

  lemma {:induction false} SettledIsFixed(w: Blocks, k: nat)
    requires AllSettled(w, k)
    ensures After(w, k) == w
  {
    if k > 0 {
      SettledIsFixed(w, k - 1);
      assert Settled(w, k);
    }
  }

  lemma {:induction false} SameLogSameLength(w: Blocks, w': Blocks)
    requires forall i :: Logged(w', i) <==> Logged(w, i)
    ensures LogLength(w') == LogLength(w)
  {
    LogLengthIsFirstGap(w);
    LogLengthUnique(w', LogLength(w));
  }

  lemma {:induction false} AfterKeepsLength(w: Blocks, k: nat)
    requires k <= LogLength(w)
    ensures LogLength(After(w, k)) == LogLength(w)
  {
    forall i ensures Logged(After(w, k), i) <==> Logged(w, i) {
      AfterKeepsLog(w, k, i);
    }
    SameLogSameLength(w, After(w, k));
  }

  /** One more recovery changes no block. */
  lemma {:induction false} RecoveryIsIdempotent(w: Blocks)
    ensures LogLength(Recovered(w)) == LogLength(w)
    ensures AllSettled(Recovered(w), LogLength(w))
    ensures Recovered(Recovered(w)) == Recovered(w)
  {
    var n := LogLength(w);
    AfterKeepsLength(w, n);
    AfterSettles(w, n);
    SettledIsFixed(Recovered(w), n);
  }

  // ----- restarting -----

  lemma {:induction false} CatchUp(t: Blocks, w: Blocks, j: nat, k: nat)
    requires j <= k && After(t, j) == After(w, j)
    ensures After(t, k) == After(w, k)
  {
    if j < k {
      CatchUp(t, w, j, k - 1);
    }
  }

  /** Replaying twice is replaying once. */
  lemma {:induction false} ReplayTwice(w: Blocks, e: Entry)
    requires Replayable(e)
    ensures Replay(Replay(w, e), e) == Replay(w, e)
  {
    if Unapplied(w, e) {
      var txid := ParseInt(e.newValue).value;
      Int64RoundTrip(txid);
      var (s1, s2) := Int64Banners(txid);
      var w' := WriteXmax(w, e.y, e.z, txid);
      assert Get(w', Pos(2, e.y, e.z)) == s1 && Get(w', Pos(3, e.y, e.z)) == s2;
    }
  }

  lemma {:induction false} ReplayKeepsBook(w: Blocks, e: Entry, i: int)
    requires Replayable(e)
    ensures Get(Replay(w, e), Lectern(i)) == Get(w, Lectern(i))
  {
  }

  /** Stopped between the replay and the commit of an entry, the entry is dealt with all the same. */
  lemma {:induction false} HandleAfterReplay(w: Blocks, n: int)
    requires !Inert(Get(w, Lectern(n)))
    ensures var e := Deserialize(Get(w, Lectern(n))).value;
            Handle(Replay(w, e), n) == Handle(w, n)
  {
    var e := Deserialize(Get(w, Lectern(n))).value;
    ReplayTwice(w, e);
    ReplayKeepsBook(w, e, n);
  }

  /** A world from which recovery ends as it would have from w. */
  ghost predicate Resumes(t: Blocks, w: Blocks) {
    LogLength(t) == LogLength(w) && Recovered(t) == Recovered(w)
  }

  lemma {:induction false} ResumesFrom(t: Blocks, w: Blocks, k: nat)
    requires k <= LogLength(w) == LogLength(t) && After(t, k) == After(w, k)
    ensures Resumes(t, w)
  {
    CatchUp(t, w, k, LogLength(w));
  }

  lemma {:induction false} ResumesAfter(w: Blocks, k: nat)
    requires k <= LogLength(w)
    ensures Resumes(After(w, k), w)
  {
    AfterKeepsLength(w, k);
    AfterSettles(w, k);
    SettledIsFixed(After(w, k), k);
    ResumesFrom(After(w, k), w, k);
  }

  /** Stopped between the replay and the commit of entry k. */
  lemma {:induction false} ResumesMidEntry(w: Blocks, v: Blocks, k: nat, e: Entry)
    requires 1 <= k <= LogLength(w) && v == After(w, k - 1)
    requires !Inert(Get(v, Lectern(k))) && e == Deserialize(Get(v, Lectern(k))).value
    ensures Resumes(Replay(v, e), w)
  {
    AfterSettles(w, k - 1);
    MidEntry(v, e, k);
    ResumesMid(w, v, Replay(v, e), k);
  }

  lemma {:induction false} MidEntry(v: Blocks, e: Entry, k: nat)
    requires k >= 1 && AllSettled(v, k - 1)
    requires !Inert(Get(v, Lectern(k))) && e == Deserialize(Get(v, Lectern(k))).value
    ensures LogLength(Replay(v, e)) == LogLength(v) && After(Replay(v, e), k) == Handle(v, k)
  {
    ReplayKeepsLength(v, e);
    SettledThenHandled(v, e, k);
  }

  lemma {:induction false} ResumesMid(w: Blocks, v: Blocks, t: Blocks, k: nat)
    requires 1 <= k <= LogLength(w) && v == After(w, k - 1)
    requires LogLength(t) == LogLength(v) && After(t, k) == Handle(v, k)
    ensures Resumes(t, w)
  {
    AfterKeepsLength(w, k - 1);
    NextAfter(w, v, k);
    ResumesFrom(t, w, k);
  }

  lemma {:induction false} NextAfter(w: Blocks, v: Blocks, k: nat)
    requires k >= 1 && v == After(w, k - 1)
    ensures After(w, k) == Handle(v, k)
  {
  }

  lemma {:induction false} SettledThenHandled(v: Blocks, e: Entry, k: nat)
    requires k >= 1 && AllSettled(v, k - 1)
    requires !Inert(Get(v, Lectern(k))) && e == Deserialize(Get(v, Lectern(k))).value
    ensures After(Replay(v, e), k) == Handle(v, k)
  {
    ReplayKeepsSettled(v, e, k - 1);
    SettledIsFixed(Replay(v, e), k - 1);
    HandleAfterReplay(v, k);
  }

  lemma {:induction false} ReplayKeepsLength(w: Blocks, e: Entry)
    requires Replayable(e)
    ensures LogLength(Replay(w, e)) == LogLength(w)
  {
    forall i ensures Logged(Replay(w, e), i) <==> Logged(w, i) {
      ReplayKeepsBook(w, e, i);
    }
    SameLogSameLength(w, Replay(w, e));
  }

  lemma {:induction false} ReplayKeepsSettled(w: Blocks, e: Entry, k: nat)
    requires Replayable(e) && AllSettled(w, k)
    ensures AllSettled(Replay(w, e), k)
  {
    forall i | 1 <= i <= k ensures Settled(Replay(w, e), i) {
      assert Settled(w, i);
      ReplayKeepsBook(w, e, i);
    }
  }

  lemma {:induction false} HandleTraceMembers(told: seq<Blocks>, w: Blocks, n: int, i: nat)
    requires |told| <= i < |HandleTrace(told, w, n)|
    ensures !Inert(Get(w, Lectern(n)))
    ensures var t := HandleTrace(told, w, n)[i];
            t == Handle(w, n) || t == Replay(w, Deserialize(Get(w, Lectern(n))).value)
  {
  }

  lemma {:induction false} TraceResumes(w: Blocks, k: nat, i: nat)
    requires k <= LogLength(w) && i < |AfterTrace([], w, k)|
    ensures Resumes(AfterTrace([], w, k)[i], w)
  {
    if k > 0 {
      var v, told := After(w, k - 1), AfterTrace([], w, k - 1);
      if i < |told| {
        TraceResumes(w, k - 1, i);
        HandleTraceExtends(told, v, k);
      } else {
        LastWritesResume(w, told, v, k, i);
      }
    }
  }

  lemma {:induction false} LastWritesResume(w: Blocks, told: seq<Blocks>, v: Blocks, k: nat, i: nat)
    requires 1 <= k <= LogLength(w) && v == After(w, k - 1)
    requires |told| <= i < |HandleTrace(told, v, k)|
    ensures Resumes(HandleTrace(told, v, k)[i], w)
  {
    HandleTraceMembers(told, v, k, i);
    ResumesAfter(w, k);
    ResumesMidEntry(w, v, k, Deserialize(Get(v, Lectern(k))).value);
  }

  lemma {:induction false} HandleTraceExtends(told: seq<Blocks>, w: Blocks, n: int)
    ensures told <= HandleTrace(told, w, n)
  {
  }

  /** Recovery stopped after any of its writes: the next recovery, from a fresh log object, ends in
      the same world with the same next LSN. */
  lemma {:induction false} RecoveryIsRestartable(w: Blocks, i: nat)
    requires i < |RecoverTrace([], w)|
    ensures Resumes(RecoverTrace([], w)[i], w)
  {
    TraceResumes(w, LogLength(w), i);
  }

  /** The world in which a recovery is interrupted once it has made k writes. */
  ghost function Interrupted(w: Blocks, k: nat): Blocks {
    var worlds := RecoverTrace([], w);
    if k == 0 then w else if k <= |worlds| then worlds[k - 1] else Recovered(w)
  }

  ghost function InterruptedAll(w: Blocks, stops: seq<nat>): Blocks
    decreases |stops|
  {
    if stops == [] then w else InterruptedAll(Interrupted(w, stops[0]), stops[1..])
  }

  /** Any number of recoveries, each cut short anywhere, leave the final outcome unchanged. */
  lemma {:induction false} AnyInterruptions(w: Blocks, stops: seq<nat>)
    ensures Resumes(InterruptedAll(w, stops), w)
    decreases |stops|
  {
    if stops != [] {
      var k := stops[0];
      if 0 < k <= |RecoverTrace([], w)| {
        RecoveryIsRestartable(w, k - 1);
      } else if k > 0 {
        RecoveryIsIdempotent(w);
      }
      AnyInterruptions(Interrupted(w, k), stops[1..]);
    }
  }

  /** Recovery touches only lecterns of the gap-free run and blocks at X = 2 and X = 3. */
  lemma {:induction false} RecoveryFootprint(w: Blocks, p: Pos)
    requires !Touchable(p, LogLength(w))
    ensures Get(Recovered(w), p) == Get(w, p)
  {
    AfterFrame(w, LogLength(w));
  }

  // ----- the delete mark recovery leaves -----

  /** How storage reads the two xmax banners: unreadable, null, or a transaction id. */
  function ReadXmax(s1: string, s2: string): (r: Option<Option<int>>) {
    if IsNull(s1, s2) then Some(None)
    else
      var v := ReadInt64(s1, s2);
      if v.None? then None else Some(v)
  }

  function XmaxAt(w: Blocks, y: int, z: int): (r: Option<Option<int>>) {
    ReadXmax(Get(w, Pos(2, y, z)), Get(w, Pos(3, y, z)))
  }

  /** Whatever the two banners hold, torn or garbage, storage reads the logged transaction id after
      the replay; the one exception is id -1 over the null sentinel, which decodes to -1. */
  lemma {:induction false} ReplayedXmax(w: Blocks, e: Entry)
    requires e.op == UPDATE_XMAX && Replayable(e)
    ensures XmaxAt(Replay(w, e), e.y, e.z) == Some(ParseInt(e.newValue))
            <==> !(ParseInt(e.newValue) == Some(-1) && XmaxAt(w, e.y, e.z) == Some(None))
  {
    var txid := ParseInt(e.newValue).value;
    NullReadsAsMinusOne();
    if Unapplied(w, e) {
      Int64RoundTrip(txid);
      Int64NeverNull(txid);
      var (s1, s2) := Int64Banners(txid);
      var w' := WriteXmax(w, e.y, e.z, txid);
      assert Get(w', Pos(2, e.y, e.z)) == s1 && Get(w', Pos(3, e.y, e.z)) == s2;
    }
  }
}
