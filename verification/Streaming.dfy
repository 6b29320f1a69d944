/** DELETE scans and marks at the same time: a goroutine reads slots ahead while the executor marks
    rows it has already received. Whatever the interleaving, the scan reads every slot as it was
    before the statement. */
module Streaming {
  import opened GoText
  import opened World
  import opened Wal
  import opened Layout
  import opened Store
  import opened MarkSteps
  import opened WriteSequence
  import opened RefineDelete

  // ----- what a mark touches -----

  lemma {:induction false} SequenceTouches(w: Blocks, lsn: int, op: LoggedOp, p: Pos)
    requires p != Lectern(lsn) && forall i | 0 <= i < |op.writes| :: op.writes[i].pos != p
    ensures Get(AfterAppend(w, lsn, op), p) == Get(w, p)
    ensures Get(AfterData(w, lsn, op), p) == Get(w, p)
    ensures Get(Finished(w, lsn, op), p) == Get(w, p)
  {
    PutAllElsewhere(AfterAppend(w, lsn, op), op.writes, p);
  }

  /** Off its lectern a mark changes two blocks, in any world and whether or not it succeeds. */
  lemma {:induction false} MarkFootprint(m: Marks, pos: Pos, txid: int, p: Pos)
    requires p != Lectern(m.lsn) && p != Pos(2, pos.y, pos.z) && p != Pos(3, pos.y, pos.z)
    ensures Get(Mark(m, pos, txid).world, p) == Get(m.world, p)
    ensures m.lsn <= Mark(m, pos, txid).lsn <= m.lsn + 1
  {
    SequenceTouches(m.world, m.lsn, DeleteOp(pos, txid), p);
  }

  /** A block some statement may write: one of its own lecterns, or an xmax banner of a row it matched. */
  ghost predicate OwnBlock(p: Pos, lsn: int, ms: seq<Scanned>) {
    || (exists k | lsn <= k < lsn + |ms| :: p == Lectern(k))
    || (exists i | 0 <= i < |ms| :: p.x in {2, 3} && p.y == ms[i].pos.y && p.z == ms[i].pos.z)
  }

  lemma {:induction false} OwnedSoFar(p: Pos, lsn: int, ms: seq<Scanned>, n: nat, m: Marks)
    requires n < |ms| && !OwnBlock(p, lsn, ms) && lsn <= m.lsn <= lsn + n
    ensures p != Lectern(m.lsn) && p != Pos(2, ms[n].pos.y, ms[n].pos.z) && p != Pos(3, ms[n].pos.y, ms[n].pos.z)
  {
  }

  /** A DELETE changes the xmax banners of the rows it matched and its own log entries, nothing else. */
  lemma {:induction false} DeleteFootprint(w: Blocks, lsn: int, ms: seq<Scanned>, txid: int, n: nat, p: Pos)
    requires n <= |ms| && !OwnBlock(p, lsn, ms)
    ensures Get(MarkAll(w, lsn, ms, txid, n).world, p) == Get(w, p)
    ensures lsn <= MarkAll(w, lsn, ms, txid, n).lsn <= lsn + n
  {
    if n > 0 {
      DeleteFootprint(w, lsn, ms, txid, n - 1, p);
      var m := MarkAll(w, lsn, ms, txid, n - 1);
      OwnedSoFar(p, lsn, ms, n - 1, m);
      MarkFootprint(m, ms[n - 1].pos, txid, p);
    }
  }

  // ----- what the scan reads meanwhile -----

  /** Slots from `next` on hold what they held before the statement. */
  ghost predicate Untouched(w: Blocks, w': Blocks, meta: Meta, next: nat) {
    forall p: Pos | p.y == meta.yLevel && p.z >= meta.zStart + next :: Get(w', p) == Get(w, p)
  }

  lemma {:induction false} UntouchedReads(w: Blocks, w': Blocks, meta: Meta, next: nat, ri: nat, txid: int)
    requires Untouched(w, w', meta, next) && ri >= next
    ensures ScanSlot(w', meta, ri, txid) == ScanSlot(w, meta, ri, txid)
  {
    forall x | 0 <= x < meta.stripWidth ensures BlockAt(w', meta, ri, x) == BlockAt(w, meta, ri, x) {
    }
    SameStripSameRow(w, w', meta, ri);
  }

  /** Every world a mark goes through, not only the last one, leaves the slots behind its row alone. */
  lemma {:induction false} MidMarkTouches(m: Marks, told: seq<Blocks>, txid: int, k: Marker, w': Blocks, lsn': int,
                                          trace: seq<Blocks>, p: Pos)
    requires !k.Free? && MidMark(m, told, txid, k, w', lsn', trace)
    requires p != Lectern(m.lsn) && p != Pos(2, k.pos.y, k.pos.z) && p != Pos(3, k.pos.y, k.pos.z)
    ensures Get(w', p) == Get(m.world, p)
  {
    assert Open(OfMark, true);
    SequenceTouches(m.world, m.lsn, DeleteOp(k.pos, txid), p);
  }

  lemma {:induction false} MarkLeavesLaterSlots(w: Blocks, m: Marks, meta: Meta, next: nat, pos: Pos, txid: int)
    requires Untouched(w, m.world, meta, next) && m.lsn >= 1 && meta.zStart >= 0 && pos.z < meta.zStart + next
    ensures Untouched(w, Mark(m, pos, txid).world, meta, next)
  {
    forall p: Pos | p.y == meta.yLevel && p.z >= meta.zStart + next
      ensures Get(Mark(m, pos, txid).world, p) == Get(w, p)
    {
      MarkFootprint(m, pos, txid, p);
    }
  }

  // ----- filtering a scan as it arrives -----

  function Kept(s: seq<Scanned>, keep: Row -> bool): (r: seq<Scanned>)
    decreases |s|
  {
    var n := |s|;
    if n == 0 then [] else Kept(s[..n - 1], keep) + if keep(s[n - 1].row) then [s[n - 1]] else []
  }

  lemma {:induction false} KeptAppend(s: seq<Scanned>, one: Scanned, keep: Row -> bool)
    ensures Kept(s + [one], keep) == Kept(s, keep) + if keep(one.row) then [one] else []
  {
    assert (s + [one])[..|s|] == s;
  }

  lemma {:induction false} KeptStep(s: seq<Scanned>, r: Option<Scanned>, keep: Row -> bool)
    ensures Kept(s + if r.Some? then [r.value] else [], keep)
            == Kept(s, keep) + if r.Some? && keep(r.value.row) then [r.value] else []
  {
    if r.Some? {
      KeptAppend(s, r.value, keep);
    } else {
      assert s + [] == s;
    }
  }

  lemma {:induction false} KeptScanIsMatching(w: Blocks, meta: Meta, keep: Row -> bool, txid: int, n: nat)
    ensures Kept(Scan(w, meta, txid, n), keep) == Matching(w, meta, keep, txid, n)
  {
    if n > 0 {
      KeptScanIsMatching(w, meta, keep, txid, n - 1);
      KeptStep(Scan(w, meta, txid, n - 1), ScanSlot(w, meta, n - 1, txid), keep);
    }
  }

  /** Rows come from slots before the one to be scanned next. */
  lemma {:induction false} ScannedBefore(w: Blocks, meta: Meta, txid: int, n: nat)
    ensures forall i | 0 <= i < |Scan(w, meta, txid, n)| :: Scan(w, meta, txid, n)[i].pos.z < meta.zStart + n
  {
    if n > 0 {
      ScannedBefore(w, meta, txid, n - 1);
    }
  }

  lemma {:induction false} KeptPrefix(a: seq<Scanned>, b: seq<Scanned>, keep: Row -> bool)
    requires a <= b
    ensures Kept(a, keep) <= Kept(b, keep)
    decreases |b|
  {
    if |a| < |b| {
      KeptPrefix(a, b[..|b| - 1], keep);
    } else {
      assert a == b;
    }
  }

  lemma {:induction false} ScanPrefix(w: Blocks, meta: Meta, txid: int, k: nat, n: nat)
    requires k <= n
    ensures Scan(w, meta, txid, k) <= Scan(w, meta, txid, n)
    decreases n
  {
    if k < n {
      ScanPrefix(w, meta, txid, k, n - 1);
    }
  }

  /** After a failed mark nothing more happens. */
  lemma {:induction false} StuckAfterFailure(w: Blocks, lsn: int, ms: seq<Scanned>, all: seq<Scanned>, txid: int,
                                             n: nat)
    requires ms <= all && |ms| <= n <= |all| && !MarkAll(w, lsn, ms, txid, |ms|).ok
    ensures MarkAll(w, lsn, all, txid, n) == MarkAll(w, lsn, ms, txid, |ms|)
  {
    MarkAllPrefix(w, lsn, ms, all, txid, |ms|);
    StuckOn(w, lsn, all, txid, |ms|, n, MarkAll(w, lsn, ms, txid, |ms|));
    assert Open(OfFlow, true);
  }

  lemma {:induction false} StuckOn(w: Blocks, lsn: int, all: seq<Scanned>, txid: int, j: nat, n: nat, end: Marks)
    requires j <= n <= |all| && StuckAt(w, lsn, all, txid, j, end) && !end.ok
    ensures StuckAt(w, lsn, all, txid, n, end)
  {
    var stuck := (k: nat) => k <= |all| ==> StuckAt(w, lsn, all, txid, k, end);
    forall k: nat | k < |all| ensures Carries(stuck, k) {
      if stuck(k) {
        StuckNext(w, lsn, all, txid, k, end);
      }
    }
    CountFrom(stuck, j, n);
  }

  ghost predicate StuckAt(w: Blocks, lsn: int, all: seq<Scanned>, txid: int, k: nat, end: Marks)
    requires k <= |all|
  {
    forall b {:trigger Open(OfFlow, b)} :: Open(OfFlow, b) ==> MarkAll(w, lsn, all, txid, k) == end
  }

  lemma {:induction false} StuckNext(w: Blocks, lsn: int, all: seq<Scanned>, txid: int, k: nat, end: Marks)
    requires k < |all| && !end.ok && StuckAt(w, lsn, all, txid, k, end)
    ensures StuckAt(w, lsn, all, txid, k + 1, end)
  {
    assert Open(OfFlow, true);
    MarkAllStep(w, lsn, all, txid, k);
    FailedStays(end, all[k].pos, txid);
  }

  lemma {:induction false} FailedStays(m: Marks, pos: Pos, txid: int)
    requires !m.ok
    ensures Mark(m, pos, txid) == m
  {
  }

  // ----- the invariant of the loop -----

  /** Received rows are marked, read ones wait in the channel, later slots are as they were. */
  ghost predicate Streamed(w: Blocks, lsn: int, meta: Meta, keep: Row -> bool, txid: int, next: nat, m: Marks,
                           count: nat, taken: seq<Scanned>, queue: seq<Scanned>)
  {
    && taken + queue == Scan(w, meta, txid, next)
    && m == MarkAll(w, lsn, Kept(taken, keep), txid, |Kept(taken, keep)|)
    && count == |Kept(taken, keep)| && lsn <= m.lsn && Untouched(w, m.world, meta, next)
  }

  /** Streamed, sealed. */
  ghost predicate Flow(w: Blocks, lsn: int, meta: Meta, keep: Row -> bool, txid: int, next: nat, m: Marks,
                       count: nat, taken: seq<Scanned>, queue: seq<Scanned>)
  {
    forall k {:trigger Open(OfFlow, k)} :: Open(OfFlow, k) ==> Streamed(w, lsn, meta, keep, txid, next, m, count,
                                                                        taken, queue)
  }

  lemma {:induction false} FlowStarts(w: Blocks, lsn: int, meta: Meta, keep: Row -> bool, txid: int)
    ensures Flow(w, lsn, meta, keep, txid, 0, Marks(w, lsn, true), 0, [], [])
  {
  }

  lemma {:induction false} StreamReads(w: Blocks, lsn: int, meta: Meta, keep: Row -> bool, txid: int, next: nat,
                                       m: Marks,
                                       count: nat, taken: seq<Scanned>, queue: seq<Scanned>)
    requires Flow(w, lsn, meta, keep, txid, next, m, count, taken, queue)
    ensures var s := ScanSlot(m.world, meta, next, txid);
            Flow(w, lsn, meta, keep, txid, next + 1, m, count, taken, queue + if s.Some? then [s.value] else [])
  {
    assert Open(OfFlow, true);
    UntouchedReads(w, m.world, meta, next, next, txid);
    var s := ScanSlot(w, meta, next, txid);
    if s.Some? {
      assert taken + (queue + [s.value]) == taken + queue + [s.value];
    } else {
      assert queue + [] == queue;
    }
  }

  lemma {:induction false} StreamSkips(w: Blocks, lsn: int, meta: Meta, keep: Row -> bool, txid: int, next: nat,
                                       m: Marks,
                                       count: nat, taken: seq<Scanned>, queue: seq<Scanned>)
    requires Flow(w, lsn, meta, keep, txid, next, m, count, taken, queue) && queue != [] && !keep(queue[0].row)
    ensures Flow(w, lsn, meta, keep, txid, next, m, count, taken + [queue[0]], queue[1..])
  {
    assert Open(OfFlow, true);
    KeptAppend(taken, queue[0], keep);
    assert Kept(taken + [queue[0]], keep) == Kept(taken, keep);
    assert taken + [queue[0]] + queue[1..] == taken + queue;
  }

  lemma {:induction false} StreamMarks(w: Blocks, lsn: int, meta: Meta, keep: Row -> bool, txid: int, next: nat,
                                       m: Marks,
                                       count: nat, taken: seq<Scanned>, queue: seq<Scanned>)
    requires Flow(w, lsn, meta, keep, txid, next, m, count, taken, queue) && queue != [] && keep(queue[0].row)
    requires lsn >= 1 && meta.zStart >= 0
    ensures Flow(w, lsn, meta, keep, txid, next, Mark(m, queue[0].pos, txid), count + 1, taken + [queue[0]], queue[1..])
  {
    assert Open(OfFlow, true);
    KeptAppend(taken, queue[0], keep);
    assert taken + [queue[0]] + queue[1..] == taken + queue;
    ScannedBefore(w, meta, txid, next);
    assert queue[0] == (taken + queue)[|taken|];
    MarkAllOne(w, lsn, Kept(taken, keep), queue[0], txid);
    MarkLeavesLaterSlots(w, m, meta, next, queue[0].pos, txid);
    MarkMoves(m, queue[0].pos, txid);
  }

  lemma {:induction false} MarkMoves(m: Marks, pos: Pos, txid: int)
    ensures m.lsn <= Mark(m, pos, txid).lsn
  {
  }

  /** At the end the statement has done what marking all matches would do; and already when a mark failed. */
  lemma {:induction false} StreamEnds(w: Blocks, lsn: int, meta: Meta, keep: Row -> bool, txid: int, next: nat,
                                      m: Marks,
                                      count: nat, taken: seq<Scanned>, queue: seq<Scanned>, n: nat)
    requires Flow(w, lsn, meta, keep, txid, next, m, count, taken, queue) && next <= n
    requires !m.ok || (next == n && queue == [])
    ensures AllMarked(w, lsn, meta, keep, txid, n) == m
    ensures m.ok ==> count == |Matching(w, meta, keep, txid, n)|
  {
    assert Open(OfFlow, true);
    KeptScanIsMatching(w, meta, keep, txid, n);
    if !m.ok {
      ScanPrefix(w, meta, txid, next, n);
      assert taken <= taken + queue;
      KeptPrefix(taken, Scan(w, meta, txid, n), keep);
      var ms := Matching(w, meta, keep, txid, n);
      StuckAfterFailure(w, lsn, Kept(taken, keep), ms, txid, |ms|);
    } else {
      assert taken + queue == taken;
    }
  }

  // ----- reading in the middle of a mark -----

  /** At any HAL request of any mark, a slot not yet scanned reads as it did before the statement. */
  lemma {:induction false} MidMarkReads(w: Blocks, lsn: int, meta: Meta, keep: Row -> bool, txid: int, next: nat,
                                        m: Marks,
                                        count: nat, taken: seq<Scanned>, queue: seq<Scanned>, told: seq<Blocks>, k: Marker,
                                        w': Blocks, lsn': int, trace: seq<Blocks>, ri: nat)
    requires Flow(w, lsn, meta, keep, txid, next, m, count, taken, queue) && lsn >= 1 && meta.zStart >= 0
    requires !k.Free? && queue != [] && k.pos == queue[0].pos && MidMark(m, told, txid, k, w', lsn', trace)
    requires ri >= next
    ensures ScanSlot(w', meta, ri, txid) == ScanSlot(w, meta, ri, txid)
  {
    FlowFacts(w, lsn, meta, keep, txid, next, m, count, taken, queue);
    forall p: Pos | p.y == meta.yLevel && p.z >= meta.zStart + next ensures Get(w', p) == Get(w, p) {
      MidMarkTouches(m, told, txid, k, w', lsn', trace, p);
    }
    UntouchedReads(w, w', meta, next, ri, txid);
  }

  lemma {:induction false} FlowFacts(w: Blocks, lsn: int, meta: Meta, keep: Row -> bool, txid: int, next: nat, m: Marks,
                                     count: nat, taken: seq<Scanned>, queue: seq<Scanned>)
    requires Flow(w, lsn, meta, keep, txid, next, m, count, taken, queue)
    ensures lsn <= m.lsn && Untouched(w, m.world, meta, next)
    ensures queue != [] ==> queue[0].pos.z < meta.zStart + next
  {
    assert Open(OfFlow, true);
    ScannedBefore(w, meta, txid, next);
    if queue != [] {
      assert queue[0] == (taken + queue)[|taken|];
    }
  }

  // ----- the worlds it goes through -----

  lemma {:induction false} TraceStep(told: seq<Blocks>, w: Blocks, lsn: int, ms: seq<Scanned>, txid: int, k: nat)
    requires k < |ms|
    ensures MarkAllTrace(told, w, lsn, ms, txid, k + 1)
            == MarkTrace(MarkAllTrace(told, w, lsn, ms, txid, k), MarkAll(w, lsn, ms, txid, k), ms[k].pos, txid)
  {
  }

  /** The trace of k marks, sealed. */
  ghost predicate TraceIs(told: seq<Blocks>, w: Blocks, lsn: int, ms: seq<Scanned>, txid: int, k: nat,
                          trace: seq<Blocks>)
    requires k <= |ms|
  {
    forall b {:trigger Open(OfFlow, b)} :: Open(OfFlow, b) ==> trace == MarkAllTrace(told, w, lsn, ms, txid, k)
  }

  lemma {:induction false} PrefixTraceNext(told: seq<Blocks>, w: Blocks, lsn: int, ms: seq<Scanned>,
                                           all: seq<Scanned>, txid: int, k: nat)
    requires ms <= all && k < |ms|
    requires MarkAllTrace(told, w, lsn, all, txid, k) == MarkAllTrace(told, w, lsn, ms, txid, k)
    ensures MarkAllTrace(told, w, lsn, all, txid, k + 1) == MarkAllTrace(told, w, lsn, ms, txid, k + 1)
  {
    TraceStep(told, w, lsn, ms, txid, k);
    TraceStep(told, w, lsn, all, txid, k);
    MarkAllPrefix(w, lsn, ms, all, txid, k);
    assert all[k] == ms[k];
  }

  lemma {:induction false} PrefixTrace(told: seq<Blocks>, w: Blocks, lsn: int, ms: seq<Scanned>, all: seq<Scanned>,
                                       txid: int, n: nat)
    requires ms <= all && n <= |ms|
    ensures MarkAllTrace(told, w, lsn, all, txid, n) == MarkAllTrace(told, w, lsn, ms, txid, n)
  {
    var same := (k: nat) => k <= |ms| ==> MarkAllTrace(told, w, lsn, all, txid, k) == MarkAllTrace(told, w, lsn, ms,
                                                                                                   txid, k);
    forall k: nat | k < |ms| ensures Carries(same, k) {
      if same(k) {
        PrefixTraceNext(told, w, lsn, ms, all, txid, k);
      }
    }
    CountUp(same, n);
  }

  lemma {:induction false} StuckTraceNext(told: seq<Blocks>, w: Blocks, lsn: int, all: seq<Scanned>, txid: int,
                                          k: nat, end: Marks,
                                          trace: seq<Blocks>)
    requires k < |all| && !end.ok && StuckAt(w, lsn, all, txid, k, end) && TraceIs(told, w, lsn, all, txid, k, trace)
    ensures StuckAt(w, lsn, all, txid, k + 1, end) && TraceIs(told, w, lsn, all, txid, k + 1, trace)
  {
    StuckNext(w, lsn, all, txid, k, end);
    assert Open(OfFlow, true);
    TraceStep(told, w, lsn, all, txid, k);
  }

  ghost predicate StuckTrace(told: seq<Blocks>, w: Blocks, lsn: int, all: seq<Scanned>, txid: int, k: nat,
                             trace: seq<Blocks>)
    requires k <= |all|
  {
    exists end: Marks :: !end.ok && StuckAt(w, lsn, all, txid, k, end) && TraceIs(told, w, lsn, all, txid, k, trace)
  }

  ghost function Stuck(told: seq<Blocks>, w: Blocks, lsn: int, all: seq<Scanned>, txid: int, trace: seq<Blocks>)
    : nat -> bool
  {
    (k: nat) => k <= |all| ==> StuckTrace(told, w, lsn, all, txid, k, trace)
  }

  lemma {:induction false} StuckNextTrace(told: seq<Blocks>, w: Blocks, lsn: int, all: seq<Scanned>, txid: int, k: nat,
                                          trace: seq<Blocks>)
    requires k < |all|
    ensures Carries(Stuck(told, w, lsn, all, txid, trace), k)
  {
    if StuckTrace(told, w, lsn, all, txid, k, trace) {
      var end: Marks :| !end.ok && StuckAt(w, lsn, all, txid, k, end) && TraceIs(told, w, lsn, all, txid, k, trace);
      StuckTraceNext(told, w, lsn, all, txid, k, end, trace);
    }
  }

  /** After a failed mark nothing more is written. */
  lemma {:induction false} TraceStops(told: seq<Blocks>, w: Blocks, lsn: int, all: seq<Scanned>, txid: int, j: nat,
                                      n: nat,
                                      trace: seq<Blocks>)
    requires j <= n <= |all| && StuckTrace(told, w, lsn, all, txid, j, trace)
    ensures StuckTrace(told, w, lsn, all, txid, n, trace)
  {
    forall k: nat | j <= k < n ensures Carries(Stuck(told, w, lsn, all, txid, trace), k) {
      StuckNextTrace(told, w, lsn, all, txid, k, trace);
    }
    CountFrom(Stuck(told, w, lsn, all, txid, trace), j, n);
  }

  /** The worlds written while the rows taken so far were handled, sealed. */
  ghost predicate FlowTrace(told: seq<Blocks>, w: Blocks, lsn: int, keep: Row -> bool, txid: int, taken: seq<Scanned>,
                            trace: seq<Blocks>)
  {
    TraceIs(told, w, lsn, Kept(taken, keep), txid, |Kept(taken, keep)|, trace)
  }

  lemma {:induction false} TraceStarts(told: seq<Blocks>, w: Blocks, lsn: int, keep: Row -> bool, txid: int)
    ensures FlowTrace(told, w, lsn, keep, txid, [], told)
  {
  }

  lemma {:induction false} TraceSkips(told: seq<Blocks>, w: Blocks, lsn: int, keep: Row -> bool, txid: int,
                                      taken: seq<Scanned>,
                                      one: Scanned, trace: seq<Blocks>)
    requires FlowTrace(told, w, lsn, keep, txid, taken, trace) && !keep(one.row)
    ensures FlowTrace(told, w, lsn, keep, txid, taken + [one], trace)
  {
    KeptAppend(taken, one, keep);
    assert Kept(taken + [one], keep) == Kept(taken, keep);
  }

  lemma {:induction false} TraceOneMore(told: seq<Blocks>, w: Blocks, lsn: int, ms: seq<Scanned>, one: Scanned,
                                        txid: int)
    ensures MarkAllTrace(told, w, lsn, ms + [one], txid, |ms| + 1)
            == MarkTrace(MarkAllTrace(told, w, lsn, ms, txid, |ms|), MarkAll(w, lsn, ms, txid, |ms|), one.pos, txid)
  {
    assert (ms + [one])[|ms|] == one;
    TraceStep(told, w, lsn, ms + [one], txid, |ms|);
    PrefixTrace(told, w, lsn, ms, ms + [one], txid, |ms|);
    MarkAllPrefix(w, lsn, ms, ms + [one], txid, |ms|);
  }

  lemma {:induction false} TraceMarks(told: seq<Blocks>, w: Blocks, lsn: int, meta: Meta, keep: Row -> bool,
                                      txid: int, next: nat,
                                      m: Marks, count: nat, taken: seq<Scanned>, queue: seq<Scanned>, trace: seq<Blocks>)
    requires Flow(w, lsn, meta, keep, txid, next, m, count, taken, queue) && queue != [] && keep(queue[0].row)
    requires FlowTrace(told, w, lsn, keep, txid, taken, trace)
    ensures FlowTrace(told, w, lsn, keep, txid, taken + [queue[0]], MarkTrace(trace, m, queue[0].pos, txid))
  {
    assert Open(OfFlow, true);
    KeptAppend(taken, queue[0], keep);
    TraceOneMore(told, w, lsn, Kept(taken, keep), queue[0], txid);
  }

  /** The worlds a whole DELETE goes through. */
  function AllMarkedTrace(told: seq<Blocks>, w: Blocks, lsn: int, meta: Meta, keep: Row -> bool, txid: int, n: nat)
    : (worlds: seq<Blocks>)
  {
    var ms := Matching(w, meta, keep, txid, n);
    MarkAllTrace(told, w, lsn, ms, txid, |ms|)
  }

  lemma {:induction false} TraceEnds(told: seq<Blocks>, w: Blocks, lsn: int, meta: Meta, keep: Row -> bool, txid: int,
                                     next: nat,
                                     m: Marks, count: nat, taken: seq<Scanned>, queue: seq<Scanned>, n: nat, trace: seq<Blocks>)
    requires Flow(w, lsn, meta, keep, txid, next, m, count, taken, queue) && next <= n
    requires FlowTrace(told, w, lsn, keep, txid, taken, trace)
    requires !m.ok || (next == n && queue == [])
    ensures AllMarkedTrace(told, w, lsn, meta, keep, txid, n) == trace
  {
    assert Open(OfFlow, true);
    KeptScanIsMatching(w, meta, keep, txid, n);
    if !m.ok {
      ScanPrefix(w, meta, txid, next, n);
      assert taken <= taken + queue;
      KeptPrefix(taken, Scan(w, meta, txid, n), keep);
      TraceEndsEarly(told, w, lsn, Kept(taken, keep), Matching(w, meta, keep, txid, n), txid, trace);
    } else {
      assert taken + queue == taken;
    }
  }

  lemma {:induction false} TraceEndsEarly(told: seq<Blocks>, w: Blocks, lsn: int, ms: seq<Scanned>, all: seq<Scanned>,
                                          txid: int,
                                          trace: seq<Blocks>)
    requires ms <= all && !MarkAll(w, lsn, ms, txid, |ms|).ok && trace == MarkAllTrace(told, w, lsn, ms, txid, |ms|)
    ensures MarkAllTrace(told, w, lsn, all, txid, |all|) == trace
  {
    MarkAllPrefix(w, lsn, ms, all, txid, |ms|);
    PrefixTrace(told, w, lsn, ms, all, txid, |ms|);
    var end := MarkAll(w, lsn, ms, txid, |ms|);
    assert StuckAt(w, lsn, all, txid, |ms|, end) && TraceIs(told, w, lsn, all, txid, |ms|, trace);
    TraceStops(told, w, lsn, all, txid, |ms|, |all|, trace);
    assert Open(OfFlow, true);
  }

  // ----- the whole loop -----

  /** What the proof remembers: the state and trace when the last mark ended, the rows handled by then,
      and the row in hand. */
  datatype Mid = Mid(m: Marks, told: seq<Blocks>, taken: seq<Scanned>, cur: seq<Scanned>)

  /** The statement, the scan and their common world between any two HAL requests. */
  ghost predicate Going(told: seq<Blocks>, w: Blocks, lsn: int, meta: Meta, keep: Row -> bool, txid: int, next: nat,
                        g: Mid,
                        count: nat, queue: seq<Scanned>, k: Marker, w': Blocks, lsn': int, ok: bool, trace: seq<Blocks>)
  {
    && lsn >= 1 && meta.zStart >= 0
    && Flow(w, lsn, meta, keep, txid, next, g.m, count, g.taken, g.cur + queue)
    && FlowTrace(told, w, lsn, keep, txid, g.taken, g.told)
    && if k.Free? then g.cur == [] && g.m == Marks(w', lsn', ok) && g.told == trace
       else
         && ok && |g.cur| == 1 && g.cur[0].pos == k.pos && keep(g.cur[0].row)
         && MidMark(g.m, g.told, txid, k, w', lsn', trace)
  }

  lemma {:induction false} GoingStarts(told: seq<Blocks>, w: Blocks, lsn: int, meta: Meta, keep: Row -> bool, txid: int)
    requires lsn >= 1 && meta.zStart >= 0
    ensures Going(told, w, lsn, meta, keep, txid, 0, Mid(Marks(w, lsn, true), told, [], []), 0, [], Free, w, lsn,
                  true, told)
  {
    FlowStarts(w, lsn, meta, keep, txid);
    TraceStarts(told, w, lsn, keep, txid);
    var none: seq<Scanned> := [];
    assert none + none == none;
  }

  /** The scan reads its next slot, whatever the executor is in the middle of. */
  lemma {:induction false} GoingReads(told: seq<Blocks>, w: Blocks, lsn: int, meta: Meta, keep: Row -> bool, txid: int,
                                      next: nat, g: Mid, count: nat, queue: seq<Scanned>, k: Marker, w': Blocks, lsn': int,
                                      ok: bool, trace: seq<Blocks>, s: Option<Scanned>)
    requires Going(told, w, lsn, meta, keep, txid, next, g, count, queue, k, w', lsn', ok, trace)
    requires s == ScanSlot(w', meta, next, txid)
    ensures Going(told, w, lsn, meta, keep, txid, next + 1, g, count, queue + (if s.Some? then [s.value] else []), k,
                  w',
                  lsn', ok, trace)
  {
    var all := g.cur + queue;
    if !k.Free? {
      MidMarkReads(w, lsn, meta, keep, txid, next, g.m, count, g.taken, all, g.told, k, w', lsn', trace, next);
      FlowFacts(w, lsn, meta, keep, txid, next, g.m, count, g.taken, all);
      UntouchedReads(w, g.m.world, meta, next, next, txid);
    }
    StreamReads(w, lsn, meta, keep, txid, next, g.m, count, g.taken, all);
    ConcatAssociative(g.cur, queue, if s.Some? then [s.value] else []);
  }

  /** The executor takes a row that does not match. */
  lemma {:induction false} GoingSkips(told: seq<Blocks>, w: Blocks, lsn: int, meta: Meta, keep: Row -> bool, txid: int,
                                      next: nat, g: Mid, count: nat, queue: seq<Scanned>, w': Blocks, lsn': int,
                                      trace: seq<Blocks>)
    requires Going(told, w, lsn, meta, keep, txid, next, g, count, queue, Free, w', lsn', true, trace)
    requires queue != [] && !keep(queue[0].row)
    ensures Going(told, w, lsn, meta, keep, txid, next, g.(taken := g.taken + [queue[0]]), count, queue[1..], Free,
                  w', lsn',
                  true, trace)
  {
    assert g.cur + queue == queue && g.cur + queue[1..] == queue[1..];
    StreamSkips(w, lsn, meta, keep, txid, next, g.m, count, g.taken, queue);
    TraceSkips(told, w, lsn, keep, txid, g.taken, queue[0], trace);
  }

  /** The executor takes a row that matches, and begins to mark it. */
  lemma {:induction false} GoingTakes(told: seq<Blocks>, w: Blocks, lsn: int, meta: Meta, keep: Row -> bool, txid: int,
                                      next: nat, g: Mid, count: nat, queue: seq<Scanned>, w': Blocks, lsn': int,
                                      trace: seq<Blocks>)
    requires Going(told, w, lsn, meta, keep, txid, next, g, count, queue, Free, w', lsn', true, trace)
    requires queue != [] && keep(queue[0].row)
    ensures Going(told, w, lsn, meta, keep, txid, next, g.(cur := [queue[0]]), count, queue[1..], Asked(queue[0].pos),
                  w',
                  lsn', true, trace)
  {
    assert g.cur + queue == queue && [queue[0]] + queue[1..] == queue;
    MarkBegins(g.m, g.told, queue[0].pos, txid);
  }

  lemma {:induction false} InHand(cur: seq<Scanned>, queue: seq<Scanned>, all: seq<Scanned>)
    requires |cur| == 1 && all == cur + queue
    ensures all != [] && cur == [all[0]] && all[0] == cur[0] && all[1..] == queue && [] + queue == queue
  {
  }

  /** The mark of the row in hand ends. */
  lemma {:induction false} GoingMarks(told: seq<Blocks>, w: Blocks, lsn: int, meta: Meta, keep: Row -> bool, txid: int,
                                      next: nat, g: Mid, count: nat, queue: seq<Scanned>, k: Marker, w': Blocks, lsn': int,
                                      trace: seq<Blocks>, m': Marks, trace': seq<Blocks>)
    requires Going(told, w, lsn, meta, keep, txid, next, g, count, queue, k, w', lsn', true, trace) && !k.Free?
    requires MarkEnds(g.m, g.told, k.pos, txid, m', trace')
    ensures Going(told, w, lsn, meta, keep, txid, next, Mid(m', trace', g.taken + g.cur, []), count + 1, queue, Free,
                  m'.world, m'.lsn, m'.ok, trace')
  {
    assert Open(OfMark, true);
    var all := g.cur + queue;
    InHand(g.cur, queue, all);
    StreamMarks(w, lsn, meta, keep, txid, next, g.m, count, g.taken, all);
    TraceMarks(told, w, lsn, meta, keep, txid, next, g.m, count, g.taken, all, g.told);
  }

  lemma {:induction false} GoingEnds(told: seq<Blocks>, w: Blocks, lsn: int, meta: Meta, keep: Row -> bool, txid: int,
                                     next: nat, g: Mid, count: nat, queue: seq<Scanned>, w': Blocks, lsn': int, ok: bool,
                                     trace: seq<Blocks>, n: nat)
    requires Going(told, w, lsn, meta, keep, txid, next, g, count, queue, Free, w', lsn', ok, trace) && next <= n
    requires !ok || (next == n && queue == [])
    ensures AllMarked(w, lsn, meta, keep, txid, n) == Marks(w', lsn', ok)
    ensures ok ==> count == |Matching(w, meta, keep, txid, n)|
    ensures AllMarkedTrace(told, w, lsn, meta, keep, txid, n) == trace
  {
    assert g.cur + queue == queue;
    StreamEnds(w, lsn, meta, keep, txid, next, g.m, count, g.taken, queue, n);
    TraceEnds(told, w, lsn, meta, keep, txid, next, g.m, count, g.taken, queue, n, trace);
  }
}
