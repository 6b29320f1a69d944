/** A SeqScan while inserts run: the row count is taken when the scan begins, and each slot is read at a
    moment of its own, with any steps of the inserting calls in between. */
module ConcurrentScans {
  import opened GoText
  import opened World
  import opened Layout
  import opened Store
  import opened WriteSequence
  import opened Refine
  import opened Safety
  import opened Concurrency
  import opened ConcurrentRuns

  /** The call's strip is in the world. */
  predicate HasRow(th: Thread) {
    th.stage.Written? || th.stage.Reread? || th.stage.Returned?
  }

  /** Insertions into tables as the store lays them out. */
  ghost predicate Inserting(u: Setup, ins: seq<Insertion>, json: Json) {
    && JobsOf(u, ins, json)
    && forall t | 0 <= t < |u.metas| ::
         u.metas[t].stripWidth == StripWidth(u.metas[t].columns) && u.metas[t].rowCount <= SPACING
  }

  // ----- one slot at one moment -----

  lemma {:induction false} NoStripNoRow(w: Blocks, meta: Meta, ri: int)
    requires meta.yLevel == TABLE_Y && NoStrip(w, meta.zStart + ri)
    ensures RowAt(w, meta, ri).None?
  {
    forall x | 0 <= x < meta.stripWidth ensures BlockAt(w, meta, ri, x) == "" {
      assert RowBlock(w, meta.zStart + ri, x) == "";
    }
    NoBlocksNoRow(w, meta, ri);
  }

  /** The slot a call has taken: its row once the strip is written, nothing before. */
  lemma {:induction false} CallRow(u: Setup, s: Sys, json: Json, ins: seq<Insertion>, t: nat, ri: int, i: nat)
    requires Inv(u, s) && Inserting(u, ins, json) && t < |u.metas| && i < |u.jobs| && SlotHeld(u, s, t, ri, i)
    ensures RowAt(s.world, u.metas[t], ri) == if HasRow(s.threads[i]) then Some(RowOf(u.metas[t], ins[i])) else None
  {
    var meta := u.metas[t];
    assert ThreadOk(s.world, meta, u.jobs[i], s.threads[i]) && MetaOk(meta);
    if HasRow(s.threads[i]) {
      assert IsJobOf(u.jobs[i], MetaOf(u, i), ins[i], json);
      JobDecodes(s.world, meta, ri, u.jobs[i], ins[i], json);
      DecodesTo(s.world, meta, ri, RowOf(meta, ins[i]));
    } else {
      NoStripNoRow(s.world, meta, ri);
    }
  }

  /** A slot from before the calls started. */
  lemma {:induction false} OldSlotSame(u: Setup, s: Sys, t: nat, ri: nat)
    requires Inv(u, s) && t < |u.metas| && ri < u.metas[t].rowCount <= SPACING
    ensures RowAt(s.world, u.metas[t], ri) == RowAt(u.world, u.metas[t], ri)
  {
    var meta := u.metas[t];
    assert MetaOk(meta);
    forall x | 0 <= x < meta.stripWidth ensures BlockAt(s.world, meta, ri, x) == BlockAt(u.world, meta, ri, x) {
      OldSlotIsFree(u, s, t, ri, Pos(x, meta.yLevel, meta.zStart + ri));
    }
    SameStripSameRow(u.world, s.world, meta, ri);
  }

  /** What slot ri of table t holds while the calls run. */
  ghost function LiveRow(u: Setup, s: Sys, ins: seq<Insertion>, t: nat, ri: nat): Option<Row>
    requires RowsGained(u, s, ins) && t < |u.metas|
  {
    if ri < u.metas[t].rowCount then RowAt(u.world, u.metas[t], ri)
    else if ri < s.counts[t] && HasRow(s.threads[OwnerOf(u, s, t, ri)]) then Some(RowInSlot(u, s, ins, t, ri))
    else None
  }

  /** That slot as a transaction sees it. */
  ghost function LiveSlot(u: Setup, s: Sys, ins: seq<Insertion>, t: nat, ri: nat, txid: int): Option<Scanned>
    requires RowsGained(u, s, ins) && t < |u.metas|
  {
    SeenIn(u.metas[t], ri, LiveRow(u, s, ins, t, ri), txid)
  }

  function SeenIn(meta: Meta, ri: nat, row: Option<Row>, txid: int): Option<Scanned> {
    Seen(row, Pos(0, meta.yLevel, meta.zStart + ri), txid)
  }

  lemma {:induction false} ScanSlotIs(w: Blocks, meta: Meta, ri: nat, txid: int, row: Option<Row>)
    requires row == RowAt(w, meta, ri)
    ensures ScanSlot(w, meta, ri, txid) == SeenIn(meta, ri, row, txid)
  {
  }

  lemma {:induction false} InvGains(u: Setup, s: Sys, ins: seq<Insertion>)
    requires Inv(u, s) && |ins| == |u.jobs|
    ensures RowsGained(u, s, ins)
  {
  }

  lemma {:induction false} LiveRowIs(u: Setup, s: Sys, json: Json, ins: seq<Insertion>, t: nat, ri: nat)
    requires Inv(u, s) && Inserting(u, ins, json) && RowsGained(u, s, ins) && t < |u.metas| && ri < s.counts[t]
    ensures RowAt(s.world, u.metas[t], ri) == LiveRow(u, s, ins, t, ri)
  {
    if ri < u.metas[t].rowCount {
      OldSlotSame(u, s, t, ri);
    } else {
      CallRow(u, s, json, ins, t, ri, OwnerOf(u, s, t, ri));
    }
  }

  // ----- calls only go on -----

  predicate GoesOn(th: Thread, th': Thread) {
    (HasRow(th) ==> HasRow(th')) && (HasSlot(th) ==> HasSlot(th') && th'.z == th.z)
  }

  lemma {:induction false} OwnStepGoesOn(u: Setup, s: Sys, i: nat)
    requires Shaped(u, s) && i < |u.jobs| && !Step(u, s, i).threads[i].stage.Errored?
    ensures GoesOn(s.threads[i], Step(u, s, i).threads[i])
  {
  }

  lemma {:induction false} NoError(u: Setup, s: Sys, j: nat)
    requires Inv(u, s) && j < |u.jobs|
    ensures !s.threads[j].stage.Errored?
  {
    assert ThreadOk(s.world, MetaOf(u, j), u.jobs[j], s.threads[j]);
  }

  lemma {:induction false} StepGoesOn(u: Setup, s: Sys, s': Sys, i: nat, j: nat)
    requires Shaped(u, s) && i < |u.jobs| && j < |u.jobs| && s' == Step(u, s, i) && Inv(u, s')
    ensures GoesOn(s.threads[j], s'.threads[j])
  {
    StepMovesOne(u, s, i);
    if i == j {
      NoError(u, s', j);
      OwnStepGoesOn(u, s, i);
    }
  }

  /** All calls have gone on, and tables have only grown; sealed. */
  ghost predicate Onward(u: Setup, s: Sys, s': Sys) {
    forall k {:trigger Open(OfFlow, k)} :: Open(OfFlow, k) ==>
      && Shaped(u, s) && Shaped(u, s')
      && (forall j | 0 <= j < |u.jobs| :: GoesOn(s.threads[j], s'.threads[j]))
      && (forall t | 0 <= t < |u.metas| :: s.counts[t] <= s'.counts[t])
  }

  lemma {:induction false} OnwardStep(u: Setup, s: Sys, v: Sys, s': Sys, i: nat)
    requires Onward(u, s, v) && Shaped(u, v) && i < |u.jobs| && s' == Step(u, v, i) && Inv(u, s')
    ensures Onward(u, s, s')
  {
    assert Open(OfFlow, true);
    StepCounts(u, v, i);
    forall j | 0 <= j < |u.jobs| ensures GoesOn(s.threads[j], s'.threads[j]) {
      StepGoesOn(u, v, s', i, j);
    }
  }

  lemma {:induction false} OnwardNowhere(u: Setup, s: Sys)
    requires Shaped(u, s)
    ensures Onward(u, s, s)
  {
  }

  ghost function OnwardFrom(u: Setup, schedule: seq<nat>, m: nat): nat -> bool
    requires BoundedRun(u, schedule) && m <= |schedule|
  {
    (k: nat) => m <= k <= |schedule| ==> Onward(u, Interleaved(u, schedule, m), Interleaved(u, schedule, k))
  }

  lemma {:induction false} OnwardNext(u: Setup, schedule: seq<nat>, m: nat, k: nat)
    requires BoundedRun(u, schedule) && m <= k < |schedule|
    ensures Carries(OnwardFrom(u, schedule, m), k)
  {
    InvAlways(u, schedule, k + 1);
    if Onward(u, Interleaved(u, schedule, m), Interleaved(u, schedule, k)) {
      OnwardStep(u, Interleaved(u, schedule, m), Interleaved(u, schedule, k), Interleaved(u, schedule, k + 1),
                 schedule[k]);
    }
  }

  lemma {:induction false} OnwardAlways(u: Setup, schedule: seq<nat>, m: nat, m': nat)
    requires BoundedRun(u, schedule) && m <= m' <= |schedule|
    ensures Onward(u, Interleaved(u, schedule, m), Interleaved(u, schedule, m'))
  {
    OnwardNowhere(u, Interleaved(u, schedule, m));
    forall k: nat | m <= k < m' ensures Carries(OnwardFrom(u, schedule, m), k) {
      OnwardNext(u, schedule, m, k);
    }
    CountFrom(OnwardFrom(u, schedule, m), m, m');
  }

  lemma {:induction false} CallGoesOn(u: Setup, schedule: seq<nat>, m: nat, m': nat, j: nat)
    requires BoundedRun(u, schedule) && m <= m' <= |schedule| && j < |u.jobs|
    ensures GoesOn(Interleaved(u, schedule, m).threads[j], Interleaved(u, schedule, m').threads[j])
  {
    OnwardAlways(u, schedule, m, m');
    assert Open(OfFlow, true);
  }

  lemma {:induction false} CountsGrow(u: Setup, schedule: seq<nat>, m: nat, m': nat, t: nat)
    requires BoundedRun(u, schedule) && m <= m' <= |schedule| && t < |u.metas|
    ensures Interleaved(u, schedule, m).counts[t] <= Interleaved(u, schedule, m').counts[t]
  {
    OnwardAlways(u, schedule, m, m');
    assert Open(OfFlow, true);
  }

  // ----- the whole scan -----

  /** The values found from a to n - 1, in order. */
  function Found<T>(f: nat -> Option<T>, a: nat, n: nat): (s: seq<T>)
    decreases n
  {
    if n <= a then [] else Found(f, a, n - 1) + if f(n - 1).Some? then [f(n - 1).value] else []
  }

  lemma {:induction false} FoundSame<T>(f: nat -> Option<T>, g: nat -> Option<T>, a: nat, n: nat)
    requires forall k: nat | a <= k < n :: f(k) == g(k)
    ensures Found(f, a, n) == Found(g, a, n)
    decreases n
  {
    if n > a {
      FoundSame(f, g, a, n - 1);
    }
  }

  lemma {:induction false} FoundSplit<T>(f: nat -> Option<T>, a: nat, n: nat)
    requires a <= n
    ensures Found(f, 0, n) == Found(f, 0, a) + Found(f, a, n)
    decreases n
  {
    if n > a {
      FoundSplit(f, a, n - 1);
    }
  }

  lemma {:induction false} ScanIsFound(w: Blocks, meta: Meta, txid: int, n: nat)
    ensures Scan(w, meta, txid, n) == Found((ri: nat) => ScanSlot(w, meta, ri, txid), 0, n)
  {
    if n > 0 {
      ScanIsFound(w, meta, txid, n - 1);
    }
  }

  /** The moments at which a scan reads the slots of table t: as many as it had when the scan began. */
  ghost predicate Moments(u: Setup, schedule: seq<nat>, t: nat, begin: nat, moments: seq<nat>) {
    && BoundedRun(u, schedule) && t < |u.metas| && begin <= |schedule|
    && |moments| == Interleaved(u, schedule, begin).counts[t]
    && forall k | 0 <= k < |moments| :: begin <= moments[k] <= |schedule|
  }

  /** Slot ri as the scan finds it. */
  ghost function SlotLater(u: Setup, schedule: seq<nat>, t: nat, begin: nat, moments: seq<nat>, txid: int)
    : nat -> Option<Scanned>
    requires Moments(u, schedule, t, begin, moments)
  {
    (ri: nat) =>
      if ri < |moments| then ScanSlot(Interleaved(u, schedule, moments[ri]).world, u.metas[t], ri, txid) else None
  }

  /** What there is to be found: at its own moment the slot's row, if txid sees it. */
  ghost function RowLater(u: Setup, schedule: seq<nat>, ins: seq<Insertion>, t: nat, begin: nat, moments: seq<nat>,
                          txid: int)
    : nat -> Option<Scanned>
    requires Moments(u, schedule, t, begin, moments) && |ins| == |u.jobs|
  {
    (ri: nat) => if ri < |moments| then SeenAt(u, schedule, ins, t, moments[ri], ri, txid) else None
  }

  ghost function SeenAt(u: Setup, schedule: seq<nat>, ins: seq<Insertion>, t: nat, m: nat, ri: nat, txid: int)
    : Option<Scanned>
    requires BoundedRun(u, schedule) && |ins| == |u.jobs| && t < |u.metas| && m <= |schedule|
  {
    InvAlways(u, schedule, m);
    InvGains(u, Interleaved(u, schedule, m), ins);
    LiveSlot(u, Interleaved(u, schedule, m), ins, t, ri, txid)
  }

  lemma {:induction false} SeenAtIs(u: Setup, schedule: seq<nat>, ins: seq<Insertion>, t: nat, m: nat, ri: nat,
                                    txid: int, s: Sys)
    requires BoundedRun(u, schedule) && |ins| == |u.jobs| && t < |u.metas| && m <= |schedule|
    requires s == Interleaved(u, schedule, m)
    ensures Inv(u, s) && RowsGained(u, s, ins)
    ensures SeenAt(u, schedule, ins, t, m, ri, txid) == LiveSlot(u, s, ins, t, ri, txid)
  {
    InvAlways(u, schedule, m);
    InvGains(u, s, ins);
  }

  lemma {:induction false} SlotIsFound(u: Setup, schedule: seq<nat>, json: Json, ins: seq<Insertion>, t: nat,
                                       begin: nat, moments: seq<nat>, txid: int, ri: nat)
    requires Moments(u, schedule, t, begin, moments) && Inserting(u, ins, json) && ri < |moments|
    ensures SlotLater(u, schedule, t, begin, moments, txid)(ri)
            == RowLater(u, schedule, ins, t, begin, moments, txid)(ri)
  {
    CountsGrow(u, schedule, begin, moments[ri], t);
    SlotAtMoment(u, schedule, json, ins, t, moments[ri], txid, ri);
  }

  lemma {:induction false} SlotAtMoment(u: Setup, schedule: seq<nat>, json: Json, ins: seq<Insertion>, t: nat,
                                        m: nat, txid: int, ri: nat)
    requires BoundedRun(u, schedule) && Inserting(u, ins, json) && t < |u.metas| && m <= |schedule|
    requires ri < Interleaved(u, schedule, m).counts[t]
    ensures ScanSlot(Interleaved(u, schedule, m).world, u.metas[t], ri, txid)
            == SeenAt(u, schedule, ins, t, m, ri, txid)
  {
    var s := Interleaved(u, schedule, m);
    SeenAtIs(u, schedule, ins, t, m, ri, txid, s);
    LiveRowIs(u, s, json, ins, t, ri);
    ScanSlotIs(s.world, u.metas[t], ri, txid, LiveRow(u, s, ins, t, ri));
  }

  lemma {:induction false} OldSlotIsFound(u: Setup, schedule: seq<nat>, ins: seq<Insertion>, t: nat, begin: nat,
                                          moments: seq<nat>, txid: int, ri: nat)
    requires Moments(u, schedule, t, begin, moments) && |ins| == |u.jobs| && ri < |moments| && ri < u.metas[t].rowCount
    ensures RowLater(u, schedule, ins, t, begin, moments, txid)(ri) == ScanSlot(u.world, u.metas[t], ri, txid)
  {
    SeenAtIs(u, schedule, ins, t, moments[ri], ri, txid, Interleaved(u, schedule, moments[ri]));
    ScanSlotIs(u.world, u.metas[t], ri, txid, RowAt(u.world, u.metas[t], ri));
  }

  /** Whatever the inserting calls do between its reads, a scan gives every old row its transaction sees, as
      before the calls, and behind them, in slot order, the new rows that were written when it came by. */
  lemma {:induction false} ScanAmongInserts(u: Setup, schedule: seq<nat>, json: Json, ins: seq<Insertion>, t: nat,
                                            begin: nat, moments: seq<nat>, txid: int)
    requires Moments(u, schedule, t, begin, moments) && Inserting(u, ins, json)
    ensures var base := u.metas[t].rowCount;
            && base <= |moments|
            && Found(SlotLater(u, schedule, t, begin, moments, txid), 0, |moments|)
               == Scan(u.world, u.metas[t], txid, base)
                  + Found(RowLater(u, schedule, ins, t, begin, moments, txid), base, |moments|)
  {
    var f, g := SlotLater(u, schedule, t, begin, moments, txid), RowLater(u, schedule, ins, t, begin, moments, txid);
    var n, m := u.metas[t].rowCount, |moments|;
    InvAlways(u, schedule, begin);
    forall k: nat | 0 <= k < m ensures f(k) == g(k) {
      SlotIsFound(u, schedule, json, ins, t, begin, moments, txid, k);
    }
    FoundSame(f, g, 0, m);
    FoundSplit(g, n, m);
    var h := (ri: nat) => ScanSlot(u.world, u.metas[t], ri, txid);
    forall k: nat | 0 <= k < n ensures g(k) == h(k) {
      OldSlotIsFound(u, schedule, ins, t, begin, moments, txid, k);
    }
    FoundSame(g, h, 0, n);
    ScanIsFound(u.world, u.metas[t], txid, n);
  }

  lemma {:induction false} HeldIsLive(u: Setup, s: Sys, ins: seq<Insertion>, t: nat, ri: nat, j: nat)
    requires Inv(u, s) && RowsGained(u, s, ins) && t < |u.metas| && j < |u.jobs| && SlotHeld(u, s, t, ri, j)
    ensures u.metas[t].rowCount <= ri < s.counts[t]
    ensures HasRow(s.threads[j]) ==> LiveRow(u, s, ins, t, ri) == Some(RowOf(u.metas[t], ins[j]))
  {
    assert InRange(MetaOf(u, j), s.counts[t], u.lsn, s.nextLSN, s.threads[j]);
    OwnerIsUnique(u, s, t, ri, OwnerOf(u, s, t, ri), j);
  }

  /** An insert that had returned when the scan began is found, if its transaction is seen. */
  lemma {:induction false} ReturnedIsFound(u: Setup, schedule: seq<nat>, ins: seq<Insertion>, t: nat, begin: nat,
                                           moments: seq<nat>, txid: int, j: nat, ri: nat)
    requires Moments(u, schedule, t, begin, moments) && |ins| == |u.jobs| && j < |u.jobs| && u.jobs[j].table == t
    requires var th := Interleaved(u, schedule, begin).threads[j];
             th.stage.Returned? && th.z == u.metas[t].zStart + ri
    ensures u.metas[t].rowCount <= ri < |moments|
    ensures RowLater(u, schedule, ins, t, begin, moments, txid)(ri)
            == SeenIn(u.metas[t], ri, Some(RowOf(u.metas[t], ins[j])), txid)
  {
    var s := Interleaved(u, schedule, begin);
    SeenAtIs(u, schedule, ins, t, begin, ri, txid, s);
    HeldIsLive(u, s, ins, t, ri, j);
    CallGoesOn(u, schedule, begin, moments[ri], j);
    SeenLater(u, schedule, ins, t, moments[ri], txid, j, ri);
  }

  lemma {:induction false} SeenLater(u: Setup, schedule: seq<nat>, ins: seq<Insertion>, t: nat, m: nat, txid: int,
                                     j: nat, ri: nat)
    requires BoundedRun(u, schedule) && |ins| == |u.jobs| && t < |u.metas| && m <= |schedule| && j < |u.jobs|
    requires var s := Interleaved(u, schedule, m); SlotHeld(u, s, t, ri, j) && HasRow(s.threads[j])
    ensures SeenAt(u, schedule, ins, t, m, ri, txid)
            == SeenIn(u.metas[t], ri, Some(RowOf(u.metas[t], ins[j])), txid)
  {
    var s := Interleaved(u, schedule, m);
    SeenAtIs(u, schedule, ins, t, m, ri, txid, s);
    HeldIsLive(u, s, ins, t, ri, j);
  }
}
