/** The write-ahead log: internal/wal/wal.go. Entry LSN n is the lectern at (0, 64, -n). */
module Wal {
  import opened GoText
  import opened World
  import opened Codec
  import opened LogEntry

  const WAL_Y := 64
  const UPDATE_XMAX := "UPDATE_XMAX"
  const INSERT := "INSERT"

  /** The lectern of entry n. */
  function Lectern(n: int): Pos {
    Pos(0, WAL_Y, -n)
  }

  predicate Logged(w: Blocks, n: int) {
    Get(w, Lectern(n)) != ""
  }

  // ----- committing and replaying one entry -----

  function Committed(e: Entry): string {
    Serialize(e.(status := COMMITTED))
  }

  /** Commit succeeds only on a readable PENDING entry. */
  function CommitOf(w: Blocks, lsn: int): (r: Option<Blocks>) {
    var e := Deserialize(Get(w, Lectern(lsn)));
    if e.None? || e.value.status != PENDING then None
    else Some(Put(w, Lectern(lsn), Committed(e.value)))
  }

  function WriteXmax(w: Blocks, y: int, z: int, txid: int): Blocks {
    var (s1, s2) := Int64Banners(txid);
    w[Pos(2, y, z) := s1][Pos(3, y, z) := s2]
  }

  /** A delete whose transaction id is not what the two xmax banners decode to. */
  predicate Unapplied(w: Blocks, e: Entry) {
    && e.op == UPDATE_XMAX
    && ReadInt64(Get(w, Pos(2, e.y, e.z)), Get(w, Pos(3, e.y, e.z))) != ParseInt(e.newValue)
  }

  predicate Replayable(e: Entry) {
    e.op == UPDATE_XMAX ==> ParseInt(e.newValue).Some?
  }

  /** replayUpdateXmax and replayInsert: the latter writes nothing. */
  function Replay(w: Blocks, e: Entry): Blocks
    requires Replayable(e)
  {
    if Unapplied(w, e) then WriteXmax(w, e.y, e.z, ParseInt(e.newValue).value) else w
  }

  function ReplayTrace(told: seq<Blocks>, w: Blocks, e: Entry): (worlds: seq<Blocks>)
    requires Replayable(e)
  {
    if Unapplied(w, e) then told + [Replay(w, e)] else told
  }

  /** A book recovery leaves alone: unreadable, committed, or a delete it cannot parse. */
  predicate Inert(book: string) {
    var e := Deserialize(book);
    e.None? || e.value.status == COMMITTED || !Replayable(e.value)
  }

  // ----- recovery as a function of the world -----

  /** The world after recovery has dealt with entry n. */
  function Handle(w: Blocks, n: int): Blocks {
    var book := Get(w, Lectern(n));
    if Inert(book) then w
    else
      var e := Deserialize(book).value;
      Put(Replay(w, e), Lectern(n), Committed(e))
  }

  /** The history `told`, extended by the world after each write recovery makes for entry n. */
  function HandleTrace(told: seq<Blocks>, w: Blocks, n: int): (worlds: seq<Blocks>) {
    var book := Get(w, Lectern(n));
    if Inert(book) then told
    else ReplayTrace(told, w, Deserialize(book).value) + [Handle(w, n)]
  }

  lemma {:induction false} HandleFrame(w: Blocks, n: int)
    requires Logged(w, n)
    ensures forall p: Pos | p.x != 2 && p.x != 3 && p != Lectern(n) :: Get(Handle(w, n), p) == Get(w, p)
    ensures Logged(Handle(w, n), n)
  {
    var book := Get(w, Lectern(n));
    if !Inert(book) {
      SerializedIsNotEmpty(Deserialize(book).value.(status := COMMITTED));
    }
  }

  /** The world after recovery has dealt with entries 1 to k, and the history by then. */
  function After(w: Blocks, k: nat): Blocks {
    if k == 0 then w else Handle(After(w, k - 1), k)
  }

  function AfterTrace(told: seq<Blocks>, w: Blocks, k: nat): (worlds: seq<Blocks>) {
    if k == 0 then told else HandleTrace(AfterTrace(told, w, k - 1), After(w, k - 1), k)
  }

  /** The measure of the scan: a world is finite, so the run of lecterns ends. */
  ghost function LogBeyond(w: Blocks, n: int): set<Pos> {
    set p | p in w && p.x == 0 && p.y == WAL_Y && p.z < -n && w[p] != ""
  }

  ghost function LengthFrom(w: Blocks, n: nat): (len: nat)
    ensures n <= len
    decreases LogBeyond(w, n)
  {
    if !Logged(w, n + 1) then n
    else
      assert Lectern(n + 1) in LogBeyond(w, n) && Lectern(n + 1) !in LogBeyond(w, n + 1);
      LengthFrom(w, n + 1)
  }

  /** How many lecterns follow each other without a gap from Z = -1. */
  ghost function LogLength(w: Blocks): nat {
    LengthFrom(w, 0)
  }

  lemma {:induction false} LengthFromIsFirstGap(w: Blocks, n: nat)
    ensures !Logged(w, LengthFrom(w, n) + 1)
    ensures forall k | n < k <= LengthFrom(w, n) :: Logged(w, k)
    decreases LogBeyond(w, n)
  {
    if Logged(w, n + 1) {
      assert Lectern(n + 1) in LogBeyond(w, n) && Lectern(n + 1) !in LogBeyond(w, n + 1);
      LengthFromIsFirstGap(w, n + 1);
    }
  }

  lemma {:induction false} LogLengthIsFirstGap(w: Blocks)
    ensures !Logged(w, LogLength(w) + 1)
    ensures forall k | 1 <= k <= LogLength(w) :: Logged(w, k)
  {
    LengthFromIsFirstGap(w, 0);
  }

  lemma {:induction false} LogLengthUnique(w: Blocks, n: nat)
    requires !Logged(w, n + 1)
    requires forall k | 1 <= k <= n :: Logged(w, k)
    ensures LogLength(w) == n
  {
    LogLengthIsFirstGap(w);
  }

  ghost function Recovered(w: Blocks): Blocks {
    After(w, LogLength(w))
  }

  ghost function RecoverTrace(told: seq<Blocks>, w: Blocks): seq<Blocks> {
    AfterTrace(told, w, LogLength(w))
  }

  /** Positions that dealing with entries 1 to k can change. */
  predicate Touchable(p: Pos, k: nat) {
    p.x == 2 || p.x == 3 || (p.x == 0 && p.y == WAL_Y && 1 <= -p.z <= k)
  }

  lemma {:induction false} AfterFrame(w: Blocks, k: nat)
    requires k <= LogLength(w)
    ensures forall p | !Touchable(p, k) :: Get(After(w, k), p) == Get(w, p)
  {
    if k > 0 {
      AfterFrame(w, k - 1);
      LogLengthIsFirstGap(w);
      AfterKeepsLog(w, k - 1, k);
      HandleFrame(After(w, k - 1), k);
    }
  }

  lemma {:induction false} HandleKeepsLog(w: Blocks, n: int, i: int)
    requires Logged(w, n)
    ensures Logged(Handle(w, n), i) <==> Logged(w, i)
  {
    HandleFrame(w, n);
    assert i != n ==> Lectern(i) != Lectern(n);
  }

  lemma {:induction false} AfterKeepsLog(w: Blocks, k: nat, i: int)
    requires k <= LogLength(w)
    ensures Logged(After(w, k), i) <==> Logged(w, i)
  {
    if k > 0 {
      var w' := After(w, k - 1);
      AfterKeepsLog(w, k - 1, i);
      AfterKeepsLog(w, k - 1, k);
      LogLengthIsFirstGap(w);
      HandleKeepsLog(w', k, i);
    }
  }

  /** The scan meets an empty lectern exactly past the last entry. */
  lemma {:induction false} ScanEnds(w: Blocks, k: nat)
    requires 1 <= k <= LogLength(w) + 1
    ensures Logged(After(w, k - 1), k) <==> k <= LogLength(w)
  {
    AfterKeepsLog(w, k - 1, k);
    LogLengthIsFirstGap(w);
  }

  // ----- the log as an object -----

  function Max(a: int, b: int): int {
    if a >= b then a else b
  }

  class Log {
    const hal: Hal
    var nextLSN: int

    constructor (h: Hal)
      ensures hal == h && nextLSN == 1
    {
      hal := h;
      nextLSN := 1;
    }

    method Append(txid: int, op: string, tableID: int, x: int, y: int, z: int, newValue: string)
      returns (lsn: int)
      modifies hal, `nextLSN
      ensures lsn == old(nextLSN) && nextLSN == lsn + 1
      ensures hal.store == Put(old(hal.store), Lectern(lsn),
                               Serialize(Entry(lsn, txid, PENDING, op, tableID, x, y, z, newValue)))
      ensures hal.trace == old(hal.trace) + [hal.store]
    {
      lsn := nextLSN;
      nextLSN := nextLSN + 1;
      var book := SerializeEntry(Entry(lsn, txid, PENDING, op, tableID, x, y, z, newValue));
      hal.WriteBlock(Pos(0, WAL_Y, -lsn), book);
    }

    method Commit(lsn: int) returns (ok: bool)
      modifies hal
      ensures ok == CommitOf(old(hal.store), lsn).Some?
      ensures ok ==> hal.store == CommitOf(old(hal.store), lsn).value
      ensures ok ==> hal.trace == old(hal.trace) + [hal.store]
      ensures !ok ==> hal.store == old(hal.store) && hal.trace == old(hal.trace)
    {
      var data := hal.ReadBlock(Lectern(lsn));
      ok := CommitBook(lsn, data);
    }

    /** Commit after its read: the book is checked and its committed form written. */
    method CommitBook(lsn: int, data: string) returns (ok: bool)
      requires data == Get(hal.store, Lectern(lsn))
      modifies hal
      ensures ok == CommitOf(old(hal.store), lsn).Some?
      ensures ok ==> hal.store == CommitOf(old(hal.store), lsn).value
      ensures ok ==> hal.trace == old(hal.trace) + [hal.store]
      ensures !ok ==> hal.store == old(hal.store) && hal.trace == old(hal.trace)
    {
      var entry := DeserializeEntry(data);
      if data == "" || entry.None? || entry.value.status != PENDING {
        assert data == "" ==> Deserialize(data).None? by {
          assert IndexFrom("", PAGE_SEP, 0) == -1;
        }
        return false;
      }
      var book := SerializeEntry(entry.value.(status := COMMITTED));
      hal.WriteBlock(Lectern(lsn), book);
      ok := true;
    }

    method ReplayUpdateXmax(e: Entry) returns (ok: bool)
      requires e.op == UPDATE_XMAX
      modifies hal
      ensures ok == Replayable(e)
      ensures ok ==> hal.store == Replay(old(hal.store), e)
      ensures ok ==> hal.trace == ReplayTrace(old(hal.trace), old(hal.store), e)
      ensures !ok ==> hal.store == old(hal.store) && hal.trace == old(hal.trace)
    {
      var b0 := hal.ReadBlock(Pos(2, e.y, e.z));
      var b1 := hal.ReadBlock(Pos(3, e.y, e.z));
      var txid := ParseInt(e.newValue);
      if txid.None? {
        return false;
      }
      var current := DecodeInt64(b0, b1);
      ok := true;
      if current == txid {
        return;
      }
      var s1, s2 := EncodeInt64(txid.value);
      var writes := [BlockWrite(Pos(2, e.y, e.z), s1), BlockWrite(Pos(3, e.y, e.z), s2)];
      hal.BatchWrite(writes);
      PutTwo(old(hal.store), writes);
    }

    /** One turn of the recovery loop on the non-empty lectern at Z = -k; `noted` says whether it
        reached the point where the turn accounts for the entry's LSN. */
    method RecoverEntry(k: int, data: string) returns (noted: bool)
      requires data == Get(hal.store, Lectern(k))
      modifies hal
      ensures hal.store == Handle(old(hal.store), k)
      ensures hal.trace == HandleTrace(old(hal.trace), old(hal.store), k)
    {
      var entry := DeserializeEntry(data);
      if entry.None? {
        return false;
      }
      if entry.value.status == COMMITTED {
        return true;
      }
      if entry.value.op == UPDATE_XMAX {
        var ok := ReplayUpdateXmax(entry.value);
        if !ok {
          return false;
        }
      } else if entry.value.op == INSERT {
        // replayInsert only looks at the target block
        var target := hal.ReadBlock(Pos(entry.value.x, entry.value.y, entry.value.z));
      }
      var book := SerializeEntry(entry.value.(status := COMMITTED));
      hal.WriteBlock(Lectern(k), book);
      noted := true;
    }

    /** The scan runs from Z = -1 downward; k is -Z. */
    method Recover()
      modifies hal, `nextLSN
      ensures hal.store == Recovered(old(hal.store))
      ensures nextLSN == Max(old(nextLSN), LogLength(old(hal.store)) + 1)
      ensures hal.trace == RecoverTrace(old(hal.trace), old(hal.store))
    {
      ghost var w0, n := hal.store, LogLength(hal.store);
      var k := 1;
      var data := hal.ReadBlock(Lectern(k));
      while data != ""
        invariant 1 <= k <= n + 1
        invariant hal.store == After(w0, k - 1)
        invariant hal.trace == AfterTrace(old(hal.trace), w0, k - 1)
        invariant data == Get(hal.store, Lectern(k))
        invariant old(nextLSN) <= nextLSN <= Max(old(nextLSN), k)
        decreases n + 1 - k
      {
        ScanEnds(w0, k);
        var noted := RecoverEntry(k, data);
        if noted && k >= nextLSN {
          nextLSN := k + 1;
        }
        k := k + 1;
        data := hal.ReadBlock(Lectern(k));
      }
      ScanEnds(w0, k);
      if k >= nextLSN {
        nextLSN := k;
      }
    }
  }
}
