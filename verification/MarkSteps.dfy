/** MarkDeleted cut at its HAL requests: where a call stands between two of them. */
module MarkSteps {
  import opened GoText
  import opened World
  import opened LogEntry
  import opened Wal
  import opened Store

  /** How far a MarkDeleted call has come: what its last HAL request left it with. */
  datatype Marker =
    | Free
    | Asked(pos: Pos)
    | Half(pos: Pos, xmax0: string)
    | Checked(pos: Pos)
    | Entered(pos: Pos, lsn: int)
    | Wrote(pos: Pos, lsn: int)
    | Reread(pos: Pos, lsn: int, book: string)

  function Rank(k: Marker): nat {
    match k
    case Free => 0
    case Asked(_) => 6
    case Half(_, _) => 5
    case Checked(_) => 4
    case Entered(_, _) => 3
    case Wrote(_, _) => 2
    case Reread(_, _, _) => 1
  }

  /** The world, next LSN and trace in the middle of a mark that began in state m. */
  ghost predicate MidMarkIs(m: Marks, told: seq<Blocks>, txid: int, k: Marker, w: Blocks, lsn: int, trace: seq<Blocks>)
    requires !k.Free?
  {
    var op := DeleteOp(k.pos, txid);
    && m.ok
    && (k.Asked? || k.Half? || k.Checked? ==> w == m.world && lsn == m.lsn && trace == told)
    && (k.Half? ==> k.xmax0 == Get(m.world, Pos(2, k.pos.y, k.pos.z)))
    && (!k.Asked? && !k.Half? ==> HasXmax(m.world, k.pos))
    && (k.Entered? || k.Wrote? || k.Reread? ==> k.lsn == m.lsn && lsn == m.lsn + 1)
    && (k.Entered? ==> w == AfterAppend(m.world, m.lsn, op) && trace == told + [w])
    && (k.Wrote? || k.Reread? ==>
          w == AfterData(m.world, m.lsn, op) && trace == told + [AfterAppend(m.world, m.lsn, op)] + [w])
    && (k.Reread? ==> k.book == Get(w, Lectern(m.lsn)))
  }

  ghost predicate MidMark(m: Marks, told: seq<Blocks>, txid: int, k: Marker, w: Blocks, lsn: int, trace: seq<Blocks>)
    requires !k.Free?
  {
    forall b {:trigger Open(OfMark, b)} :: Open(OfMark, b) ==> MidMarkIs(m, told, txid, k, w, lsn, trace)
  }

  ghost predicate MarkEnds(m: Marks, told: seq<Blocks>, pos: Pos, txid: int, m': Marks, trace: seq<Blocks>) {
    forall b {:trigger Open(OfMark, b)} :: Open(OfMark, b) ==>
      m' == Mark(m, pos, txid) && trace == MarkTrace(told, m, pos, txid)
  }

  lemma {:induction false} MarkBegins(m: Marks, told: seq<Blocks>, pos: Pos, txid: int)
    requires m.ok
    ensures MidMark(m, told, txid, Asked(pos), m.world, m.lsn, told)
  {
  }

  lemma {:induction false} HalfRead(m: Marks, told: seq<Blocks>, txid: int, pos: Pos, w: Blocks, lsn: int,
                                    trace: seq<Blocks>)
    requires MidMark(m, told, txid, Asked(pos), w, lsn, trace)
    ensures MidMark(m, told, txid, Half(pos, Get(w, Pos(2, pos.y, pos.z))), w, lsn, trace)
  {
    assert Open(OfMark, true);
  }

  lemma {:induction false} BothRead(m: Marks, told: seq<Blocks>, txid: int, pos: Pos, xmax0: string, w: Blocks,
                                    lsn: int,
                                    trace: seq<Blocks>)
    requires MidMark(m, told, txid, Half(pos, xmax0), w, lsn, trace)
    ensures if xmax0 == "" || Get(w, Pos(3, pos.y, pos.z)) == ""
            then MarkEnds(m, told, pos, txid, Marks(w, lsn, false), trace)
            else MidMark(m, told, txid, Checked(pos), w, lsn, trace)
  {
    assert Open(OfMark, true);
  }

  lemma {:induction false} EntryPersisted(m: Marks, told: seq<Blocks>, txid: int, pos: Pos, w: Blocks, lsn: int,
                                          trace: seq<Blocks>, e: Entry, w': Blocks, trace': seq<Blocks>)
    requires MidMark(m, told, txid, Checked(pos), w, lsn, trace)
    requires e == Entry(lsn, txid, PENDING, UPDATE_XMAX, TruncDiv(pos.z, SPACING) + 1, pos.x, pos.y, pos.z, Itoa(txid))
    requires w' == Put(w, Lectern(lsn), Serialize(e)) && trace' == trace + [w']
    ensures lsn == m.lsn && MidMark(m, told, txid, Entered(pos, lsn), w', lsn + 1, trace')
  {
    assert Open(OfMark, true);
    assert e == EntryOf(DeleteOp(pos, txid), lsn, PENDING);
  }

  lemma {:induction false} BookReread(m: Marks, told: seq<Blocks>, txid: int, pos: Pos, l: int, w: Blocks, lsn: int,
                                      trace: seq<Blocks>)
    requires MidMark(m, told, txid, Wrote(pos, l), w, lsn, trace)
    ensures MidMark(m, told, txid, Reread(pos, l, Get(w, Lectern(l))), w, lsn, trace)
  {
    assert Open(OfMark, true);
  }
}
