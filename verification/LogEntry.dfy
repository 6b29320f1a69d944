/** Log entries as books: serializeEntry and deserializeEntry of internal/wal/wal.go. */
module LogEntry {
  import opened GoText

  const PAGE_SEP := "\n---\n"
  const PAGE_LEN := 200
  const PENDING := "PENDING"
  const COMMITTED := "COMMITTED"

  datatype Entry = Entry(
    lsn: int, txid: int, status: string, op: string, tableID: int,
    x: int, y: int, z: int, newValue: string)

  const BLANK := Entry(0, 0, "", "", 0, 0, 0, 0, "")

  /** Entries Go can hold whose status and op fit on one line. */
  predicate OneLine(e: Entry) {
    && IsInt64(e.lsn) && IsInt64(e.txid) && IsInt64(e.tableID)
    && IsInt64(e.x) && IsInt64(e.y) && IsInt64(e.z)
    && Free(e.status, '\n') && Free(e.op, '\n')
  }

  // ----- writing -----

  function HeaderLines(e: Entry, page: nat): seq<string>
    requires page < 3
  {
    if page == 0 then ["LSN: " + Itoa(e.lsn), "TXID: " + Itoa(e.txid), "STATUS: " + e.status]
    else if page == 1 then ["OP: " + e.op, "TABLE: " + Itoa(e.tableID)]
    else ["X: " + Itoa(e.x), "Y: " + Itoa(e.y), "Z: " + Itoa(e.z)]
  }

  function Header(e: Entry): seq<string> {
    [Join(HeaderLines(e, 0), "\n"), Join(HeaderLines(e, 1), "\n"), Join(HeaderLines(e, 2), "\n")]
  }

  /** The pages of s from an offset on, at most 200 bytes each. */
  function ChunksFrom(s: string, from: nat): (pages: seq<string>)
    requires from <= |s|
    ensures from == |s| <==> pages == []
    decreases |s| - from
  {
    if from == |s| then []
    else
      var end := if from + PAGE_LEN > |s| then |s| else from + PAGE_LEN;
      [s[from..end]] + ChunksFrom(s, end)
  }

  function Chunks(s: string): (pages: seq<string>)
    ensures s == "" <==> pages == []
  {
    ChunksFrom(s, 0)
  }

  function Serialize(e: Entry): string {
    Join(Header(e) + Chunks(e.newValue), PAGE_SEP)
  }

  // ----- reading -----

  function ApplyLine(page: nat, line: string, e: Entry): (r: Option<Entry>)
    requires page < 3
  {
    if page == 0 then
      if HasPrefix(line, "LSN: ") then
        var v := ParseInt(line[5..]);
        if v.None? then None else Some(e.(lsn := v.value))
      else if HasPrefix(line, "TXID: ") then
        var v := ParseInt(line[6..]);
        if v.None? then None else Some(e.(txid := v.value))
      else if HasPrefix(line, "STATUS: ") then Some(e.(status := line[8..]))
      else Some(e)
    else if page == 1 then
      if HasPrefix(line, "OP: ") then Some(e.(op := line[4..]))
      else if HasPrefix(line, "TABLE: ") then
        var v := ParseInt(line[7..]);
        if v.None? then None else Some(e.(tableID := v.value))
      else Some(e)
    else
      if HasPrefix(line, "X: ") then
        var v := ParseInt(line[3..]);
        if v.None? then None else Some(e.(x := v.value))
      else if HasPrefix(line, "Y: ") then
        var v := ParseInt(line[3..]);
        if v.None? then None else Some(e.(y := v.value))
      else if HasPrefix(line, "Z: ") then
        var v := ParseInt(line[3..]);
        if v.None? then None else Some(e.(z := v.value))
      else Some(e)
  }

  /** The first n lines of a page, applied in order. */
  function ApplyLines(page: nat, lines: seq<string>, n: nat, e: Entry): (r: Option<Entry>)
    requires page < 3 && n <= |lines|
  {
    if n == 0 then Some(e)
    else
      var r := ApplyLines(page, lines, n - 1, e);
      if r.None? then None else ApplyLine(page, lines[n - 1], r.value)
  }

  function ApplyPage(page: nat, text: string, e: Entry): (r: Option<Entry>)
    requires page < 3
  {
    var lines := Split(text, "\n");
    ApplyLines(page, lines, |lines|, e)
  }

  function ApplyPages(pages: seq<string>): (r: Option<Entry>)
    requires |pages| >= 3
  {
    var e0 := ApplyPage(0, pages[0], BLANK);
    if e0.None? then None
    else
      var e1 := ApplyPage(1, pages[1], e0.value);
      if e1.None? then None else ApplyPage(2, pages[2], e1.value)
  }

  function Deserialize(book: string): (r: Option<Entry>)
  {
    var pages := Split(book, PAGE_SEP);
    if |pages| < 4 then None
    else
      var e := ApplyPages(pages);
      if e.None? then None else Some(e.value.(newValue := Concat(pages[3..])))
  }

  // ----- whatever the book, a parsed entry is one line per field -----

  lemma {:induction false} ApplyLinesKeepsOneLine(page: nat, lines: seq<string>, n: nat, e: Entry)
    requires page < 3 && n <= |lines| && OneLine(e)
    requires forall k | 0 <= k < |lines| :: Free(lines[k], '\n')
    ensures ApplyLines(page, lines, n, e).Some? ==> OneLine(ApplyLines(page, lines, n, e).value)
  {
    if n > 0 {
      ApplyLinesKeepsOneLine(page, lines, n - 1, e);
    }
  }

  lemma {:induction false} ApplyPageKeepsOneLine(page: nat, text: string, e: Entry)
    requires page < 3 && OneLine(e)
    ensures ApplyPage(page, text, e).Some? ==> OneLine(ApplyPage(page, text, e).value)
  {
    var lines := Split(text, "\n");
    LinesAreFree(text, 0);
    ApplyLinesKeepsOneLine(page, lines, |lines|, e);
  }

  lemma {:induction false} ParsedIsOneLine(book: string)
    ensures Deserialize(book).Some? ==> OneLine(Deserialize(book).value)
  {
    var pages := Split(book, PAGE_SEP);
    if |pages| >= 4 {
      ApplyPageKeepsOneLine(0, pages[0], BLANK);
      var e0 := ApplyPage(0, pages[0], BLANK);
      if e0.Some? {
        ApplyPageKeepsOneLine(1, pages[1], e0.value);
        var e1 := ApplyPage(1, pages[1], e0.value);
        if e1.Some? {
          ApplyPageKeepsOneLine(2, pages[2], e1.value);
        }
      }
    }
  }

  // ----- page boundaries -----

  /** No line after the first starts with a dash, so no page separator can begin inside. */
  predicate NoDashLine(a: string) {
    forall i | 0 <= i < |a| - 1 :: a[i] == '\n' ==> a[i + 1] != '-'
  }

  lemma {:induction false} PageKeepsItsSeparator(a: string)
    requires NoDashLine(a)
    ensures Clean(a, PAGE_SEP)
  {
    var s := a + PAGE_SEP;
    assert PAGE_SEP[0] == '\n' && PAGE_SEP[1] == '-';
    forall i | 0 <= i < |a| ensures !OccursAt(s, PAGE_SEP, i) {
      assert s[i..i + 5][0] == a[i];
      assert s[i..i + 5][1] == s[i + 1];
    }
  }

  /** A line of a header: no newline in it, no dash in front. */
  predicate HeaderLine(line: string) {
    Free(line, '\n') && (line == "" || line[0] != '-')
  }

  lemma {:induction false} LineIsClean(line: string)
    requires Free(line, '\n')
    ensures Clean(line, "\n")
  {
    forall i | 0 <= i < |line| ensures !OccursAt(line + "\n", "\n", i) {
      assert (line + "\n")[i..i + 1][0] == line[i];
    }
  }

  lemma {:induction false} LinesRoundTrip(lines: seq<string>)
    requires |lines| >= 1 && forall k | 0 <= k < |lines| :: HeaderLine(lines[k])
    ensures Split(Join(lines, "\n"), "\n") == lines
  {
    forall k | 0 <= k < |lines| ensures Clean(lines[k], "\n") {
      LineIsClean(lines[k]);
    }
    SplitJoin(lines, "\n");
  }

  lemma {:induction false} LinesHaveNoDash(lines: seq<string>)
    requires |lines| >= 1 && forall k | 0 <= k < |lines| :: HeaderLine(lines[k])
    ensures NoDashLine(Join(lines, "\n"))
    decreases |lines|
  {
    if |lines| > 1 {
      var init, last := lines[..|lines| - 1], lines[|lines| - 1];
      LinesHaveNoDash(init);
      NoDashAppend(Join(init, "\n"), last);
    }
  }

  lemma {:induction false} NoDashAppend(a: string, line: string)
    requires NoDashLine(a) && HeaderLine(line)
    ensures NoDashLine(a + "\n" + line)
  {
    var s := a + "\n" + line;
    forall i | 0 <= i < |s| - 1 && s[i] == '\n' ensures s[i + 1] != '-' {
      if i < |a| {
        assert s[i] == a[i];
        assert i + 1 < |a| ==> s[i + 1] == a[i + 1];
      } else {
        assert i == |a| && s[i + 1] == line[0];
      }
    }
  }

  lemma {:induction false} HeaderPage(e: Entry, page: nat)
    requires page < 3 && OneLine(e)
    ensures Split(Header(e)[page], "\n") == HeaderLines(e, page)
    ensures NoDashLine(Header(e)[page])
  {
    if page == 0 {
      ItoaFree(e.lsn, '\n');
      ItoaFree(e.txid, '\n');
    } else if page == 1 {
      ItoaFree(e.tableID, '\n');
    } else {
      ItoaFree(e.x, '\n');
      ItoaFree(e.y, '\n');
      ItoaFree(e.z, '\n');
    }
    LinesRoundTrip(HeaderLines(e, page));
    LinesHaveNoDash(HeaderLines(e, page));
  }

  lemma {:induction false} ApplyThree(page: nat, lines: seq<string>, e: Entry)
    requires page < 3 && |lines| >= 2
    requires ApplyLine(page, lines[0], e).Some?
    ensures ApplyLines(page, lines, 2, e) == ApplyLine(page, lines[1], ApplyLine(page, lines[0], e).value)
    ensures |lines| >= 3 && ApplyLines(page, lines, 2, e).Some? ==>
              ApplyLines(page, lines, 3, e) == ApplyLine(page, lines[2], ApplyLines(page, lines, 2, e).value)
  {
    assert ApplyLines(page, lines, 1, e) == ApplyLine(page, lines[0], e);
  }

  lemma {:induction false} NumberLine(prefix: string, n: int)
    requires IsInt64(n)
    ensures HasPrefix(prefix + Itoa(n), prefix)
    ensures ParseInt((prefix + Itoa(n))[|prefix|..]) == Some(n)
  {
    ParseItoa(n);
    assert (prefix + Itoa(n))[|prefix|..] == Itoa(n);
  }

  lemma {:induction false} Page0Parses(e: Entry)
    requires OneLine(e)
    ensures ApplyLines(0, HeaderLines(e, 0), 3, BLANK) == Some(BLANK.(lsn := e.lsn, txid := e.txid, status := e.status))
  {
    var lines := HeaderLines(e, 0);
    NumberLine("LSN: ", e.lsn);
    NumberLine("TXID: ", e.txid);
    assert lines[0][0] == 'L' && lines[1][0] == 'T' && lines[2][0] == 'S';
    assert lines[2][8..] == e.status;
    ApplyThree(0, lines, BLANK);
  }

  lemma {:induction false} Page1Parses(e: Entry, e0: Entry)
    requires OneLine(e)
    ensures ApplyLines(1, HeaderLines(e, 1), 2, e0) == Some(e0.(op := e.op, tableID := e.tableID))
  {
    var lines := HeaderLines(e, 1);
    NumberLine("TABLE: ", e.tableID);
    assert lines[0][0] == 'O' && lines[1][0] == 'T';
    assert lines[0][4..] == e.op;
    ApplyThree(1, lines, e0);
  }

  lemma {:induction false} Page2Parses(e: Entry, e0: Entry)
    requires OneLine(e)
    ensures ApplyLines(2, HeaderLines(e, 2), 3, e0) == Some(e0.(x := e.x, y := e.y, z := e.z))
  {
    var lines := HeaderLines(e, 2);
    NumberLine("X: ", e.x);
    NumberLine("Y: ", e.y);
    NumberLine("Z: ", e.z);
    assert lines[0][0] == 'X' && lines[1][0] == 'Y' && lines[2][0] == 'Z';
    ApplyThree(2, lines, e0);
  }

  lemma {:induction false} HeaderParses(e: Entry, pages: seq<string>)
    requires OneLine(e) && |pages| >= 3 && pages[..3] == Header(e)
    ensures ApplyPages(pages) == Some(e.(newValue := ""))
  {
    assert forall i | 0 <= i < 3 :: pages[i] == pages[..3][i];
    HeaderPage(e, 0);
    HeaderPage(e, 1);
    HeaderPage(e, 2);
    Page0Parses(e);
    var e0 := BLANK.(lsn := e.lsn, txid := e.txid, status := e.status);
    Page1Parses(e, e0);
    var e1 := e0.(op := e.op, tableID := e.tableID);
    Page2Parses(e, e1);
  }

  lemma {:induction false} SplitAfterHeader(h: seq<string>, c: seq<string>)
    requires |h| == 3 && |c| >= 1 && forall k | 0 <= k < 3 :: NoDashLine(h[k])
    ensures Split(Join(h + c, PAGE_SEP), PAGE_SEP) == h + Split(Join(c, PAGE_SEP), PAGE_SEP)
  {
    forall k | 0 <= k < 3 ensures Clean(h[k], PAGE_SEP) {
      PageKeepsItsSeparator(h[k]);
    }
    JoinTerminated(h, c, PAGE_SEP);
    SplitTerminated(h, Join(c, PAGE_SEP), PAGE_SEP);
  }

  lemma {:induction false} HeaderAlone(h: seq<string>)
    requires |h| == 3 && forall k | 0 <= k < 3 :: NoDashLine(h[k])
    ensures Split(Join(h, PAGE_SEP), PAGE_SEP) == h
  {
    forall k | 0 <= k < 3 ensures Clean(h[k], PAGE_SEP) {
      PageKeepsItsSeparator(h[k]);
    }
    SplitJoin(h, PAGE_SEP);
  }

  /** Whatever the new value holds, the three header pages are cut where they were joined. */
  lemma {:induction false} SplitBook(e: Entry)
    requires OneLine(e)
    ensures Split(Serialize(e), PAGE_SEP)
            == Header(e) + if e.newValue == "" then [] else Split(Join(Chunks(e.newValue), PAGE_SEP), PAGE_SEP)
  {
    HeaderPage(e, 0);
    HeaderPage(e, 1);
    HeaderPage(e, 2);
    if e.newValue == "" {
      assert Header(e) + Chunks(e.newValue) == Header(e);
      HeaderAlone(Header(e));
    } else {
      SplitAfterHeader(Header(e), Chunks(e.newValue));
    }
  }

  lemma {:induction false} ChunksRejoin(s: string, from: nat)
    requires from <= |s|
    ensures Concat(ChunksFrom(s, from)) == s[from..]
    ensures Free(s, '\n') ==> forall k | 0 <= k < |ChunksFrom(s, from)| :: Free(ChunksFrom(s, from)[k], '\n')
    decreases |s| - from
  {
    if from < |s| {
      var end := if from + PAGE_LEN > |s| then |s| else from + PAGE_LEN;
      ChunksRejoin(s, end);
      ConcatCons(s[from..end], ChunksFrom(s, end));
      assert s[from..end] + s[end..] == s[from..];
    }
  }

  /** Reading a written entry gives it back, over any number of pages, unless its new value is
      empty: then the book has too few pages and is refused. */
  lemma {:induction false} RoundTrip(e: Entry)
    requires OneLine(e) && Free(e.newValue, '\n')
    ensures Deserialize(Serialize(e)) == if e.newValue == "" then None else Some(e)
  {
    SplitBook(e);
    if e.newValue != "" {
      var c := Chunks(e.newValue);
      ChunksRejoin(e.newValue, 0);
      assert e.newValue[0..] == e.newValue;
      forall k | 0 <= k < |c| ensures Clean(c[k], PAGE_SEP) {
        PageKeepsItsSeparator(c[k]);
      }
      SplitJoin(c, PAGE_SEP);
      var pages := Header(e) + c;
      assert pages[..3] == Header(e) && pages[3..] == c;
      HeaderParses(e, pages);
    }
  }

  /** For any new value at all, newlines and forged separators included, a rewritten entry either
      is refused or keeps every header field. */
  lemma {:induction false} HeaderRoundTrip(e: Entry)
    requires OneLine(e)
    ensures var r := Deserialize(Serialize(e));
            if e.newValue == "" then r.None? else r.Some? && r.value.(newValue := e.newValue) == e
  {
    SplitBook(e);
    if e.newValue != "" {
      var pages := Split(Serialize(e), PAGE_SEP);
      assert pages[..3] == Header(e);
      HeaderParses(e, pages);
    }
  }

  lemma {:induction false} SerializedIsNotEmpty(e: Entry)
    ensures Serialize(e) != ""
  {
    var h := Header(e);
    assert (h + Chunks(e.newValue))[0] == h[0];
    assert h[0] != "";
  }

  // ----- the source's loops -----

  method SerializeEntry(e: Entry) returns (book: string)
    ensures book == Serialize(e)
  {
    var pages := Header(e);
    var remaining := e.newValue;
    ghost var from := 0;
    while |remaining| > 0
      invariant 0 <= from <= |e.newValue| && remaining == e.newValue[from..]
      invariant pages + ChunksFrom(e.newValue, from) == Header(e) + Chunks(e.newValue)
    {
      var end := PAGE_LEN;
      if end > |remaining| {
        end := |remaining|;
      }
      assert remaining[..end] == e.newValue[from..from + end];
      pages := pages + [remaining[..end]];
      remaining := remaining[end..];
      from := from + end;
    }
    assert pages + [] == pages;
    book := Join(pages, PAGE_SEP);
  }

  method ReadLines(page: nat, text: string, e: Entry) returns (r: Option<Entry>)
    requires page < 3
    ensures r == ApplyPage(page, text, e)
  {
    var lines := Split(text, "\n");
    r := Some(e);
    for i := 0 to |lines|
      invariant r.Some? && r == ApplyLines(page, lines, i, e)
    {
      r := ApplyLine(page, lines[i], r.value);
      if r.None? {
        ApplyLinesStop(page, lines, i + 1, |lines|, e);
        return;
      }
    }
  }

  lemma {:induction false} ApplyLinesStop(page: nat, lines: seq<string>, i: nat, n: nat, e: Entry)
    requires page < 3 && i <= n <= |lines| && ApplyLines(page, lines, i, e).None?
    ensures ApplyLines(page, lines, n, e).None?
  {
    if i < n {
      ApplyLinesStop(page, lines, i, n - 1, e);
    }
  }

  method DeserializeEntry(book: string) returns (r: Option<Entry>)
    ensures r == Deserialize(book)
  {
    var pages := Split(book, PAGE_SEP);
    if |pages| < 4 {
      return None;
    }
    var e := ReadLines(0, pages[0], BLANK);
    if e.None? {
      return None;
    }
    e := ReadLines(1, pages[1], e.value);
    if e.None? {
      return None;
    }
    e := ReadLines(2, pages[2], e.value);
    if e.None? {
      return None;
    }
    var newValue := Concat(pages[3..]);
    if |pages| == 4 {
      ConcatCons(pages[3], []);
      assert pages[3..] == [pages[3]] + [];
      assert Concat([]) == "" && pages[3] + "" == pages[3];
      newValue := pages[3];
    }
    r := Some(e.value.(newValue := newValue));
  }
}
