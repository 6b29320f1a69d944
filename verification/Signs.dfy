/** TEXT columns on signs: EncodeText/DecodeText of internal/storage/codec.go and
    encodeSignData/decodeSignData of internal/storage/storage.go. */
module Signs {
  import opened GoText

  const LINE_LEN := 16
  const LINES := 4
  const MAX_LEN := 64
  const NUL := '\0'
  const SEP := "\0"

  /** The stored form of a text: at most 64 bytes, a longer one keeps 61 and an ellipsis. */
  function Cut(s: string): (c: string)
    ensures |c| <= MAX_LEN
  {
    if |s| <= MAX_LEN then s else s[..61] + "..."
  }

  function Slice(s: string, a: nat, b: nat): string
    requires a <= b
  {
    if |s| <= a then "" else if |s| <= b then s[a..] else s[a..b]
  }

  /** Line i holds bytes 16i to 16i+15 of the stored form. */
  function SignLines(s: string): (lines: seq<string>)
    ensures |lines| == LINES
  {
    seq(LINES, i requires 0 <= i < LINES => Slice(Cut(s), LINE_LEN * i, LINE_LEN * (i + 1)))
  }

  /** strings.SplitN(s, "\x00", n) */
  function SplitNul(s: string, from: nat, n: nat): (parts: seq<string>)
    requires from <= |s| && n >= 1
    ensures 1 <= |parts| <= n
    decreases n
  {
    var i := IndexFrom(s, SEP, from);
    if n == 1 || i == -1 then [s[from..]] else [s[from..i]] + SplitNul(s, i + 1, n - 1)
  }

  function SignData(lines: seq<string>): string
    requires |lines| == LINES
  {
    lines[0] + SEP + lines[1] + SEP + lines[2] + SEP + lines[3]
  }

  function SignText(data: string): string {
    Concat(SplitNul(data, 0, LINES))
  }

  // ----- what reading a sign back gives -----

  function DropNuls(s: string, k: nat): string {
    if k == 0 || s == "" then s
    else if s[0] == NUL then DropNuls(s[1..], k - 1)
    else [s[0]] + DropNuls(s[1..], k)
  }

  lemma {:induction false} DropNulsPrefix(a: string, s: string, k: nat)
    requires Free(a, NUL)
    ensures DropNuls(a + s, k) == a + DropNuls(s, k)
    decreases |a|
  {
    if a == "" {
      assert a + s == s;
    } else if k == 0 {
    } else {
      assert (a + s)[1..] == a[1..] + s;
      DropNulsPrefix(a[1..], s, k);
      assert a + DropNuls(s, k) == [a[0]] + (a[1..] + DropNuls(s, k));
    }
  }

  lemma {:induction false} DropNulsFree(s: string, k: nat)
    requires Free(s, NUL)
    ensures DropNuls(s, k) == s
  {
    DropNulsPrefix(s, "", k);
    assert s + "" == s;
  }

  lemma {:induction false} FirstNul(s: string, from: nat)
    requires from <= |s|
    ensures var i := IndexFrom(s, SEP, from);
            if i == -1 then Free(s[from..], NUL) else i < |s| && s[i] == NUL && Free(s[from..i], NUL)
  {
    var i := IndexFrom(s, SEP, from);
    IndexFromIsFirst(s, SEP, from);
    var upto := if i == -1 then |s| else i;
    forall j | from <= j < upto ensures s[j] != NUL {
      assert !OccursAt(s, SEP, j);
      assert s[j..j + 1] == [s[j]];
    }
    if i != -1 {
      assert s[i..i + 1][0] == SEP[0];
    }
  }

  /** Reading a sign concatenates its parts, which deletes the first three NULs, whoever wrote them. */
  lemma {:induction false} ReadingDropsNuls(s: string, from: nat, n: nat)
    requires from <= |s| && n >= 1
    ensures Concat(SplitNul(s, from, n)) == DropNuls(s[from..], n - 1)
  {
    PartsDropNuls(s, from, n, n - 1);
  }

  lemma {:induction false} PartsDropNuls(s: string, from: nat, n: nat, k: nat)
    requires from <= |s| && n == k + 1
    ensures Concat(SplitNul(s, from, n)) == DropNuls(s[from..], k)
    decreases k
  {
    var i := IndexFrom(s, SEP, from);
    FirstNul(s, from);
    if k == 0 || i == -1 {
      LastPart(s, from, n, k);
    } else {
      PartsDropNuls(s, i + 1, n - 1, k - 1);
      PartBeforeNul(s, from, i, n, k, SplitNul(s, i + 1, n - 1));
    }
  }

  lemma {:induction false} PartBeforeNul(s: string, from: nat, i: nat, n: nat, k: nat, rest: seq<string>)
    requires from <= i < |s| && n == k + 1 && k >= 1 && i == IndexFrom(s, SEP, from)
    requires rest == SplitNul(s, i + 1, n - 1) && Concat(rest) == DropNuls(s[i + 1..], k - 1)
    ensures Concat(SplitNul(s, from, n)) == DropNuls(s[from..], k)
  {
    FirstNul(s, from);
    DropToNul(s, from, i, k);
    SplitsAtNul(s, from, i, n, rest);
  }

  lemma {:induction false} LastPart(s: string, from: nat, n: nat, k: nat)
    requires from <= |s| && n == k + 1 && (k == 0 || IndexFrom(s, SEP, from) == -1)
    ensures Concat(SplitNul(s, from, n)) == DropNuls(s[from..], k)
  {
    FirstNul(s, from);
    ConcatCons(s[from..], []);
    if k > 0 {
      DropNulsFree(s[from..], k);
    }
  }

  lemma {:induction false} SplitsAtNul(s: string, from: nat, i: nat, n: nat, rest: seq<string>)
    requires from <= i < |s| && n >= 2 && i == IndexFrom(s, SEP, from) && rest == SplitNul(s, i + 1, n - 1)
    ensures Concat(SplitNul(s, from, n)) == s[from..i] + Concat(rest)
  {
    ConcatCons(s[from..i], rest);
  }

  lemma {:induction false} DropToNul(s: string, from: nat, i: nat, k: nat)
    requires k >= 1 && from <= i < |s| && s[i] == NUL && Free(s[from..i], NUL)
    ensures DropNuls(s[from..], k) == s[from..i] + DropNuls(s[i + 1..], k - 1)
  {
    var t := s[from..];
    assert t[..i - from] == s[from..i] && t[i - from + 1..] == s[i + 1..];
    DropFirstNul(t, i - from, k);
  }

  lemma {:induction false} DropFirstNul(s: string, i: nat, k: nat)
    requires k >= 1 && i < |s| && s[i] == NUL && Free(s[..i], NUL)
    ensures DropNuls(s, k) == s[..i] + DropNuls(s[i + 1..], k - 1)
  {
    assert s == s[..i] + s[i..];
    DropNulsPrefix(s[..i], s[i..], k);
    assert s[i..][1..] == s[i + 1..];
  }

  predicate AllNul(s: string) {
    forall i | 0 <= i < |s| :: s[i] == NUL
  }

  /** Once a NUL, only NULs. */
  predicate NulTail(s: string) {
    forall i, j | 0 <= i < j < |s| :: s[i] == NUL ==> s[j] == NUL
  }

  function Nuls(k: nat): (s: string)
    ensures |s| == k && AllNul(s)
  {
    seq(k, _ => NUL)
  }

  /** The lines of a sign with the surplus of separators over d drops in front. */
  function Shifted(first: string, rest: seq<string>, d: nat): string
    requires d <= |rest|
  {
    Nuls(|rest| - d) + (first + Concat(rest))
  }

  lemma {:induction false} HeadOfNuls(k: nat, s: string)
    requires k >= 1
    ensures (Nuls(k) + s)[0] == NUL && (Nuls(k) + s)[1..] == Nuls(k - 1) + s
  {
  }

  /** Both sides start with a NUL: one drop or none, the question moves to the tails. */
  lemma {:induction false} DropHead(t: string, u: string, d: nat)
    requires t != "" && t[0] == NUL
    ensures d > 0 ==> DropNuls(t, d) == DropNuls(t[1..], d - 1)
    ensures u != "" && u[0] == NUL ==> (DropNuls(t, 0) == u <==> DropNuls(t[1..], 0) == u[1..])
  {
    assert t == [NUL] + t[1..];
    if u != "" && u[0] == NUL {
      assert u == [NUL] + u[1..];
    }
  }

  /** Dropping fewer NULs than there are separators leaves the surplus in front exactly when all
      lines but the last are NULs. */
  lemma {:induction false} SurplusNuls(first: string, rest: seq<string>, d: nat)
    requires d < |rest|
    ensures DropNuls(Join([first] + rest, SEP), d) == Shifted(first, rest, d)
            <==> AllNul(first + Concat(rest[..|rest| - 1]))
    decreases |rest|, |first|, 1
  {
    JoinCons(first, rest, SEP);
    var t := Join([first] + rest, SEP);
    if first == "" {
      assert t[0] == NUL && t[1..] == Join(rest, SEP);
      SurplusAfterEmptyLine(rest, d, t);
    } else if first[0] == NUL {
      SurplusAfterNul(first, rest, d, t);
    } else {
      assert t[0] == first[0];
      HeadOfNuls(|rest| - d, first + Concat(rest));
      assert (first + Concat(rest[..|rest| - 1]))[0] != NUL;
    }
  }

  lemma {:induction false} SurplusAfterEmptyLine(rest: seq<string>, d: nat, t: string)
    requires d < |rest| && t != "" && t[0] == NUL && t[1..] == Join(rest, SEP)
    ensures DropNuls(t, d) == Shifted("", rest, d) <==> AllNul("" + Concat(rest[..|rest| - 1]))
    decreases |rest|, 0, 0
  {
    if |rest| == 1 {
      SurplusInLastLine(rest, t);
    } else {
      JoinOfRest(rest);
      ShiftedNext(rest, d);
      DropHead(t, Shifted("", rest, d), d);
      SurplusNuls(rest[0], rest[1..], if d > 0 then d - 1 else 0);
      InitOfRest(rest);
    }
  }

  lemma {:induction false} JoinOfRest(rest: seq<string>)
    requires |rest| >= 1
    ensures rest == [rest[0]] + rest[1..]
  {
  }

  /** One drop less and one line less shift alike; without drops one NUL comes off the front. */
  lemma {:induction false} ShiftedNext(rest: seq<string>, d: nat)
    requires d < |rest| && |rest| >= 2
    ensures d > 0 ==> Shifted("", rest, d) == Shifted(rest[0], rest[1..], d - 1)
    ensures d == 0 ==>
              var u := Shifted("", rest, d); u != "" && u[0] == NUL && u[1..] == Shifted(rest[0], rest[1..], 0)
  {
    JoinOfRest(rest);
    ConcatCons(rest[0], rest[1..]);
    assert "" + Concat(rest) == Concat(rest);
    HeadOfNuls(|rest| - d, Concat(rest));
  }

  lemma {:induction false} SurplusInLastLine(rest: seq<string>, t: string)
    requires |rest| == 1 && t != "" && t[0] == NUL && t[1..] == Join(rest, SEP)
    ensures DropNuls(t, 0) == Shifted("", rest, 0) && AllNul("" + Concat(rest[..0]))
  {
    assert rest == [rest[0]] + [];
    ConcatCons(rest[0], []);
    assert t == [NUL] + rest[0] && Nuls(1) == [NUL];
  }

  lemma {:induction false} InitOfRest(rest: seq<string>)
    requires |rest| >= 2
    ensures Concat(rest[..|rest| - 1]) == rest[0] + Concat(rest[1..][..|rest| - 2])
    ensures "" + Concat(rest[..|rest| - 1]) == Concat(rest[..|rest| - 1])
  {
    assert rest[..|rest| - 1] == [rest[0]] + rest[1..][..|rest| - 2];
    ConcatCons(rest[0], rest[1..][..|rest| - 2]);
  }

  lemma {:induction false} SurplusAfterNul(first: string, rest: seq<string>, d: nat, t: string)
    requires d < |rest| && first != "" && first[0] == NUL && t == first + SEP + Join(rest, SEP)
    ensures DropNuls(t, d) == Shifted(first, rest, d) <==> AllNul(first + Concat(rest[..|rest| - 1]))
    decreases |rest|, |first|, 0
  {
    var first' := first[1..];
    var c, h := Concat(rest), Concat(rest[..|rest| - 1]);
    JoinCons(first', rest, SEP);
    assert t[1..] == first' + SEP + Join(rest, SEP);
    AllNulTail(first + h);
    assert (first + h)[1..] == first' + h;
    var m := |rest| - d;
    HeadOfNuls(m, first + c);
    DropHead(t, Shifted(first, rest, d), d);
    NulsThenNul(m, first, c);
    if d > 0 {
      SurplusNuls(first', rest, d - 1);
    } else {
      SurplusNuls(first', rest, 0);
      NulsThenNul(m - 1, first, c);
    }
  }

  lemma {:induction false} AllNulTail(a: string)
    requires a != "" && a[0] == NUL
    ensures AllNul(a) <==> AllNul(a[1..])
  {
    assert AllNul(a) ==> forall i | 0 <= i < |a| - 1 :: a[1..][i] == a[i + 1];
  }

  lemma {:induction false} NulsThenNul(m: nat, first: string, c: string)
    requires first != "" && first[0] == NUL
    ensures Nuls(m) + (first + c) == Nuls(m + 1) + (first[1..] + c)
  {
  }

  lemma {:induction false} CancelPrefix(a: string, x: string, y: string)
    ensures a + x == a + y <==> x == y
  {
    assert (a + x)[|a|..] == x && (a + y)[|a|..] == y;
  }

  lemma {:induction false} NulTailAfterFree(a: string, h: string)
    requires Free(a, NUL)
    ensures NulTail(a + h) <==> NulTail(h)
  {
    if NulTail(a + h) {
      forall i, j | 0 <= i < j < |h| && h[i] == NUL ensures h[j] == NUL {
        assert (a + h)[|a| + i] == h[i] && (a + h)[|a| + j] == h[j];
      }
    }
  }

  lemma {:induction false} NulTailAfterNul(a: string, h: string)
    requires Free(a, NUL)
    ensures NulTail(a + SEP + h) <==> AllNul(h)
  {
    var s := a + SEP + h;
    assert s[|a|] == NUL;
    assert forall j | 0 <= j < |h| :: s[|a| + 1 + j] == h[j];
    if NulTail(s) {
      forall j | 0 <= j < |h| ensures h[j] == NUL {
        assert s[|a| + 1 + j] == h[j];
      }
    }
  }

  /** Any lines come back from a sign exactly when no line but the last holds a non-NUL byte
      after a NUL. */
  lemma {:induction false} LinesThroughSign(lines: seq<string>)
    requires |lines| >= 1
    ensures DropNuls(Join(lines, SEP), |lines| - 1) == Concat(lines)
            <==> NulTail(Concat(lines[..|lines| - 1]))
    decreases |lines|
  {
    var k := |lines| - 1;
    var l, rest := lines[0], lines[1..];
    assert lines == [l] + rest;
    ConcatCons(l, rest);
    if k > 0 {
      JoinCons(l, rest, SEP);
      assert lines[..k] == [l] + rest[..k - 1];
      ConcatCons(l, rest[..k - 1]);
      assert l + SEP + Join(rest, SEP) == l + (SEP + Join(rest, SEP));
      FirstNul(l, 0);
      assert l[0..] == l;
      if IndexFrom(l, SEP, 0) == -1 {
        LinesThroughSign(rest);
        FreeLine(l, rest);
      } else {
        LineWithNul(l, IndexFrom(l, SEP, 0), rest);
      }
    }
  }

  lemma {:induction false} FreeLine(l: string, rest: seq<string>)
    requires Free(l, NUL) && |rest| >= 1
    requires DropNuls(Join(rest, SEP), |rest| - 1) == Concat(rest) <==> NulTail(Concat(rest[..|rest| - 1]))
    ensures DropNuls(l + (SEP + Join(rest, SEP)), |rest|) == l + Concat(rest)
            <==> NulTail(l + Concat(rest[..|rest| - 1]))
  {
    var k, t := |rest|, SEP + Join(rest, SEP);
    assert t[0] == NUL && t[1..] == Join(rest, SEP);
    DropNulsPrefix(l, t, k);
    CancelPrefix(l, DropNuls(Join(rest, SEP), k - 1), Concat(rest));
    NulTailAfterFree(l, Concat(rest[..k - 1]));
  }

  lemma {:induction false} DropInLine(l: string, i: nat, u: string, k: nat)
    requires i < |l| && l[i] == NUL && Free(l[..i], NUL) && k >= 1
    ensures DropNuls(l + (SEP + u), k) == l[..i] + DropNuls(l[i + 1..] + SEP + u, k - 1)
  {
    var s := l + (SEP + u);
    assert s[..i] == l[..i] && s[i] == NUL && s[i + 1..] == l[i + 1..] + SEP + u;
    DropFirstNul(s, i, k);
  }

  lemma {:induction false} Regroup(l: string, i: nat, c: string)
    requires i < |l| && l[i] == NUL
    ensures l + c == l[..i] + (Nuls(1) + (l[i + 1..] + c))
    ensures l + c == l[..i] + SEP + (l[i + 1..] + c)
  {
  }

  lemma {:induction false} LineWithNul(l: string, i: nat, rest: seq<string>)
    requires i < |l| && l[i] == NUL && Free(l[..i], NUL) && |rest| >= 1
    ensures DropNuls(l + (SEP + Join(rest, SEP)), |rest|) == l + Concat(rest)
            <==> NulTail(l + Concat(rest[..|rest| - 1]))
  {
    var k, b := |rest|, l[i + 1..];
    DropInLine(l, i, Join(rest, SEP), k);
    JoinCons(b, rest, SEP);
    SurplusNuls(b, rest, k - 1);
    Regroup(l, i, Concat(rest));
    Regroup(l, i, Concat(rest[..k - 1]));
    CancelPrefix(l[..i], DropNuls(b + SEP + Join(rest, SEP), k - 1), Shifted(b, rest, k - 1));
    NulTailAfterNul(l[..i], b + Concat(rest[..k - 1]));
  }

  /** A text whose first 48 bytes hold no non-NUL byte after a NUL; any NUL-free text is one. */
  predicate SignSafe(s: string) {
    NulTail(if |s| <= 48 then s else s[..48])
  }

  lemma {:induction false} LinesOfCut(s: string)
    ensures Concat(SignLines(s)) == Cut(s)
    ensures Concat(SignLines(s)[..3]) == if |s| <= 48 then s else s[..48]
    ensures SignData(SignLines(s)) == Join(SignLines(s), SEP)
  {
    var c, ls := Cut(s), SignLines(s);
    assert ls == [ls[0], ls[1], ls[2], ls[3]];
    assert ls[..3] == [ls[0], ls[1], ls[2]];
    Four(ls);
    assert ls[0] + ls[1] == Slice(c, 0, 32);
    assert Slice(c, 0, 32) + ls[2] == Slice(c, 0, 48);
    assert Slice(c, 0, 48) + ls[3] == c;
    assert Slice(c, 0, 48) == if |s| <= 48 then s else s[..48];
  }

  lemma {:induction false} Four(ls: seq<string>)
    requires |ls| == 4
    ensures Concat(ls) == ls[0] + ls[1] + ls[2] + ls[3]
    ensures Concat(ls[..3]) == ls[0] + ls[1] + ls[2]
    ensures SignData(ls) == Join(ls, SEP)
  {
    var a, b, c, d := ls[0], ls[1], ls[2], ls[3];
    assert ls == [a] + ([b] + ([c] + ([d] + [])));
    assert ls[..3] == [a] + ([b] + ([c] + []));
    ConcatCons(d, []);
    ConcatCons(c, [d] + []);
    ConcatCons(b, [c] + ([d] + []));
    ConcatCons(a, [b] + ([c] + ([d] + [])));
    ConcatCons(c, []);
    ConcatCons(b, [c] + []);
    ConcatCons(a, [b] + ([c] + []));
    JoinCons(c, [d], SEP);
    JoinCons(b, [c, d], SEP);
    JoinCons(a, [b, c, d], SEP);
    assert [c] + [d] == [c, d] && [b] + [c, d] == [b, c, d] && [a] + [b, c, d] == ls;
  }

  /** A text written to a sign reads back as itself, or if it is longer than 64 bytes as its first 61 and
      an ellipsis, if and only if it is SignSafe. */
  lemma {:induction false} TextThroughSign(s: string)
    ensures |s| <= 64 ==> (SignText(SignData(SignLines(s))) == s <==> SignSafe(s))
    ensures |s| > 64 ==> (SignText(SignData(SignLines(s))) == s[..61] + "..." <==> SignSafe(s))
    ensures Free(s, NUL) ==> SignSafe(s)
  {
    LinesOfCut(s);
    FourThroughSign(SignLines(s));
  }

  lemma {:induction false} FourThroughSign(ls: seq<string>)
    requires |ls| == LINES
    ensures SignText(SignData(ls)) == Concat(ls) <==> NulTail(Concat(ls[..3]))
  {
    Four(ls);
    LinesThroughSign(ls);
    ReadingDropsNuls(SignData(ls), 0, LINES);
    assert SignData(ls)[0..] == SignData(ls);
  }

  /** Each line but the last is full before the next begins. */
  predicate Filled(lines: seq<string>) {
    && (forall k | 0 <= k < |lines| :: |lines[k]| <= 16)
    && forall k | 0 < k < |lines| :: lines[k] != "" ==> |lines[k - 1]| == 16
  }

  /** The four lines of a sign hold the text from its beginning: all of it up to 64 bytes, beyond that its
      first 61 bytes and an ellipsis. */
  lemma {:induction false} LinesHoldText(s: string)
    ensures var lines := SignLines(s);
            && Filled(lines)
            && (|s| <= 64 ==> lines[0] + lines[1] + lines[2] + lines[3] == s)
            && (|s| > 64 ==> lines[0] + lines[1] + lines[2] + lines[3] == s[..61] + "...")
  {
    LinesOfCut(s);
    Four(SignLines(s));
    LinesAreFilled(s, Cut(s), SignLines(s));
  }

  lemma {:induction false} LinesAreFilled(s: string, c: string, lines: seq<string>)
    requires c == Cut(s) && lines == SignLines(s)
    ensures Filled(lines)
  {
    forall k | 0 <= k < 4 ensures lines[k] == Slice(c, 16 * k, 16 * (k + 1)) && |lines[k]| <= 16 {
    }
  }

  /** Storing a stored form again changes nothing. */
  lemma {:induction false} CutTwice(s: string)
    ensures Cut(Cut(s)) == Cut(s) && SignLines(Cut(s)) == SignLines(s)
    ensures |s| > MAX_LEN ==> |Cut(s)| == MAX_LEN
  {
  }

  /** A NUL inside the first lines is lost: this text comes back shorter in front and longer behind. */
  lemma {:induction false} NulTextIsMangled()
    ensures !SignSafe("\0a") && SignText(SignData(SignLines("\0a"))) != "\0a"
  {
    assert "\0a"[0] == NUL && "\0a"[1] != NUL;
    TextThroughSign("\0a");
  }

  // ----- the source's loops -----

  method EncodeText(s: string) returns (lines: seq<string>)
    ensures lines == SignLines(s) && Filled(lines)
    ensures |s| <= 64 ==> lines[0] + lines[1] + lines[2] + lines[3] == s
    ensures |s| > 64 ==> lines[0] + lines[1] + lines[2] + lines[3] == s[..61] + "..."
  {
    LinesHoldText(s);
    lines := ["", "", "", ""];
    if |s| <= MAX_LEN {
      var pos := 0;
      for i := 0 to LINES
        invariant |lines| == LINES
        invariant pos == if LINE_LEN * i <= |s| then LINE_LEN * i else |s|
        invariant forall k | 0 <= k < i :: lines[k] == Slice(s, LINE_LEN * k, LINE_LEN * (k + 1))
        invariant forall k | i <= k < LINES :: lines[k] == ""
      {
        var n := LINE_LEN;
        if pos + n > |s| {
          n := |s| - pos;
        }
        if n > 0 {
          lines := lines[i := s[pos..pos + n]];
        }
        pos := pos + n;
      }
      return;
    }
    var content := s[..MAX_LEN - 3];
    for i := 0 to LINES - 1
      invariant |lines| == LINES
      invariant forall k | 0 <= k < i :: lines[k] == content[LINE_LEN * k..LINE_LEN * (k + 1)]
    {
      lines := lines[i := content[LINE_LEN * i..LINE_LEN * (i + 1)]];
    }
    lines := lines[3 := content[48..] + "..."];
    forall k | 0 <= k < LINES ensures lines[k] == SignLines(s)[k] {
      assert Cut(s) == content + "...";
    }
  }

  method DecodeSignData(data: string) returns (lines: seq<string>)
    ensures |lines| == LINES
    ensures Concat(lines) == SignText(data)
  {
    var parts := SplitNul(data, 0, LINES);
    lines := ["", "", "", ""];
    for i := 0 to |parts|
      invariant |lines| == LINES
      invariant forall k | 0 <= k < LINES :: lines[k] == if k < i then parts[k] else ""
    {
      lines := lines[i := parts[i]];
    }
    PaddedConcat(parts, lines);
  }

  lemma {:induction false} PaddedConcat(parts: seq<string>, lines: seq<string>)
    requires |parts| <= |lines|
    requires forall k | 0 <= k < |lines| :: lines[k] == if k < |parts| then parts[k] else ""
    ensures Concat(lines) == Concat(parts)
    decreases |lines|
  {
    if |lines| > |parts| {
      PaddedConcat(parts, lines[..|lines| - 1]);
    } else {
      assert lines == parts;
    }
  }
}
