/** The parts of Go's strconv and strings packages that the log format relies on.
    A Go string is a byte string; here it is a Dafny string with one char per byte. */
module GoText {
  datatype Option<+T> = None | Some(value: T)

  const MAX_INT64 := 0x7FFF_FFFF_FFFF_FFFF

  predicate IsInt64(n: int) {
    -MAX_INT64 - 1 <= n <= MAX_INT64
  }

  /** Sealing. A fact written `forall k {:trigger Open(seal, k)} :: Open(seal, k) ==> fact` says no more
      and no less than the fact, but the verifier looks into it only where a proof says `Open(seal, true)`:
      elsewhere it is passed on folded. Facts that are carried together have seals of their own. */
  datatype Seal = OfRow | OfStage | OfReady | OfStrip | OfFlow | OfMark | OfInsert | OfAnswer | OfRun | OfCall

  predicate Open(seal: Seal, k: bool) {
    true
  }

  predicate Carries(p: nat -> bool, k: nat) {
    p(k) ==> p(k + 1)
  }

  /** Induction over the natural numbers, for proofs whose step should not see the others. */
  lemma {:induction false} CountFrom(p: nat -> bool, j: nat, n: nat)
    requires j <= n && p(j) && forall k: nat | j <= k < n :: Carries(p, k)
    ensures p(n)
  {
    if n > j {
      CountFrom(p, j, n - 1);
      assert Carries(p, n - 1);
    }
  }

  lemma {:induction false} CountUp(p: nat -> bool, n: nat)
    requires p(0) && forall k: nat | k < n :: Carries(p, k)
    ensures p(n)
  {
    CountFrom(p, 0, n);
  }

  /** Element k of s decides whether p goes on from k. */
  predicate Decides<T>(p: nat -> bool, q: T -> bool, s: seq<T>, k: nat)
    requires k < |s|
  {
    p(k) ==> (p(k + 1) <==> q(s[k]))
  }

  lemma {:induction false} DecidesAll<T>(p: nat -> bool, q: T -> bool, s: seq<T>, n: nat)
    requires n <= |s| && p(0) && forall k: nat | k < n :: Decides(p, q, s, k)
    ensures (forall i: nat | i <= n :: p(i)) <==> forall i: nat | i < n :: q(s[i])
  {
    if n > 0 {
      DecidesAll(p, q, s, n - 1);
      assert Decides(p, q, s, n - 1);
    }
  }

  /** f(0) to f(n-1), one after the other. */
  function Flat<T>(f: nat -> seq<T>, n: nat): (s: seq<T>) {
    if n == 0 then [] else Flat(f, n - 1) + f(n - 1)
  }

  predicate All<T>(p: T -> bool, s: seq<T>) {
    forall i | 0 <= i < |s| :: p(s[i])
  }

  lemma {:induction false} AllBoth<T>(p: T -> bool, a: seq<T>, b: seq<T>)
    ensures All(p, a + b) <==> All(p, a) && All(p, b)
  {
    assert forall i | 0 <= i < |a| :: (a + b)[i] == a[i];
    assert forall i | 0 <= i < |b| :: (a + b)[|a| + i] == b[i];
  }

  lemma {:induction false} AllFlat<T>(p: T -> bool, f: nat -> seq<T>, n: nat)
    ensures All(p, Flat(f, n)) <==> forall c: nat | c < n :: All(p, f(c))
  {
    if n > 0 {
      AllFlat(p, f, n - 1);
      AllBoth(p, Flat(f, n - 1), f(n - 1));
    }
  }

  lemma {:induction false} FlatNext<T>(f: nat -> seq<T>, n: nat)
    ensures Flat(f, n + 1) == Flat(f, n) + f(n)
  {
  }

  /** Each element comes from one of the pieces. */
  lemma {:induction false} FlatMember<T>(f: nat -> seq<T>, n: nat, i: nat) returns (c: nat, j: nat)
    requires i < |Flat(f, n)|
    ensures c < n && j < |f(c)| && Flat(f, n)[i] == f(c)[j]
  {
    if i < |Flat(f, n - 1)| {
      c, j := FlatMember(f, n - 1, i);
    } else {
      c, j := n - 1, i - |Flat(f, n - 1)|;
    }
  }

  /** bs applied one after the other, and the values on the way. */
  function Fold<A, B>(f: (A, B) -> A, a: A, bs: seq<B>): A
    decreases |bs|
  {
    var n := |bs|;
    if n == 0 then a else f(Fold(f, a, bs[..n - 1]), bs[n - 1])
  }

  function Folds<A, B>(f: (A, B) -> A, a: A, bs: seq<B>): (s: seq<A>)
    ensures |s| == |bs|
    decreases |bs|
  {
    var n := |bs|;
    if n == 0 then [] else Folds(f, a, bs[..n - 1]) + [Fold(f, a, bs)]
  }

  lemma {:induction false} FoldOne<A, B>(f: (A, B) -> A, a: A, bs: seq<B>, b: B)
    ensures Fold(f, a, bs + [b]) == f(Fold(f, a, bs), b)
    ensures Folds(f, a, bs + [b]) == Folds(f, a, bs) + [Fold(f, a, bs + [b])]
  {
    assert (bs + [b])[..|bs|] == bs;
  }

  lemma {:induction false} FoldsAt<A, B>(f: (A, B) -> A, a: A, bs: seq<B>, i: nat)
    requires i < |bs|
    ensures Folds(f, a, bs)[i] == Fold(f, a, bs[..i + 1])
    decreases |bs|
  {
    var n := |bs|;
    if i < n - 1 {
      FoldsAt(f, a, bs[..n - 1], i);
      assert bs[..n - 1][..i + 1] == bs[..i + 1];
    } else {
      assert bs[..i + 1] == bs;
    }
  }

  lemma {:induction false} FoldAppend<A, B>(f: (A, B) -> A, a: A, bs: seq<B>, cs: seq<B>)
    ensures Fold(f, a, bs + cs) == Fold(f, Fold(f, a, bs), cs)
    ensures Folds(f, a, bs + cs) == Folds(f, a, bs) + Folds(f, Fold(f, a, bs), cs)
    decreases |cs|
  {
    var n := |cs|;
    if n == 0 {
      assert bs + cs == bs;
    } else {
      FoldAppend(f, a, bs, cs[..n - 1]);
      assert bs + cs == (bs + cs[..n - 1]) + [cs[n - 1]];
      FoldOne(f, a, bs + cs[..n - 1], cs[n - 1]);
    }
  }

  lemma {:induction false} ConcatAssociative<T>(a: seq<T>, b: seq<T>, c: seq<T>)
    ensures a + b + c == a + (b + c)
  {
  }

  // ----- decimal numbers: fmt's %d and strconv.ParseInt(s, 10, 64) -----

  predicate IsDigit(c: char) {
    '0' <= c <= '9'
  }

  predicate AllDigits(s: string) {
    forall i | 0 <= i < |s| :: IsDigit(s[i])
  }

  function DigitChar(d: nat): (c: char)
    requires d < 10
  {
    '0' + d as char
  }

  function DigitValue(c: char): (d: nat)
    requires IsDigit(c)
    ensures d < 10
  {
    c as int - '0' as int
  }

  function Digits(n: nat): (s: string)
    ensures |s| > 0 && AllDigits(s)
  {
    if n < 10 then [DigitChar(n)] else Digits(n / 10) + [DigitChar(n % 10)]
  }

  function Value(s: string): nat
    requires AllDigits(s)
  {
    if s == "" then 0 else Value(s[..|s| - 1]) * 10 + DigitValue(s[|s| - 1])
  }

  function Itoa(n: int): (s: string) {
    if n < 0 then "-" + Digits(-n) else Digits(n)
  }

  function ParseInt(s: string): (r: Option<int>)
    ensures r.Some? ==> IsInt64(r.value)
  {
    var negative := s != "" && s[0] == '-';
    var digits := if s != "" && (s[0] == '-' || s[0] == '+') then s[1..] else s;
    if digits == "" || !AllDigits(digits) then None
    else
      var n: int := Value(digits);
      var v := if negative then -n else n;
      if IsInt64(v) then Some(v) else None
  }

  lemma {:induction false} ValueOfDigits(n: nat)
    ensures Value(Digits(n)) == n
  {
    var s := Digits(n);
    if n < 10 {
      assert s[..0] == "";
    } else {
      ValueOfDigits(n / 10);
      assert s[..|s| - 1] == Digits(n / 10);
    }
  }

  lemma {:induction false} DigitsNotSigned(n: nat)
    ensures Digits(n)[0] != '-' && Digits(n)[0] != '+'
  {
    assert IsDigit(Digits(n)[0]);
  }

  /** Every int64 survives being written with %d and read back, and other numbers are refused. */
  lemma {:induction false} ParseItoa(n: int)
    ensures ParseInt(Itoa(n)) == if IsInt64(n) then Some(n) else None
  {
    var m: nat := if n < 0 then -n else n;
    ValueOfDigits(m);
    DigitsNotSigned(m);
    if n < 0 {
      assert Itoa(n)[1..] == Digits(m);
    }
  }

  predicate Free(s: string, c: char) {
    forall i | 0 <= i < |s| :: s[i] != c
  }

  lemma {:induction false} ItoaFree(n: int, c: char)
    requires !IsDigit(c) && c != '-'
    ensures Free(Itoa(n), c)
  {
    var d := Digits(if n < 0 then -n else n);
    forall i | 0 <= i < |Itoa(n)| ensures Itoa(n)[i] != c {
      assert n < 0 && i > 0 ==> IsDigit(d[i - 1]);
      assert n >= 0 ==> IsDigit(d[i]);
    }
  }

  // ----- prefixes -----

  predicate HasPrefix(s: string, p: string) {
    |p| <= |s| && s[..|p|] == p
  }

  // ----- strings.Split and strings.Join -----

  predicate OccursAt(s: string, sep: string, i: int) {
    0 <= i && i + |sep| <= |s| && s[i..i + |sep|] == sep
  }

  /** Leftmost occurrence of sep in s at or after `from`, or -1. */
  function IndexFrom(s: string, sep: string, from: nat): (i: int)
    requires sep != ""
    ensures i == -1 || from <= i <= |s| - |sep|
    decreases |s| - from
  {
    if from + |sep| > |s| then -1
    else if OccursAt(s, sep, from) then from
    else IndexFrom(s, sep, from + 1)
  }

  function SplitFrom(s: string, sep: string, from: nat): (parts: seq<string>)
    requires sep != "" && from <= |s|
    ensures |parts| >= 1
    decreases |s| - from
  {
    var i := IndexFrom(s, sep, from);
    if i == -1 then [s[from..]] else [s[from..i]] + SplitFrom(s, sep, i + |sep|)
  }

  function Split(s: string, sep: string): (parts: seq<string>)
    requires sep != ""
    ensures |parts| >= 1
  {
    SplitFrom(s, sep, 0)
  }

  function Join(parts: seq<string>, sep: string): string {
    var n := |parts|;
    if n == 0 then ""
    else if n == 1 then parts[0]
    else Join(parts[..n - 1], sep) + sep + parts[n - 1]
  }

  function Concat(parts: seq<string>): string {
    var n := |parts|;
    if n == 0 then "" else Concat(parts[..n - 1]) + parts[n - 1]
  }

  lemma {:induction false} ConcatCons(a: string, rest: seq<string>)
    ensures Concat([a] + rest) == a + Concat(rest)
    decreases |rest|
  {
    var all := [a] + rest;
    if rest == [] {
      assert all[..0] == [];
      assert Concat(all) == "" + a;
    } else {
      var n := |rest|;
      ConcatCons(a, rest[..n - 1]);
      assert all[..n] == [a] + rest[..n - 1];
    }
  }

  lemma {:induction false} IndexFromIsFirst(s: string, sep: string, from: nat)
    requires sep != ""
    ensures var i := IndexFrom(s, sep, from);
            if i == -1 then forall j | from <= j :: !OccursAt(s, sep, j)
            else OccursAt(s, sep, i) && forall j | from <= j < i :: !OccursAt(s, sep, j)
    decreases |s| - from
  {
    if from + |sep| <= |s| && !OccursAt(s, sep, from) {
      IndexFromIsFirst(s, sep, from + 1);
    }
  }

  lemma {:induction false} IndexUnique(s: string, sep: string, from: nat, i: nat)
    requires sep != "" && from <= i && OccursAt(s, sep, i)
    requires forall j | from <= j < i :: !OccursAt(s, sep, j)
    ensures IndexFrom(s, sep, from) == i
  {
    IndexFromIsFirst(s, sep, from);
  }

  lemma {:induction false} OccursShift(p: string, s: string, sep: string, j: nat)
    ensures OccursAt(p + s, sep, |p| + j) <==> OccursAt(s, sep, j)
  {
    if j + |sep| <= |s| {
      assert (p + s)[|p| + j..|p| + j + |sep|] == s[j..j + |sep|];
    }
  }

  lemma {:induction false} IndexShift(p: string, s: string, sep: string, from: nat)
    requires sep != ""
    ensures var i := IndexFrom(s, sep, from);
            IndexFrom(p + s, sep, |p| + from) == if i == -1 then -1 else |p| + i
    decreases |s| - from
  {
    if from + |sep| <= |s| {
      OccursShift(p, s, sep, from);
      if !OccursAt(s, sep, from) {
        IndexShift(p, s, sep, from + 1);
      }
    }
  }

  /** Splitting from an offset is splitting what lies behind it. */
  lemma {:induction false} SplitShift(p: string, s: string, t: string, sep: string, from: nat, from': nat)
    requires sep != "" && from <= |s| && t == p + s && from' == |p| + from
    ensures SplitFrom(t, sep, from') == SplitFrom(s, sep, from)
    decreases |s| - from
  {
    IndexShift(p, s, sep, from);
    var i := IndexFrom(s, sep, from);
    if i == -1 {
      SliceShift(p, s, from, |s|);
    } else {
      SplitShift(p, s, t, sep, i + |sep|, |p| + (i + |sep|));
      SplitStepShift(p, s, t, sep, from, i);
    }
  }

  lemma {:induction false} SplitStepShift(p: string, s: string, t: string, sep: string, from: nat, i: nat)
    requires sep != "" && from <= i == IndexFrom(s, sep, from)
    requires t == p + s && IndexFrom(t, sep, |p| + from) == |p| + i
    requires SplitFrom(t, sep, |p| + (i + |sep|)) == SplitFrom(s, sep, i + |sep|)
    ensures SplitFrom(t, sep, |p| + from) == SplitFrom(s, sep, from)
  {
    SliceShift(p, s, from, i);
    assert |p| + (i + |sep|) == |p| + i + |sep|;
  }

  lemma {:induction false} SliceShift(p: string, s: string, i: nat, j: nat)
    requires i <= j <= |s|
    ensures (p + s)[|p| + i..|p| + j] == s[i..j]
    ensures (p + s)[|p| + i..] == s[i..]
  {
  }

  lemma {:induction false} JoinCons(a: string, rest: seq<string>, sep: string)
    requires rest != []
    ensures Join([a] + rest, sep) == a + sep + Join(rest, sep)
  {
    JoinTerminated([a], rest, sep);
    assert [a][..0] == [];
    assert Terminated([a], sep) == "" + a + sep;
  }

  /** Nothing in a can anticipate a separator put after it. */
  predicate Clean(a: string, sep: string) {
    forall i | 0 <= i < |a| :: !OccursAt(a + sep, sep, i)
  }

  /** Cutting at a separator that nothing to its left can anticipate. */
  lemma {:induction false} SplitHead(a: string, sep: string, b: string)
    requires sep != "" && Clean(a, sep)
    ensures Split(a + sep + b, sep) == [a] + Split(b, sep)
  {
    var s := a + sep + b;
    assert s[|a|..|a| + |sep|] == sep;
    forall i | 0 <= i < |a| ensures !OccursAt(s, sep, i) {
      assert s[i..i + |sep|] == (a + sep)[i..i + |sep|];
      assert !OccursAt(a + sep, sep, i);
    }
    IndexUnique(s, sep, 0, |a|);
    assert s[0..|a|] == a;
    SplitShift(a + sep, b, s, sep, 0, |a| + |sep|);
  }

  lemma {:induction false} SplitNone(a: string, sep: string)
    requires sep != "" && Clean(a, sep)
    ensures Split(a, sep) == [a]
  {
    forall i | 0 <= i && i + |sep| <= |a| ensures !OccursAt(a, sep, i) {
      assert !OccursAt(a + sep, sep, i);
      assert (a + sep)[i..i + |sep|] == a[i..i + |sep|];
    }
    IndexFromIsFirst(a, sep, 0);
    assert a[0..] == a;
  }

  /** Every part followed by the separator. */
  function Terminated(parts: seq<string>, sep: string): string {
    var n := |parts|;
    if n == 0 then "" else Terminated(parts[..n - 1], sep) + parts[n - 1] + sep
  }

  lemma {:induction false} SplitTerminated(h: seq<string>, t: string, sep: string)
    requires sep != "" && forall k | 0 <= k < |h| :: Clean(h[k], sep)
    ensures Split(Terminated(h, sep) + t, sep) == h + Split(t, sep)
    decreases |h|
  {
    if h == [] {
      assert Terminated(h, sep) + t == t;
    } else {
      var init, last := h[..|h| - 1], h[|h| - 1];
      SplitTerminated(init, last + sep + t, sep);
      SplitHead(last, sep, t);
      assert Terminated(h, sep) + t == Terminated(init, sep) + (last + sep + t);
      assert init + ([last] + Split(t, sep)) == h + Split(t, sep);
    }
  }

  lemma {:induction false} JoinIsTerminated(parts: seq<string>, sep: string)
    requires |parts| >= 1
    ensures Join(parts, sep) == Terminated(parts[..|parts| - 1], sep) + parts[|parts| - 1]
    decreases |parts|
  {
    var n := |parts|;
    if n > 1 {
      var init := parts[..n - 1];
      JoinIsTerminated(init, sep);
      assert init[..n - 2] == parts[..n - 2] && init[n - 2] == parts[n - 2];
      assert Terminated(init, sep) == Terminated(parts[..n - 2], sep) + parts[n - 2] + sep;
    }
  }

  lemma {:induction false} TerminatedConcat(h: seq<string>, c: seq<string>, sep: string)
    ensures Terminated(h + c, sep) == Terminated(h, sep) + Terminated(c, sep)
    decreases |c|
  {
    if c == [] {
      assert h + c == h;
    } else {
      var init, last := c[..|c| - 1], c[|c| - 1];
      TerminatedConcat(h, init, sep);
      assert (h + c)[..|h + c| - 1] == h + init;
      assert (h + c)[|h + c| - 1] == last;
    }
  }

  lemma {:induction false} JoinTerminated(h: seq<string>, c: seq<string>, sep: string)
    requires c != []
    ensures Join(h + c, sep) == Terminated(h, sep) + Join(c, sep)
  {
    var init := c[..|c| - 1];
    JoinIsTerminated(h + c, sep);
    JoinIsTerminated(c, sep);
    assert (h + c)[..|h + c| - 1] == h + init;
    TerminatedConcat(h, init, sep);
  }

  /** Joining parts and splitting again gives the parts back, when no part (together with the
      separator after it) holds an early occurrence. */
  lemma {:induction false} SplitJoin(parts: seq<string>, sep: string)
    requires sep != "" && |parts| >= 1
    requires forall k | 0 <= k < |parts| :: Clean(parts[k], sep)
    ensures Split(Join(parts, sep), sep) == parts
  {
    var init, last := parts[..|parts| - 1], parts[|parts| - 1];
    JoinIsTerminated(parts, sep);
    SplitTerminated(init, last, sep);
    SplitNone(last, sep);
    assert init + [last] == parts;
  }

  /** No part of a line split still holds a newline. */
  lemma {:induction false} LinesAreFree(s: string, from: nat)
    requires from <= |s|
    ensures forall k | 0 <= k < |SplitFrom(s, "\n", from)| :: Free(SplitFrom(s, "\n", from)[k], '\n')
    decreases |s| - from
  {
    var i := IndexFrom(s, "\n", from);
    IndexFromIsFirst(s, "\n", from);
    var upto := if i == -1 then |s| else i;
    forall j | from <= j < upto ensures s[j] != '\n' {
      assert !OccursAt(s, "\n", j);
      assert s[j..j + 1] == [s[j]];
    }
    if i != -1 {
      LinesAreFree(s, i + 1);
    }
  }
}
