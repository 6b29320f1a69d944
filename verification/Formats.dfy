/** The formats byte by byte: what stands in a banner, in a book, and on the wire. */
module Formats {
  import opened GoText
  import opened Codec
  import opened Signs
  import opened Layout
  import opened LogEntry
  import opened ByteSeq
  import opened Utf8
  import opened Protocol

  // ----- numbers -----

  /** n without its lowest j bytes. */
  function WithoutBytes(n: nat, j: nat): nat {
    if j == 0 then n else WithoutBytes(n / 256, j - 1)
  }

  /** The last byte is the lowest, and the first the highest. */
  lemma {:induction false} BigEndianByte(n: nat, k: nat, i: nat)
    requires i < k
    ensures BigEndian(n, k)[i] == WithoutBytes(n, k - 1 - i) % 256
  {
    if i < k - 1 {
      BigEndianByte(n / 256, k - 1, i);
    }
  }

  /** A word of four bytes. */
  predicate IsWord(bs: seq<byte>, v: int) {
    var n := v % 0x1_0000_0000;
    |bs| == 4 && bs[0] == n / 0x100_0000 && bs[1] == n / 0x1_0000 % 256 && bs[2] == n / 0x100 % 256 && bs[3] == n % 256
  }

  lemma {:induction false} FourBytes(n: nat)
    requires n < 0x1_0000_0000
    ensures IsWord(BigEndian(n, 4), n)
  {
    BigEndianByte(n, 4, 0);
    BigEndianByte(n, 4, 1);
    BigEndianByte(n, 4, 2);
    BigEndianByte(n, 4, 3);
    FourShifts(n);
  }

  lemma {:induction false} FourShifts(n: nat)
    requires n < 0x1_0000_0000
    ensures WithoutBytes(n, 3) % 256 == n / 0x100_0000 && WithoutBytes(n, 2) % 256 == n / 0x1_0000 % 256
    ensures WithoutBytes(n, 1) % 256 == n / 0x100 % 256 && WithoutBytes(n, 0) % 256 == n % 256
  {
    ThreeShifts(n, n / 256, n / 256 / 256, n / 256 / 256 / 256);
  }

  lemma {:induction false} ThreeShifts(n: nat, a: nat, b: nat, c: nat)
    requires a == n / 256 && b == a / 256 && c == b / 256
    ensures WithoutBytes(n, 0) == n && WithoutBytes(n, 1) == a && WithoutBytes(n, 2) == b && WithoutBytes(n, 3) == c
  {
    assert WithoutBytes(b, 1) == WithoutBytes(c, 0) == c;
    assert WithoutBytes(a, 1) == WithoutBytes(b, 0) == b;
    assert WithoutBytes(a, 2) == WithoutBytes(b, 1);
  }

  /** Decimal text, most significant digit first. */
  lemma {:induction false} DecimalTexts()
    ensures Itoa(0) == "0" && Itoa(7) == "7" && Itoa(-42) == "-42" && Itoa(1907) == "1907"
  {
    assert Digits(1) == "1" && Digits(19) == "19" && Digits(190) == "190";
    assert Digits(4) == "4";
  }

  // ----- banners -----

  const HEX := "0123456789abcdef"

  lemma {:induction false} HexDigits(bs: seq<byte>, i: nat)
    requires i < |bs|
    ensures HexEncode(bs)[2 * i] == HEX[bs[i] / 16] && HexEncode(bs)[2 * i + 1] == HEX[bs[i] % 16]
    decreases |bs|
  {
    var n := |bs| - 1;
    if i < n {
      HexDigits(bs[..n], i);
    }
  }

  /** Bit j of a number. */
  function Bit(n: nat, j: nat): nat {
    if j == 0 then n % 2 else Bit(n / 2, j - 1)
  }

  lemma {:induction false} XorBit(a: nat, b: nat, k: nat, j: nat)
    requires j < k
    ensures Bit(Xor(a, b, k), j) == (Bit(a, j) + Bit(b, j)) % 2
  {
    var r, bit := Xor(a / 2, b / 2, k - 1), (a % 2 + b % 2) % 2;
    XorStep(a, b, k, r, bit);
    Halves(r, bit);
    if j > 0 {
      XorBit(a / 2, b / 2, k - 1, j - 1);
    }
  }

  lemma {:induction false} BitIsBit(n: nat, j: nat)
    ensures Bit(n, j) < 2
  {
    if j > 0 {
      BitIsBit(n / 2, j - 1);
    }
  }

  /** The mask flips every other bit of a byte, beginning with the lowest. */
  lemma {:induction false} MaskFlips(b: byte, j: nat)
    requires j < 8
    ensures Bit(Mask(b), j) == if j % 2 == 0 then 1 - Bit(b, j) else Bit(b, j)
  {
    XorBit(b, 0x55, 8, j);
    BitIsBit(b, j);
    Fives(0x55, j);
  }

  lemma {:induction false} Fives(n: nat, j: nat)
    requires j < 8 && n == 0x55
    ensures Bit(n, j) == 1 - j % 2
  {
    assert Bit(n / 2, 0) == 0 && Bit(n / 4, 0) == 1 && Bit(n / 8, 0) == 0 && Bit(n / 16, 0) == 1;
    assert Bit(n / 32, 0) == 0 && Bit(n / 64, 0) == 1 && Bit(n / 128, 0) == 0;
    if j >= 1 {
      TwoBits(n, j);
    }
  }

  lemma {:induction false} TwoBits(n: nat, j: nat)
    requires 1 <= j < 8 && n == 0x55
    ensures Bit(n, j) == 1 - j % 2
  {
    assert Bit(0x2A, j - 1) == 1 - j % 2 by {
      if j >= 2 {
        assert Bit(0x15, j - 2) == 1 - j % 2 by {
          if j >= 3 {
            LastBits(0x0A, j - 3);
          }
        }
      }
    }
  }

  lemma {:induction false} LastBits(n: nat, i: nat)
    requires n == 0x0A && i < 5
    ensures Bit(n, i) == i % 2 * (if i < 4 then 1 else 0)
  {
    assert Bit(5, 0) == 1 && Bit(2, 0) == 0 && Bit(1, 0) == 1 && Bit(0, 0) == 0;
    assert Bit(5, 1) == 0 && Bit(5, 2) == 1 && Bit(5, 3) == 0;
  }

  lemma {:induction false} BannerDigits(bs: seq<byte>, i: nat)
    requires i < |bs|
    ensures Banner(bs)[2 * i] == HEX[Mask(bs[i]) / 16] && Banner(bs)[2 * i + 1] == HEX[Mask(bs[i]) % 16]
  {
    HexDigits(Masked(bs), i);
  }

  /** The first six bytes masked and in hex make a banner. */
  ghost predicate IsBanner(text: string, bs: seq<byte>) {
    && |bs| == 6 && |text| == 12
    && forall i | 0 <= i < 6 :: text[2 * i] == HEX[Mask(bs[i]) / 16] && text[2 * i + 1] == HEX[Mask(bs[i]) % 16]
  }

  lemma {:induction false} BannerIsBanner(bs: seq<byte>)
    requires |bs| == 6
    ensures IsBanner(Banner(bs), bs)
  {
    forall i | 0 <= i < 6
      ensures Banner(bs)[2 * i] == HEX[Mask(bs[i]) / 16] && Banner(bs)[2 * i + 1] == HEX[Mask(bs[i]) % 16]
    {
      BannerDigits(bs, i);
    }
  }

  /** The banner of an INT: its four bytes, highest first, and two zeros. */
  lemma {:induction false} Int32BannerBytes(v: int) returns (bs: seq<byte>)
    ensures IsWord(bs, v) && IsBanner(Int32Banner(v), bs + [0, 0])
  {
    bs := BigEndian(v % TWO_32, 4);
    FourBytes(v % TWO_32);
    SameModulo(bs, v % TWO_32, v);
    BannerIsBanner(bs + [0, 0]);
  }

  lemma {:induction false} WithoutMore(n: nat, i: nat, j: nat)
    ensures WithoutBytes(n, i + j) == WithoutBytes(WithoutBytes(n, i), j)
  {
    if i > 0 {
      WithoutMore(n / 256, i - 1, j);
    }
  }

  /** Eight bytes are the word above and the word below. */
  lemma {:induction false} EightBytes(n: nat)
    requires n < 0x1_0000_0000_0000_0000
    ensures IsWord(BigEndian(n, 8)[..4], n / 0x1_0000_0000)
    ensures IsWord(BigEndian(n, 8)[4..], n)
  {
    BigEndianAppend(n, 4, 4);
    ThreeShifts(n, n / 256, n / 256 / 256, n / 256 / 256 / 256);
    WithoutMore(n, 3, 1);
    assert WithoutBytes(n / 256 / 256 / 256, 1) == n / 0x1_0000_0000;
    FourBytes(n / 0x1_0000_0000);
    LowBytes(n);
  }

  lemma {:induction false} BigEndianAppend(n: nat, k: nat, j: nat)
    ensures BigEndian(n, k + j) == BigEndian(WithoutBytes(n, j), k) + BigEndian(n, j)
  {
    if j > 0 {
      BigEndianAppend(n / 256, k, j - 1);
    }
  }

  lemma {:induction false} ByteStep(n: nat, m: nat, d: nat)
    requires n == m + 256 * d
    ensures n % 256 == m % 256 && n / 256 == m / 256 + d
  {
  }

  lemma {:induction false} LowSteps(n: nat, m: nat, q: nat)
    requires n == m + 0x1_0000_0000 * q
    ensures n % 256 == m % 256 && n / 256 % 256 == m / 256 % 256
    ensures n / 256 / 256 % 256 == m / 256 / 256 % 256 && n / 256 / 256 / 256 % 256 == m / 256 / 256 / 256 % 256
  {
    ByteStep(n, m, q * 0x100_0000);
    ByteStep(n / 256, m / 256, q * 0x1_0000);
    ByteStep(n / 256 / 256, m / 256 / 256, q * 0x100);
    ByteStep(n / 256 / 256 / 256, m / 256 / 256 / 256, q);
  }

  lemma {:induction false} LowBytes(n: nat)
    ensures IsWord(BigEndian(n, 4), n)
  {
    LowSteps(n, n % 0x1_0000_0000, n / 0x1_0000_0000);
    SameBytes(n, n % 0x1_0000_0000);
    FourBytes(n % 0x1_0000_0000);
    SameModulo(BigEndian(n % 0x1_0000_0000, 4), n % 0x1_0000_0000, n);
  }

  lemma {:induction false} SameBytes(n: nat, m: nat)
    requires n % 256 == m % 256 && n / 256 % 256 == m / 256 % 256
    requires n / 256 / 256 % 256 == m / 256 / 256 % 256 && n / 256 / 256 / 256 % 256 == m / 256 / 256 / 256 % 256
    ensures BigEndian(n, 4) == BigEndian(m, 4)
  {
    FourOf(n);
    FourOf(m);
  }

  lemma {:induction false} FourOf(n: nat)
    ensures BigEndian(n, 4) == [n / 256 / 256 / 256 % 256, n / 256 / 256 % 256, n / 256 % 256, n % 256]
  {
    BigEndianByte(n, 4, 0);
    BigEndianByte(n, 4, 1);
    BigEndianByte(n, 4, 2);
    BigEndianByte(n, 4, 3);
    ThreeShifts(n, n / 256, n / 256 / 256, n / 256 / 256 / 256);
  }

  lemma {:induction false} SameWordOf(bs: seq<byte>, n: int, v: int)
    requires IsWord(bs, n) && n == v % 0x1_0000_0000_0000_0000
    ensures IsWord(bs, v)
  {
    var q := v / 0x1_0000_0000_0000_0000;
    assert v == n + 0x1_0000_0000 * (q * 0x1_0000_0000);
    WordStep(v, n, q * 0x1_0000_0000);
  }

  lemma {:induction false} WordStep(v: int, n: int, d: int)
    requires v == n + 0x1_0000_0000 * d
    ensures v % 0x1_0000_0000 == n % 0x1_0000_0000
  {
  }

  /** The banners of a BIGINT: its eight bytes, highest first, six in the first, two and four zeros in the
      second. */
  lemma {:induction false} Int64BannerBytes(v: int) returns (bs: seq<byte>)
    ensures |bs| == 8 && IsWord(bs[..4], v % 0x1_0000_0000_0000_0000 / 0x1_0000_0000) && IsWord(bs[4..], v)
    ensures IsBanner(Int64Banners(v).0, bs[..6]) && IsBanner(Int64Banners(v).1, bs[6..] + [0, 0, 0, 0])
  {
    bs := BigEndian(v % TWO_64, 8);
    EightBytes(v % TWO_64);
    SameWordOf(bs[4..], v % TWO_64, v);
    BannerIsBanner(bs[..6]);
    BannerIsBanner(bs[6..] + [0, 0, 0, 0]);
  }

  lemma {:induction false} BoolBannerBytes(v: bool)
    ensures IsBanner(BoolBanner(v), [if v then 1 else 0, 0, 0, 0, 0, 0])
  {
    BannerIsBanner([if v then 1 else 0, 0, 0, 0, 0, 0]);
  }

  // ----- strips -----

  /** The first four blocks: the transaction, and the null sentinel twice. */
  lemma {:induction false} StripBegins(cols: seq<Column>, values: Values, txid: int)
    ensures var strip := Strip(cols, values, txid);
            && At(strip, 0) == Int64Banners(txid).0 && At(strip, 1) == Int64Banners(txid).1
            && At(strip, 2) == NULL_HEX && At(strip, 3) == NULL_HEX
  {
    SystemFirst(SystemBlocks(txid), Cells(cols, values), txid);
  }

  /** Four blocks further behind stand the blocks of the columns, where ColumnPlace says. */
  lemma {:induction false} StripGoesOn(cols: seq<Column>, values: Values, txid: int, i: nat, part: seq<string>, j: nat)
    requires Holds(Cells(cols, values), i, part) && j < |part|
    ensures At(Strip(cols, values, txid), 4 + i + j) == part[j]
  {
    BehindSystem(SystemBlocks(txid), Cells(cols, values), i, part, j);
  }

  lemma {:induction false} SystemFirst(system: seq<string>, cells: seq<string>, txid: int)
    requires system == SystemBlocks(txid)
    ensures var strip := system + cells;
            && At(strip, 0) == Int64Banners(txid).0 && At(strip, 1) == Int64Banners(txid).1
            && At(strip, 2) == NULL_HEX && At(strip, 3) == NULL_HEX
  {
  }

  lemma {:induction false} BehindSystem(system: seq<string>, cells: seq<string>, i: nat, part: seq<string>, j: nat)
    requires |system| == 4 && Holds(cells, i, part)
    ensures j < |part| ==> At(system + cells, 4 + i + j) == part[j]
  {
    if j < |part| {
      assert At(cells, i + j) == part[j];
    }
  }

  /** And what they are, by the type of the column. */
  lemma {:induction false} BlocksByType(typ: ColType, v: Value)
    ensures typ == INT ==> BannersOf(typ, v) == [Int32Banner(ToInt32(v))] && SignsOf(typ, v) == []
    ensures typ == BIGINT ==>
              BannersOf(typ, v) == [Int64Banners(ToInt64(v)).0, Int64Banners(ToInt64(v)).1] && SignsOf(typ, v) == []
    ensures typ == BOOLEAN ==> BannersOf(typ, v) == [BoolBanner(ToBool(v))] && SignsOf(typ, v) == []
    ensures typ == TEXT ==> BannersOf(typ, v) == [] && SignsOf(typ, v) == [SignData(SignLines(ToText(v)))]
    ensures typ.OTHER? ==> BannersOf(typ, v) == [] && SignsOf(typ, v) == []
  {
  }

  // ----- books -----

  /** The pages of a log entry, and its text when the new value fits one page. */
  lemma {:induction false} BookText(e: Entry)
    requires 0 < |e.newValue| <= 200
    ensures var h := Header(e);
            && h[0] == "LSN: " + Itoa(e.lsn) + "\n" + ("TXID: " + Itoa(e.txid)) + "\n" + ("STATUS: " + e.status)
            && h[1] == "OP: " + e.op + "\n" + ("TABLE: " + Itoa(e.tableID))
            && h[2] == "X: " + Itoa(e.x) + "\n" + ("Y: " + Itoa(e.y)) + "\n" + ("Z: " + Itoa(e.z))
            && Serialize(e) == h[0] + "\n---\n" + h[1] + "\n---\n" + h[2] + "\n---\n" + e.newValue
  {
    JoinThree("LSN: " + Itoa(e.lsn), "TXID: " + Itoa(e.txid), "STATUS: " + e.status, "\n");
    JoinTwo("OP: " + e.op, "TABLE: " + Itoa(e.tableID), "\n");
    JoinThree("X: " + Itoa(e.x), "Y: " + Itoa(e.y), "Z: " + Itoa(e.z), "\n");
    OnePage(e.newValue);
    PagesJoin(Header(e), e.newValue);
  }

  lemma {:induction false} OnePage(s: string)
    requires 0 < |s| <= 200
    ensures Chunks(s) == [s]
  {
    assert s[0..|s|] == s;
  }

  lemma {:induction false} PagesJoin(h: seq<string>, s: string)
    requires |h| == 3
    ensures Join(h + [s], PAGE_SEP) == h[0] + PAGE_SEP + h[1] + PAGE_SEP + h[2] + PAGE_SEP + s
  {
    assert h + [s] == [h[0], h[1], h[2], s];
    JoinFour(h[0], h[1], h[2], s, PAGE_SEP);
  }

  lemma {:induction false} JoinTwo(a: string, b: string, sep: string)
    ensures Join([a, b], sep) == a + sep + b
  {
    assert [a, b][..1] == [a];
  }

  lemma {:induction false} JoinThree(a: string, b: string, c: string, sep: string)
    ensures Join([a, b, c], sep) == a + sep + b + sep + c
  {
    assert [a, b, c][..2] == [a, b];
    JoinTwo(a, b, sep);
  }

  lemma {:induction false} JoinFour(a: string, b: string, c: string, d: string, sep: string)
    ensures Join([a, b, c, d], sep) == a + sep + b + sep + c + sep + d
  {
    assert [a, b, c, d][..3] == [a, b, c];
    JoinThree(a, b, c, sep);
  }

  // ----- which books can be read -----

  /** Behind this label, if the line has it, stands a number. */
  predicate NumberBehind(line: string, name: string) {
    HasPrefix(line, name) ==> |name| <= |line| && ParseInt(line[|name|..]) != None
  }

  predicate LineReads(page: nat, line: string) {
    if page == 0 then NumberBehind(line, "LSN: ") && NumberBehind(line, "TXID: ")
    else if page == 1 then NumberBehind(line, "TABLE: ")
    else NumberBehind(line, "X: ") && NumberBehind(line, "Y: ") && NumberBehind(line, "Z: ")
  }

  lemma {:induction false} LabelsDiffer(line: string)
    ensures HasPrefix(line, "LSN: ") ==> !HasPrefix(line, "TXID: ") && !HasPrefix(line, "STATUS: ")
    ensures HasPrefix(line, "TXID: ") ==> !HasPrefix(line, "STATUS: ")
    ensures HasPrefix(line, "OP: ") ==> !HasPrefix(line, "TABLE: ")
    ensures HasPrefix(line, "X: ") ==> !HasPrefix(line, "Y: ") && !HasPrefix(line, "Z: ")
    ensures HasPrefix(line, "Y: ") ==> !HasPrefix(line, "Z: ")
  {
    FirstIs(line, "LSN: ");
    FirstIs(line, "TXID: ");
    FirstIs(line, "STATUS: ");
    FirstIs(line, "OP: ");
    FirstIs(line, "TABLE: ");
    FirstIs(line, "X: ");
    FirstIs(line, "Y: ");
    FirstIs(line, "Z: ");
  }

  lemma {:induction false} FirstIs(line: string, name: string)
    requires name != ""
    ensures HasPrefix(line, name) ==> line != "" && line[0] == name[0]
  {
    if HasPrefix(line, name) {
      assert line[..|name|][0] == name[0];
    }
  }

  lemma {:induction false} LineIsRead(page: nat, line: string, e: Entry)
    requires page < 3
    ensures ApplyLine(page, line, e).Some? <==> LineReads(page, line)
  {
    LabelsDiffer(line);
  }

  lemma {:induction false} LinesAreRead(page: nat, lines: seq<string>, n: nat, e: Entry)
    requires page < 3 && n <= |lines|
    ensures ApplyLines(page, lines, n, e).Some? <==> forall k | 0 <= k < n :: LineReads(page, lines[k])
  {
    if n > 0 {
      LinesAreRead(page, lines, n - 1, e);
      var r := ApplyLines(page, lines, n - 1, e);
      if r.Some? {
        LineIsRead(page, lines[n - 1], r.value);
      }
    }
  }

  predicate PageReads(page: nat, text: string) {
    var lines := Split(text, "\n"); forall k | 0 <= k < |lines| :: LineReads(page, lines[k])
  }

  lemma {:induction false} PageIsRead(page: nat, text: string, e: Entry)
    requires page < 3
    ensures ApplyPage(page, text, e).Some? <==> PageReads(page, text)
  {
    LinesAreRead(page, Split(text, "\n"), |Split(text, "\n")|, e);
  }

  /** A book is a log entry exactly when it has four pages or more and every line of the first three that
      should hold a number holds one; what follows the third page is its new value. */
  lemma {:induction false} BookIsRead(book: string)
    ensures var pages := Split(book, "\n---\n");
            && (Deserialize(book).Some?
                <==> |pages| >= 4 && PageReads(0, pages[0]) && PageReads(1, pages[1]) && PageReads(2, pages[2]))
            && (Deserialize(book).Some? ==> Deserialize(book).value.newValue == Concat(pages[3..]))
  {
    var pages := Split(book, PAGE_SEP);
    if |pages| >= 4 {
      PageIsRead(0, pages[0], BLANK);
      var e0 := ApplyPage(0, pages[0], BLANK);
      if e0.Some? {
        PageIsRead(1, pages[1], e0.value);
        var e1 := ApplyPage(1, pages[1], e0.value);
        if e1.Some? {
          PageIsRead(2, pages[2], e1.value);
        }
      }
    }
  }

  /** Numbers in text: an optional sign and digits, within 64 bits. */
  lemma {:induction false} NumberTexts()
    ensures ParseInt("") == None && ParseInt("-") == None && ParseInt("12a") == None && ParseInt(" 1") == None
    ensures ParseInt("+5") == Some(5) && ParseInt("-5") == Some(-5) && ParseInt("05") == Some(5)
  {
    assert GoText.Value("5") == 5 by {
      assert GoText.Value("") == 0;
    }
    assert "+5"[1..] == "5" && "-5"[1..] == "5" && "-"[1..] == "";
    assert GoText.Value("05") == 5 by {
      assert GoText.Value("0") == 0 && "05"[..1] == "0";
    }
    assert "12a"[2] == 'a' && " 1"[0] == ' ';
  }

  // ----- the wire -----

  lemma {:induction false} WordIsWord(v: int)
    ensures IsWord(Word(v), v)
  {
    FourBytes(v % TWO_32);
    SameModulo(Word(v), v % TWO_32, v);
  }

  lemma {:induction false} SameModulo(bs: seq<byte>, n: int, v: int)
    requires n == v % TWO_32 && IsWord(bs, n)
    ensures IsWord(bs, v)
  {
    WordStep(v, n, v / TWO_32);
  }

  /** A write on the wire: X, Y and Z in four bytes each, the block type, the length of the data, the data. */
  lemma {:induction false} WriteBytes(w: WireWrite)
    ensures var bs := WritePart(w);
            && |bs| == 17 + |w.data| && bs[12] == w.kind && bs[17..] == w.data
            && IsWord(bs[..4], w.x) && IsWord(bs[4..8], w.y) && IsWord(bs[8..12], w.z) && IsWord(bs[13..17], |w.data|)
  {
    var bs := WritePart(w);
    assert bs[..4] == Word(w.x) && bs[4..8] == Word(w.y) && bs[8..12] == Word(w.z) && bs[13..17] == Word(|w.data|);
    WordIsWord(w.x);
    WordIsWord(w.y);
    WordIsWord(w.z);
    WordIsWord(|w.data|);
  }

  /** A packet: the length of what follows in four bytes, the opcode, the payload. */
  lemma {:induction false} FrameBytes(op: byte, payload: Bytes)
    ensures var bs := Frame(op, payload);
            |bs| == 5 + |payload| && bs[4] == op && bs[5..] == payload && IsWord(bs[..4], 1 + |payload|)
  {
    assert Frame(op, payload)[..4] == Word(1 + |payload|);
    WordIsWord(1 + |payload|);
  }

  /** Characters of one to four bytes in UTF-8. */
  lemma {:induction false} ScalarBytes()
    ensures EncodeScalar(0x41) == [0x41] && EncodeScalar(0xE9) == [0xC3, 0xA9]
    ensures EncodeScalar(0x20AC) == [0xE2, 0x82, 0xAC] && EncodeScalar(0x1F600) == [0xF0, 0x9F, 0x98, 0x80]
  {
  }
}
