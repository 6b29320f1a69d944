/** Which of the engine's blocks the plugin takes and gives back: banners and the log entries of deletes
    always, signs and the log entries of inserts exactly when no cut falls inside a character. */
module Sent {
  import opened GoText
  import opened World
  import opened Codec
  import opened Signs
  import opened LogEntry
  import opened Layout
  import opened Store
  import opened ByteSeq
  import opened Utf8
  import opened Plugin
  import opened Remote

  // ----- joining -----

  lemma {:induction false} AsciiBetween(a: Bytes, sep: Bytes, b: Bytes)
    requires sep != [] && Ascii(sep)
    ensures WellFormed(a + sep + b) <==> WellFormed(a) && WellFormed(b)
    decreases |sep|
  {
    var n := |sep| - 1;
    var init, last := sep[..n], sep[n];
    assert a + sep + b == (a + init) + [last] + b;
    AsciiSeparates(a + init, last, b);
    if n == 0 {
      assert a + init == a;
    } else {
      AsciiBetween(a, init, []);
      assert a + init + [] == a + init;
    }
  }

  lemma {:induction false} BytesOfConcat(a: string, b: string)
    ensures IsBytes(a + b) <==> IsBytes(a) && IsBytes(b)
    ensures IsBytes(a + b) ==> BytesOf(a + b) == BytesOf(a) + BytesOf(b)
  {
    if IsBytes(a + b) {
      assert forall i | 0 <= i < |a| :: a[i] == (a + b)[i];
      assert forall i | 0 <= i < |b| :: b[i] == (a + b)[|a| + i];
    }
  }

  lemma {:induction false} Between(a: string, sep: string, b: string)
    requires sep != "" && AsciiText(sep)
    ensures Utf8Text(a + sep + b) <==> Utf8Text(a) && Utf8Text(b)
  {
    BytesOfConcat(a, sep);
    BytesOfConcat(a + sep, b);
    if IsBytes(a) && IsBytes(b) {
      AsciiBetween(BytesOf(a), BytesOf(sep), BytesOf(b));
    }
  }

  ghost predicate AllUtf8(parts: seq<string>) {
    forall i | 0 <= i < |parts| :: Utf8Text(parts[i])
  }

  lemma {:induction false} AllButLast(parts: seq<string>)
    requires parts != []
    ensures var n := |parts| - 1; AllUtf8(parts) <==> AllUtf8(parts[..n]) && Utf8Text(parts[n])
  {
    var n := |parts| - 1;
    assert forall i | 0 <= i < n :: parts[i] == parts[..n][i];
  }

  /** Parts joined by ASCII separators are well-formed exactly when each part is. */
  lemma {:induction false} JoinedUtf8(parts: seq<string>, sep: string)
    requires sep != "" && AsciiText(sep)
    ensures Utf8Text(Join(parts, sep)) <==> AllUtf8(parts)
    decreases |parts|
  {
    var n := |parts|;
    if n == 0 {
      AsciiIsUtf8("");
    } else if n > 1 {
      JoinedUtf8(parts[..n - 1], sep);
      Between(Join(parts[..n - 1], sep), sep, parts[n - 1]);
      AllButLast(parts);
    }
  }

  // ----- signs -----

  /** A text survives the plugin as a sign exactly when each of its four lines is well-formed by itself. */
  lemma {:induction false} SignSurvives(s: string)
    ensures Utf8Text(SignData(SignLines(s))) <==> AllUtf8(SignLines(s))
  {
    Four(SignLines(s));
    JoinedUtf8(SignLines(s), SEP);
  }

  /** "a" and eight times "é": well-formed, and cut inside a character by the first line's 16 bytes. */
  function Accented(): (s: string)
    ensures |s| == 17
  {
    seq(17, i => if i == 0 then 'a' else if i % 2 == 1 then 0xC3 as char else 0xA9 as char)
  }

  lemma {:induction false} PairsAreWellFormed(bs: Bytes, i: nat)
    requires i <= |bs| && (|bs| - i) % 2 == 0
    requires forall k | i <= k < |bs| :: bs[k] == if (|bs| - k) % 2 == 0 then 0xC3 else 0xA9
    ensures WellFormedFrom(bs, i)
    decreases |bs| - i
  {
    if i < |bs| {
      assert bs[i + 1] == 0xA9;
      PairsAreWellFormed(bs, i + 2);
    }
  }

  lemma {:induction false} AccentedIsUtf8(s: string)
    requires s == Accented()
    ensures Utf8Text(s)
  {
    assert IsBytes(s);
    PairsAreWellFormed(BytesOf(s), 1);
    assert BytesOf(s)[0] < 0x80;
  }

  lemma {:induction false} FirstLineIsCut(s: string, line: string)
    requires s == Accented() && line == SignLines(s)[0]
    ensures IsBytes(line) && !Utf8Text(line)
  {
    assert line == s[..16];
    assert BytesOf(line)[15] == 0xC3;
    CutBehindLead(BytesOf(line), 0);
  }

  lemma {:induction false} AccentedIsLost(s: string)
    requires s == Accented()
    ensures Utf8Text(s) && !Utf8Text(SignData(SignLines(s)))
  {
    AccentedIsUtf8(s);
    SignSurvives(s);
    FirstLineIsCut(s, SignLines(s)[0]);
  }

  // ----- banners -----

  predicate HexText(s: string) {
    forall i | 0 <= i < |s| :: '0' <= s[i] <= '9' || 'a' <= s[i] <= 'f'
  }

  ghost predicate AllHex(parts: seq<string>) {
    forall i | 0 <= i < |parts| :: HexText(parts[i])
  }

  lemma {:induction false} EncodedIsHex(bs: seq<byte>)
    ensures HexText(HexEncode(bs))
    decreases |bs|
  {
    if bs != [] {
      EncodedIsHex(bs[..|bs| - 1]);
    }
  }

  lemma {:induction false} UnitsOfAscii(s: JString)
    requires forall i | 0 <= i < |s| :: s[i] < 0x80
    ensures |Units(s)| == |s| && forall i | 0 <= i < |s| :: Units(s)[i] == s[i]
  {
    if s != [] {
      UnitsOfAscii(s[..|s| - 1]);
    }
  }

  /** Hex digits are well-formed, and any twelve of them parse. */
  lemma {:induction false} HexIsTaken(server: Server, s: string)
    requires HexText(s)
    ensures Utf8Text(s) && Paints(server, NewString(server.java, BytesOf(s)))
  {
    AsciiIsUtf8(s);
    var bs := BytesOf(s);
    AsciiDecodes(server.java, bs, 0);
    UnitsOfAscii(NewString(server.java, bs));
  }

  /** Banners are hex digits, whatever they stand for. */
  lemma {:induction false} BannersAreHex(typ: ColType, v: Value)
    ensures AllHex(BannersOf(typ, v))
  {
    forall i | 0 <= i < |BannersOf(typ, v)| ensures HexText(BannersOf(typ, v)[i]) {
      var b := BannerOf(typ, v, i);
      EncodedIsHex(Masked(b));
    }
  }

  /** Each banner is the masked hex of some bytes. */
  lemma {:induction false} BannerOf(typ: ColType, v: Value, i: nat) returns (bs: seq<byte>)
    requires i < |BannersOf(typ, v)|
    ensures BannersOf(typ, v)[i] == Banner(bs)
  {
    match typ
    case INT => bs := BigEndian(ToInt32(v) % TWO_32, 4) + [0, 0];
    case BIGINT =>
      var word := BigEndian(ToInt64(v) % TWO_64, 8);
      bs := if i == 0 then word[..6] else word[6..] + [0, 0, 0, 0];
    case BOOLEAN => bs := [if ToBool(v) then 1 else 0, 0, 0, 0, 0, 0];
    case _ => bs := [];
  }

  lemma {:induction false} Int64IsHex(v: int)
    ensures HexText(Int64Banners(v).0) && HexText(Int64Banners(v).1)
  {
    var word := BigEndian(v % TWO_64, 8);
    EncodedIsHex(Masked(word[..6]));
    EncodedIsHex(Masked(word[6..] + [0, 0, 0, 0]));
  }

  lemma {:induction false} SystemBlocksAreHex(txid: int)
    ensures AllHex(SystemBlocks(txid))
  {
    Int64IsHex(txid);
    NullIsHex(NULL_HEX);
  }

  lemma {:induction false} NullIsHex(s: string)
    requires s == NULL_HEX
    ensures HexText(s)
  {
    assert forall i | 0 <= i < |s| :: s[i] == 'a';
  }

  /** Twelve letters that are no hex number: the plugin throws, and so the write is not acknowledged. */
  lemma {:induction false} NotEveryBannerIsTaken(server: Server, s: string)
    requires s == "zzzzzzzzzzzz"
    ensures Utf8Text(s) && !Takes(server, BANNER, NewString(server.java, BytesOf(s)))
  {
    assert forall i | 0 <= i < |s| :: s[i] == 'z';
    AsciiIsUtf8(s);
    var java := NewString(server.java, BytesOf(s));
    AsciiDecodes(server.java, BytesOf(s), 0);
    UnitsOfAscii(java);
    assert !Parses(server, Units(java)[2 * 0], Units(java)[2 * 0 + 1]);
  }

  // ----- strips -----

  /** The block types of a strip: banners, and behind them signs. */
  function StripKinds(cols: seq<Column>): (kinds: seq<byte>)
    ensures |kinds| == StripWidth(cols)
  {
    seq(StripWidth(cols), x => if x < 4 + BannerCount(cols, |cols|) then BANNER else SIGN)
  }

  lemma {:induction false} FlattenHex(parts: seq<seq<string>>, n: nat)
    requires n <= |parts| && forall k | 0 <= k < |parts| :: AllHex(parts[k])
    ensures AllHex(Flatten(parts, n))
  {
    if n > 0 {
      FlattenHex(parts, n - 1);
    }
  }

  lemma {:induction false} BothUtf8(a: seq<string>, b: seq<string>)
    ensures AllUtf8(a + b) <==> AllUtf8(a) && AllUtf8(b)
  {
    if AllUtf8(a + b) {
      assert forall i | 0 <= i < |a| :: a[i] == (a + b)[i];
      assert forall i | 0 <= i < |b| :: b[i] == (a + b)[|a| + i];
    }
  }

  lemma {:induction false} FlattenUtf8(parts: seq<seq<string>>, n: nat)
    requires n <= |parts|
    ensures AllUtf8(Flatten(parts, n)) <==> forall k | 0 <= k < n :: AllUtf8(parts[k])
  {
    if n > 0 {
      FlattenUtf8(parts, n - 1);
      BothUtf8(Flatten(parts, n - 1), parts[n - 1]);
    }
  }

  /** Every TEXT value keeps its characters within the lines of its sign. */
  ghost predicate WholeLines(cols: seq<Column>, values: Values) {
    forall k | 0 <= k < |cols| && cols[k].typ == TEXT :: AllUtf8(SignLines(ToText(GetColumnValue(values, cols[k]))))
  }

  lemma {:induction false} SignPartSurvives(cols: seq<Column>, values: Values, k: nat)
    requires k < |cols|
    ensures AllUtf8(SignParts(cols, values)[k])
            <==> (cols[k].typ == TEXT ==> AllUtf8(SignLines(ToText(GetColumnValue(values, cols[k])))))
  {
    if cols[k].typ == TEXT {
      SignSurvives(ToText(GetColumnValue(values, cols[k])));
      assert SignParts(cols, values)[k][0] == SignData(SignLines(ToText(GetColumnValue(values, cols[k]))));
    }
  }

  /** The strip: hex in front, signs behind. */
  function Fronts(cols: seq<Column>, values: Values, txid: int): (blocks: seq<string>) {
    SystemBlocks(txid) + Flatten(BannerParts(cols, values), |cols|)
  }

  lemma {:induction false} FrontsAreHex(cols: seq<Column>, values: Values, txid: int)
    ensures AllHex(Fronts(cols, values, txid))
    ensures |Fronts(cols, values, txid)| == 4 + BannerCount(cols, |cols|)
  {
    forall k | 0 <= k < |cols| ensures AllHex(BannerParts(cols, values)[k]) {
      BannersAreHex(cols[k].typ, GetColumnValue(values, cols[k]));
    }
    FlattenHex(BannerParts(cols, values), |cols|);
    SystemBlocksAreHex(txid);
    OffsetsCount(cols, values, |cols|);
  }

  lemma {:induction false} SignsSurvive(cols: seq<Column>, values: Values)
    ensures AllUtf8(Flatten(SignParts(cols, values), |cols|)) <==> WholeLines(cols, values)
  {
    FlattenUtf8(SignParts(cols, values), |cols|);
    forall k | 0 <= k < |cols|
      ensures AllUtf8(SignParts(cols, values)[k])
              <==> (cols[k].typ == TEXT ==> AllUtf8(SignLines(ToText(GetColumnValue(values, cols[k])))))
    {
      SignPartSurvives(cols, values, k);
    }
  }

  /** Block by block: a front block is sent, a sign exactly when it is well-formed. */
  lemma {:induction false} BlocksSendable(server: Server, front: seq<string>, signs: seq<string>, y: int, z: int,
                                          kinds: seq<byte>)
    requires AllHex(front) && |kinds| == |front + signs| && AllEncodable(server, StripWrites(front + signs, y, z))
    requires forall x | 0 <= x < |kinds| :: kinds[x] == if x < |front| then BANNER else SIGN
    ensures AllSendable(server, StripWrites(front + signs, y, z), kinds) <==> AllUtf8(signs)
  {
    var writes := StripWrites(front + signs, y, z);
    forall x | 0 <= x < |writes|
      ensures Sendable(server, writes[x], kinds[x]) <==> x < |front| || Utf8Text(signs[x - |front|])
    {
      if x < |front| {
        HexIsTaken(server, front[x]);
      }
    }
    if AllSendable(server, writes, kinds) {
      forall i | 0 <= i < |signs| ensures Utf8Text(signs[i]) {
        assert Sendable(server, writes[|front| + i], kinds[|front| + i]);
      }
    }
  }

  /** The batch InsertRow sends is acknowledged and arrives whole exactly when every TEXT value keeps its
      characters within the lines of its sign. */
  lemma {:induction false} InsertSendable(server: Server, cols: seq<Column>, values: Values, txid: int, y: int, z: int)
    requires AllEncodable(server, StripWrites(Strip(cols, values, txid), y, z))
    ensures AllSendable(server, StripWrites(Strip(cols, values, txid), y, z), StripKinds(cols))
            <==> WholeLines(cols, values)
  {
    FrontsAreHex(cols, values, txid);
    SignsSurvive(cols, values);
    StripInParts(cols, values, txid);
    BlocksSendable(server, Fronts(cols, values, txid), Flatten(SignParts(cols, values), |cols|), y, z,
                   StripKinds(cols));
  }

  // ----- books -----

  lemma {:induction false} ItoaIsAscii(n: int)
    ensures AsciiText(Itoa(n))
  {
  }

  lemma {:induction false} HeaderSurvives(e: Entry, page: nat)
    requires page < 3 && AsciiText(e.status) && AsciiText(e.op)
    ensures Utf8Text(Header(e)[page])
  {
    var lines := HeaderLines(e, page);
    forall i | 0 <= i < |lines| ensures Utf8Text(lines[i]) {
      HeaderLineSurvives(e, page, i);
    }
    JoinedUtf8(lines, "\n");
  }

  lemma {:induction false} LabelledNumber(name: string, n: int)
    requires AsciiText(name)
    ensures Utf8Text(name + Itoa(n))
  {
    ItoaIsAscii(n);
    AsciiIsUtf8(name + Itoa(n));
  }

  lemma {:induction false} LabelledText(name: string, s: string)
    requires AsciiText(name) && AsciiText(s)
    ensures Utf8Text(name + s)
  {
    AsciiIsUtf8(name + s);
  }

  lemma {:induction false} HeaderLineSurvives(e: Entry, page: nat, i: nat)
    requires page < 3 && i < |HeaderLines(e, page)| && AsciiText(e.status) && AsciiText(e.op)
    ensures Utf8Text(HeaderLines(e, page)[i])
  {
    if page == 0 {
      LabelledNumber("LSN: ", e.lsn);
      LabelledNumber("TXID: ", e.txid);
      LabelledText("STATUS: ", e.status);
    } else if page == 1 {
      LabelledText("OP: ", e.op);
      LabelledNumber("TABLE: ", e.tableID);
    } else {
      LabelledNumber("X: ", e.x);
      LabelledNumber("Y: ", e.y);
      LabelledNumber("Z: ", e.z);
    }
  }

  /** A log entry survives exactly when no page boundary of its new value falls inside a character. */
  lemma {:induction false} BookSurvives(e: Entry)
    requires AsciiText(e.status) && AsciiText(e.op)
    ensures Utf8Text(Serialize(e)) <==> AllUtf8(Chunks(e.newValue))
  {
    var h, c := Header(e), Chunks(e.newValue);
    forall i | 0 <= i < 3 ensures Utf8Text(h[i]) {
      HeaderSurvives(e, i);
    }
    BothUtf8(h, c);
    JoinedUtf8(h + c, PAGE_SEP);
  }

  lemma {:induction false} AsciiChunks(s: string, from: nat)
    requires from <= |s| && AsciiText(s)
    ensures AllUtf8(ChunksFrom(s, from))
    decreases |s| - from
  {
    if from < |s| {
      var end := if from + PAGE_LEN > |s| then |s| else from + PAGE_LEN;
      AsciiIsUtf8(s[from..end]);
      AsciiChunks(s, end);
    }
  }

  /** A delete's log entry and its two banners are always sent. */
  lemma {:induction false} DeleteSurvives(server: Server, pos: Pos, txid: int, lsn: int, status: string)
    requires status == PENDING || status == COMMITTED
    ensures Utf8Text(Serialize(EntryOf(DeleteOp(pos, txid), lsn, status)))
    ensures AllEncodable(server, XmaxWrites(pos, txid)) ==>
              AllSendable(server, XmaxWrites(pos, txid), [BANNER, BANNER])
  {
    var e := EntryOf(DeleteOp(pos, txid), lsn, status);
    ItoaIsAscii(txid);
    AsciiChunks(e.newValue, 0);
    BookSurvives(e);
    if AllEncodable(server, XmaxWrites(pos, txid)) {
      XmaxSendable(server, pos, txid);
    }
  }

  lemma {:induction false} XmaxSendable(server: Server, pos: Pos, txid: int)
    requires AllEncodable(server, XmaxWrites(pos, txid))
    ensures AllSendable(server, XmaxWrites(pos, txid), [BANNER, BANNER])
  {
    Int64IsHex(txid);
    HexIsTaken(server, Int64Banners(txid).0);
    HexIsTaken(server, Int64Banners(txid).1);
  }
}
