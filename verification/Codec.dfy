/** Banner and sign codecs: internal/storage/codec.go, and their copy in internal/wal/wal.go. */
module Codec {
  import opened GoText

  type byte = i: int | 0 <= i < 256

  const TWO_32 := 0x1_0000_0000
  const TWO_64 := 0x1_0000_0000_0000_0000

  predicate IsInt32(n: int) {
    -0x8000_0000 <= n <= 0x7FFF_FFFF
  }

  /** Go's conversions between signed and unsigned words of the same width. */
  function Signed(u: nat, modulus: nat): int {
    if 2 * u >= modulus then u - modulus else u
  }

  // ----- big-endian words -----

  function Pow256(k: nat): nat {
    if k == 0 then 1 else 256 * Pow256(k - 1)
  }

  function BigEndian(n: nat, k: nat): (bs: seq<byte>)
    ensures |bs| == k
  {
    if k == 0 then [] else BigEndian(n / 256, k - 1) + [n % 256]
  }

  function FromBigEndian(bs: seq<byte>): nat {
    if bs == [] then 0 else 256 * FromBigEndian(bs[..|bs| - 1]) + bs[|bs| - 1]
  }

  lemma {:induction false} BigEndianInverse(n: nat, k: nat)
    requires n < Pow256(k)
    ensures FromBigEndian(BigEndian(n, k)) == n
  {
    if k > 0 {
      BigEndianInverse(n / 256, k - 1);
      assert BigEndian(n, k)[..k - 1] == BigEndian(n / 256, k - 1);
    }
  }

  lemma {:induction false} Widths()
    ensures Pow256(4) == TWO_32 && Pow256(8) == TWO_64
  {
    assert Pow256(2) == 0x1_0000;
    assert Pow256(4) == 0x1_0000_0000;
    assert Pow256(6) == 0x1_0000_0000_0000;
  }

  // ----- the XOR mask -----

  function Pow2(k: nat): nat {
    if k == 0 then 1 else 2 * Pow2(k - 1)
  }

  /** Exclusive or of the lowest k bits. */
  function Xor(a: nat, b: nat, k: nat): (r: nat)
    ensures r < Pow2(k)
  {
    if k == 0 then 0 else 2 * Xor(a / 2, b / 2, k - 1) + (a % 2 + b % 2) % 2
  }

  lemma {:induction false} Halves(r: nat, bit: nat)
    requires bit < 2
    ensures (2 * r + bit) / 2 == r && (2 * r + bit) % 2 == bit
  {
  }

  lemma {:induction false} BitTwice(p: nat, q: nat)
    requires p < 2 && q < 2
    ensures ((p + q) % 2 + q) % 2 == p
  {
  }

  lemma {:induction false} XorStep(a: nat, b: nat, k: nat, r: nat, bit: nat)
    requires k > 0 && r == Xor(a / 2, b / 2, k - 1) && bit == (a % 2 + b % 2) % 2
    ensures Xor(a, b, k) == 2 * r + bit
  {
  }

  lemma {:induction false} XorTwice(a: nat, b: nat, k: nat)
    requires a < Pow2(k)
    ensures Xor(Xor(a, b, k), b, k) == a
  {
    if k > 0 {
      var r, bit := Xor(a / 2, b / 2, k - 1), (a % 2 + b % 2) % 2;
      XorStep(a, b, k, r, bit);
      Halves(r, bit);
      BitTwice(a % 2, b % 2);
      XorTwice(a / 2, b / 2, k - 1);
      XorStep(2 * r + bit, b, k, a / 2, a % 2);
    }
  }

  lemma {:induction false} ByteWidth()
    ensures Pow2(8) == 256
  {
    assert Pow2(4) == 16;
  }

  function Mask(b: byte): byte {
    ByteWidth();
    Xor(b, 0x55, 8)
  }

  lemma {:induction false} XorZero(b: nat, k: nat)
    requires b < Pow2(k)
    ensures Xor(0, b, k) == b
  {
    if k > 0 {
      XorZero(b / 2, k - 1);
      XorStep(0, b, k, b / 2, b % 2);
    }
  }

  lemma {:induction false} XorOnes(ones: nat, b: nat, k: nat)
    requires ones + 1 == Pow2(k) && b <= ones
    ensures Xor(ones, b, k) == ones - b
  {
    if k > 0 {
      OnesStep(ones, b, Pow2(k - 1));
      XorOnes(ones / 2, b / 2, k - 1);
      XorStep(ones, b, k, ones / 2 - b / 2, 1 - b % 2);
    }
  }

  /** A number of ones, without its last. */
  lemma {:induction false} OnesStep(ones: nat, b: nat, half: nat)
    requires ones + 1 == 2 * half && b <= ones
    ensures ones / 2 + 1 == half && ones % 2 == 1 && b / 2 <= ones / 2
    ensures 2 * (ones / 2 - b / 2) + (1 - b % 2) == ones - b && (1 + b % 2) % 2 == 1 - b % 2
  {
  }

  lemma {:induction false} MaskOfEnds(zero: byte, ones: byte)
    requires zero == 0 && ones == 0xFF
    ensures Mask(zero) == 0x55 && Mask(ones) == 0xAA
  {
    ByteWidth();
    XorZero(0x55, 8);
    XorOnes(0xFF, 0x55, 8);
  }

  lemma {:induction false} MaskTwice(b: byte)
    ensures Mask(Mask(b)) == b
  {
    ByteWidth();
    XorTwice(b, 0x55, 8);
  }

  function Masked(bs: seq<byte>): (r: seq<byte>)
    ensures |r| == |bs|
  {
    seq(|bs|, i requires 0 <= i < |bs| => Mask(bs[i]))
  }

  lemma {:induction false} MaskedTwice(bs: seq<byte>)
    ensures Masked(Masked(bs)) == bs
  {
    forall i | 0 <= i < |bs| ensures Masked(Masked(bs))[i] == bs[i] {
      MaskTwice(bs[i]);
    }
  }

  // ----- encoding/hex -----

  function HexChar(n: nat): (c: char)
    requires n < 16
    ensures HexValue(c) == Some(n)
  {
    if n < 10 then '0' + n as char else 'a' + (n - 10) as char
  }

  function HexValue(c: char): (r: Option<nat>)
    ensures r.Some? ==> r.value < 16
  {
    if '0' <= c <= '9' then Some(c as int - '0' as int)
    else if 'a' <= c <= 'f' then Some(c as int - 'a' as int + 10)
    else if 'A' <= c <= 'F' then Some(c as int - 'A' as int + 10)
    else None
  }

  function HexPair(b: byte): (s: string)
    ensures |s| == 2
  {
    [HexChar(b / 16), HexChar(b % 16)]
  }

  function HexEncode(bs: seq<byte>): (s: string)
    ensures |s| == 2 * |bs|
  {
    if bs == [] then "" else HexEncode(bs[..|bs| - 1]) + HexPair(bs[|bs| - 1])
  }

  function HexDecode(s: string): (r: Option<seq<byte>>)
    ensures r.Some? ==> |s| == 2 * |r.value|
  {
    if s == "" then Some([])
    else if |s| == 1 then None
    else
      var rest := HexDecode(s[..|s| - 2]);
      var hi, lo := HexValue(s[|s| - 2]), HexValue(s[|s| - 1]);
      if rest.Some? && hi.Some? && lo.Some? then Some(rest.value + [hi.value * 16 + lo.value]) else None
  }

  lemma {:induction false} HexDecodePair(s: string, b: byte)
    ensures HexDecode(s + HexPair(b))
            == if HexDecode(s).Some? then Some(HexDecode(s).value + [b]) else None
  {
    var t := s + HexPair(b);
    assert t[..|t| - 2] == s;
    assert t[|t| - 2] == HexChar(b / 16) && t[|t| - 1] == HexChar(b % 16);
    assert b / 16 * 16 + b % 16 == b;
  }

  lemma {:induction false} HexInverse(bs: seq<byte>)
    ensures HexDecode(HexEncode(bs)) == Some(bs)
  {
    if bs != [] {
      var init, b := bs[..|bs| - 1], bs[|bs| - 1];
      HexInverse(init);
      HexDecodePair(HexEncode(init), b);
      assert bs == init + [b];
    }
  }

  // ----- banners: six masked bytes in hex -----

  function Banner(bs: seq<byte>): (s: string)
    ensures |s| == 2 * |bs|
  {
    HexEncode(Masked(bs))
  }

  function BannerBytes(s: string): (r: Option<seq<byte>>)
    ensures r.Some? ==> |r.value| == BYTES_PER_BANNER && |s| == 12
  {
    var bs := HexDecode(s);
    if bs.Some? && |bs.value| == BYTES_PER_BANNER then Some(Masked(bs.value)) else None
  }

  const BYTES_PER_BANNER := 6
  const NULL_HEX := "aaaaaaaaaaaa"

  lemma {:induction false} BannerInverse(bs: seq<byte>)
    requires |bs| == BYTES_PER_BANNER
    ensures BannerBytes(Banner(bs)) == Some(bs)
  {
    HexInverse(Masked(bs));
    MaskedTwice(bs);
  }

  function Int32Banner(v: int): (s: string)
    ensures |s| == 12
  {
    Banner(BigEndian(v % TWO_32, 4) + [0, 0])
  }

  function ReadInt32(s: string): (r: Option<int>)
    ensures r.Some? ==> IsInt32(r.value)
  {
    var bs := BannerBytes(s);
    if bs.None? then None
    else
      FromBigEndianBound(bs.value[..4]);
      Widths();
      Some(Signed(FromBigEndian(bs.value[..4]), TWO_32))
  }

  function Int64Banners(v: int): (r: (string, string))
    ensures |r.0| == 12 && |r.1| == 12
  {
    var bs := BigEndian(v % TWO_64, 8);
    (Banner(bs[..6]), Banner(bs[6..] + [0, 0, 0, 0]))
  }

  function ReadInt64(s1: string, s2: string): (r: Option<int>)
    ensures r.Some? ==> IsInt64(r.value)
  {
    var b1, b2 := BannerBytes(s1), BannerBytes(s2);
    if b1.None? || b2.None? then None
    else
      FromBigEndianBound(b1.value + b2.value[..2]);
      Widths();
      Some(Signed(FromBigEndian(b1.value + b2.value[..2]), TWO_64))
  }

  function BoolBanner(v: bool): (s: string)
    ensures |s| == 12
  {
    Banner([if v then 1 else 0, 0, 0, 0, 0, 0])
  }

  function ReadBool(s: string): (r: Option<bool>)
  {
    var bs := BannerBytes(s);
    if bs.None? then None else Some(bs.value[0] != 0)
  }

  predicate IsNull(s1: string, s2: string) {
    s1 == NULL_HEX && s2 == NULL_HEX
  }

  lemma {:induction false} FromBigEndianBound(bs: seq<byte>)
    ensures FromBigEndian(bs) < Pow256(|bs|)
  {
    if bs != [] {
      FromBigEndianBound(bs[..|bs| - 1]);
    }
  }

  /** INT columns keep the value, and a value out of range wraps as Go's int32(v) does. */
  lemma {:induction false} Int32RoundTrip(v: int)
    ensures ReadInt32(Int32Banner(v)) == Some(Wrap32(v))
    ensures IsInt32(v) ==> Wrap32(v) == v
  {
    var word := BigEndian(v % TWO_32, 4);
    BannerInverse(word + [0, 0]);
    assert (word + [0, 0])[..4] == word;
    Widths();
    BigEndianInverse(v % TWO_32, 4);
    TwosComplement(v);
  }

  function Wrap32(v: int): (r: int)
    ensures IsInt32(r) && (v - r) % TWO_32 == 0
  {
    Signed(v % TWO_32, TWO_32)
  }

  lemma {:induction false} WordThroughBanners(word: seq<byte>)
    requires |word| == 8
    ensures ReadInt64(Banner(word[..6]), Banner(word[6..] + [0, 0, 0, 0]))
            == Some(Signed(FromBigEndian(word), TWO_64))
  {
    BannerInverse(word[..6]);
    BannerInverse(word[6..] + [0, 0, 0, 0]);
    assert word[..6] + (word[6..] + [0, 0, 0, 0])[..2] == word;
  }

  lemma {:induction false} TwosComplement(v: int)
    ensures IsInt32(v) ==> Signed(v % TWO_32, TWO_32) == v
    ensures IsInt64(v) ==> Signed(v % TWO_64, TWO_64) == v
  {
  }

  lemma {:induction false} Int64RoundTrip(v: int)
    requires IsInt64(v)
    ensures var (s1, s2) := Int64Banners(v); ReadInt64(s1, s2) == Some(v)
  {
    WordThroughBanners(BigEndian(v % TWO_64, 8));
    Widths();
    BigEndianInverse(v % TWO_64, 8);
    TwosComplement(v);
  }

  lemma {:induction false} BoolRoundTrip(v: bool)
    ensures ReadBool(BoolBanner(v)) == Some(v)
  {
    BannerInverse([if v then 1 else 0, 0, 0, 0, 0, 0]);
  }

  /** No int64 is written as the null sentinel: the second banner is padded with masked zeros. */
  lemma {:induction false} Int64NeverNull(v: int)
    ensures var (s1, s2) := Int64Banners(v); !IsNull(s1, s2)
  {
    PaddedIsNotNull(BigEndian(v % TWO_64, 8)[6..] + [0, 0, 0, 0]);
  }

  lemma {:induction false} PaddedIsNotNull(bs: seq<byte>)
    requires |bs| == BYTES_PER_BANNER && bs[5] == 0
    ensures Banner(bs) != NULL_HEX
  {
    MaskOfEnds(bs[5], 0xFF);
    assert Masked(bs)[5] == 0x55;
    LastDigit(Masked(bs));
  }

  lemma {:induction false} LastDigit(bs: seq<byte>)
    requires |bs| == BYTES_PER_BANNER && bs[5] == 0x55
    ensures HexEncode(bs)[11] == '5'
  {
    assert HexEncode(bs) == HexEncode(bs[..5]) + HexPair(bs[5]);
    assert HexPair(bs[5])[1] == '5';
  }

  /** The null sentinel, decoded as a number, is -1: only the exact text tells them apart. */
  lemma {:induction false} NullReadsAsMinusOne()
    ensures ReadInt64(NULL_HEX, NULL_HEX) == Some(-1)
  {
    var ff: seq<byte> := [255, 255, 255, 255, 255, 255];
    NullIsMaskedOnes(ff);
    BannerInverse(ff);
    Widths();
    AllOnes(ff + ff[..2]);
  }

  lemma {:induction false} NullIsMaskedOnes(ff: seq<byte>)
    requires |ff| == BYTES_PER_BANNER && forall i | 0 <= i < |ff| :: ff[i] == 255
    ensures Banner(ff) == NULL_HEX
  {
    MaskOfEnds(0, ff[0]);
    HexOfAA(Masked(ff));
  }

  lemma {:induction false} HexOfAA(bs: seq<byte>)
    requires forall i | 0 <= i < |bs| :: bs[i] == 0xAA
    ensures forall i | 0 <= i < 2 * |bs| :: HexEncode(bs)[i] == 'a'
  {
    if bs != [] {
      HexOfAA(bs[..|bs| - 1]);
      assert HexPair(0xAA) == "aa";
    }
  }

  lemma {:induction false} AllOnes(bs: seq<byte>)
    requires forall i | 0 <= i < |bs| :: bs[i] == 255
    ensures FromBigEndian(bs) == Pow256(|bs|) - 1
  {
    if bs != [] {
      AllOnes(bs[..|bs| - 1]);
    }
  }

  // ----- the source's encoders and decoders, over byte buffers -----

  method MaskInPlace(b: array<byte>)
    modifies b
    ensures b[..] == Masked(old(b[..]))
  {
    for i := 0 to b.Length
      invariant forall k | 0 <= k < i :: b[k] == Mask(old(b[k]))
      invariant forall k | i <= k < b.Length :: b[k] == old(b[k])
    {
      b[i] := Mask(b[i]);
    }
  }

  method PutWord(b: array<byte>, word: seq<byte>)
    requires |word| <= b.Length
    modifies b
    ensures b[..] == word + old(b[|word|..])
  {
    for i := 0 to |word|
      invariant forall k | 0 <= k < i :: b[k] == word[k]
      invariant forall k | i <= k < b.Length :: b[k] == old(b[k])
    {
      b[i] := word[i];
    }
  }

  method EncodeInt32(v: int) returns (s: string)
    requires IsInt32(v)
    ensures ReadInt32(s) == Some(v)
    ensures s == Int32Banner(v)
  {
    var b := new byte[BYTES_PER_BANNER](_ => 0);
    PutWord(b, BigEndian(v % TWO_32, 4));
    assert b[..] == BigEndian(v % TWO_32, 4) + [0, 0];
    MaskInPlace(b);
    s := HexEncode(b[..]);
    Int32RoundTrip(v);
  }

  method DecodeInt32(s: string) returns (r: Option<int>)
    ensures r == ReadInt32(s)
  {
    var bs := HexDecode(s);
    if bs.None? || |bs.value| != BYTES_PER_BANNER {
      return None;
    }
    var b := new byte[BYTES_PER_BANNER](i requires 0 <= i < BYTES_PER_BANNER => bs.value[i]);
    assert b[..] == bs.value;
    MaskInPlace(b);
    r := Some(Signed(FromBigEndian(b[..4]), TWO_32));
  }

  method EncodeInt64(v: int) returns (s1: string, s2: string)
    requires IsInt64(v)
    ensures ReadInt64(s1, s2) == Some(v) && !IsNull(s1, s2)
    ensures (s1, s2) == Int64Banners(v)
  {
    var b := new byte[2 * BYTES_PER_BANNER](_ => 0);
    var word := BigEndian(v % TWO_64, 8);
    PutWord(b, word);
    assert b[..] == word + [0, 0, 0, 0];
    MaskInPlace(b);
    assert b[..6] == Masked(word[..6]) && b[6..] == Masked(word[6..] + [0, 0, 0, 0]);
    s1, s2 := HexEncode(b[..6]), HexEncode(b[6..]);
    Int64RoundTrip(v);
    Int64NeverNull(v);
  }

  lemma {:induction false} MaskedWord(a: seq<byte>, b: seq<byte>)
    requires |b| >= 2
    ensures Masked(a + b[..2]) == Masked(a) + Masked(b)[..2]
  {
  }

  method DecodeInt64(s1: string, s2: string) returns (r: Option<int>)
    ensures r == ReadInt64(s1, s2)
  {
    var b1, b2 := HexDecode(s1), HexDecode(s2);
    if b1.None? || b2.None? || |b1.value| != BYTES_PER_BANNER || |b2.value| != BYTES_PER_BANNER {
      return None;
    }
    var b := new byte[8](_ => 0);
    PutWord(b, b1.value + b2.value[..2]);
    assert b[..] == b1.value + b2.value[..2];
    MaskInPlace(b);
    MaskedWord(b1.value, b2.value);
    r := Some(Signed(FromBigEndian(b[..]), TWO_64));
  }

  method EncodeBool(v: bool) returns (s: string)
    ensures ReadBool(s) == Some(v)
    ensures s == BoolBanner(v)
  {
    var b := new byte[BYTES_PER_BANNER](_ => 0);
    if v {
      b[0] := 1;
    }
    assert b[..] == [if v then 1 else 0, 0, 0, 0, 0, 0];
    MaskInPlace(b);
    s := HexEncode(b[..]);
    BoolRoundTrip(v);
  }

  method DecodeBool(s: string) returns (r: Option<bool>)
    ensures r == ReadBool(s)
  {
    var bs := HexDecode(s);
    if bs.None? || |bs.value| != BYTES_PER_BANNER {
      return None;
    }
    r := Some(Mask(bs.value[0]) != 0);
  }
}
