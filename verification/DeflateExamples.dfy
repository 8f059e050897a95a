/**
 Two deflate streams given as bytes, one with fixed and one with dynamic codes, and what they inflate to.
 */
module DeflateExamples {
  import opened Bits
  import opened Canonical
  import opened PrefixCodes
  import opened DecodeTables
  import opened DecodeSymbols
  import opened Lz77
  import opened InflateSpec
  import opened DeflateFormat
  import opened FixedTrees
  import opened BitReaders
  import T = DeflateTables

  // ---------- reading bits ----------

  /** The bits from i on as a number, least significant first. */
  function Little(v: seq<bit>, i: nat): nat
    requires i <= |v|
    decreases |v| - i
  {
    if i == |v| then 0 else v[i] as nat + 2 * Little(v, i + 1)
  }

  /** The first n bits as a number, most significant first. */
  function Big(v: seq<bit>, n: nat): nat
    requires n <= |v|
  {
    if n == 0 then 0 else 2 * Big(v, n - 1) + v[n - 1] as nat
  }

  lemma {:induction false} LittleIs(v: seq<bit>, i: nat)
    requires i <= |v|
    ensures FromLE(v[i..]) == Little(v, i)
    decreases |v| - i
  {
    if i < |v| {
      LittleIs(v, i + 1);
      assert v[i..][1..] == v[i + 1..];
    }
  }

  lemma {:induction false} BigIs(v: seq<bit>, n: nat)
    requires n <= |v|
    ensures FromBE(v[..n]) == Big(v, n)
  {
    if n > 0 {
      BigIs(v, n - 1);
      assert v[..n][..n - 1] == v[..n - 1];
    }
  }

  function Eight(v: seq<bit>): nat
    requires |v| == 8
  {
    var a: nat, b: nat, c: nat, d: nat, e: nat, f: nat, g: nat, h: nat := v[0], v[1], v[2], v[3], v[4], v[5], v[6], v[7];
    a + 2 * b + 4 * c + 8 * d + 16 * e + 32 * f + 64 * g + 128 * h
  }

  lemma LittleEight(v: seq<bit>)
    requires |v| == 8
    ensures Little(v, 0) == Eight(v)
  {
    assert Little(v, 8) == 0;
    assert Little(v, 7) == v[7] as nat;
    assert Little(v, 6) == v[6] as nat + 2 * (v[7] as nat);
    assert Little(v, 4) == v[4] as nat + 2 * (v[5] as nat + 2 * Little(v, 6));
    assert Little(v, 2) == v[2] as nat + 2 * (v[3] as nat + 2 * Little(v, 4));
  }

  /** The eight stream bits of a byte. */
  lemma ByteIs(data: seq<byte>, i: nat, v: seq<bit>)
    requires i < |data| && |v| == 8 && data[i] == Eight(v)
    ensures Window(data, 8 * i, 8) == v
    ensures BitAt(data, 8 * i) == v[0] && BitAt(data, 8 * i + 1) == v[1] && BitAt(data, 8 * i + 2) == v[2]
    ensures BitAt(data, 8 * i + 3) == v[3] && BitAt(data, 8 * i + 4) == v[4] && BitAt(data, 8 * i + 5) == v[5]
    ensures BitAt(data, 8 * i + 6) == v[6] && BitAt(data, 8 * i + 7) == v[7]
  {
    hide BitAt, ToLE, FromLE, Little;
    LittleIs(v, 0);
    LittleEight(v);
    assert v[0..] == v;
    ToFromLE(v);
    WindowByte(data, i);
    var w := Window(data, 8 * i, 8);
    assert w[0] == BitAt(data, 8 * i) && w[1] == BitAt(data, 8 * i + 1) && w[2] == BitAt(data, 8 * i + 2);
    assert w[3] == BitAt(data, 8 * i + 3) && w[4] == BitAt(data, 8 * i + 4) && w[5] == BitAt(data, 8 * i + 5);
  }

  /** The number in stream bits that are known. */
  lemma NumberIs(data: seq<byte>, pos: nat, v: seq<bit>)
    requires At(data, pos, v)
    ensures Number(data, pos, |v|) == Little(v, 0)
  {
    LittleIs(v, 0);
    assert v[0..] == v;
  }

  /** The symbol whose code stands in stream bits that are known. */
  lemma SymbolIs(data: seq<byte>, pos: nat, lens: seq<nat>, s: nat, v: seq<bit>)
    requires ValidLengths(lens) && Accepted(lens) && Present(lens, s) && At(data, pos, v)
    requires |v| == lens[s] && Big(v, |v|) == Code(lens, s)
    ensures NextSymbol(lens, data, pos) == Some(s)
  {
    hide At, Accepted, Code, NextSymbol;
    BigIs(v, |v|);
    assert v[..|v|] == v;
    ToFromBE(v);
    SymbolAt(data, pos, lens, s);
  }

  // ---------- a fixed block ----------

  /** The data starts with the five bytes of the example. */
  predicate StartsFixed(data: seq<byte>)
  {
    |data| >= 5 && data[0] == 0x63 && data[1] == 0x18 && data[2] == 0x05 && data[3] == 0x8C && data[4] == 0x00
  }

  /** The bits of the five bytes, first bit first. */
  lemma FixedBits(data: seq<byte>)
    requires StartsFixed(data)
    ensures BitAt(data, 0) == 1 && At(data, 1, [1, 0])
    ensures At(data, 3, [0, 0, 1, 1, 0, 0, 0, 0]) && At(data, 11, [1, 1, 0, 0, 0, 1, 0, 1])
    ensures At(data, 19, [0, 0, 0, 0, 0]) && At(data, 24, [0, 0, 1, 1, 0, 0, 0, 1]) && At(data, 32, [0, 0, 0, 0, 0, 0, 0])
  {
    hide BitAt;
    ByteIs(data, 0, [1, 1, 0, 0, 0, 1, 1, 0]);
    ByteIs(data, 1, [0, 0, 0, 1, 1, 0, 0, 0]);
    ByteIs(data, 2, [1, 0, 1, 0, 0, 0, 0, 0]);
    ByteIs(data, 3, [0, 0, 1, 1, 0, 0, 0, 1]);
    ByteIs(data, 4, [0, 0, 0, 0, 0, 0, 0, 0]);
  }

  lemma FixedSymbols(data: seq<byte>)
    requires StartsFixed(data)
    ensures NextSymbol(FixedLitLen(), data, 3) == Some(0) && NextSymbol(FixedLitLen(), data, 11) == Some(285)
    ensures NextSymbol(FixedDistance(), data, 19) == Some(0) && NextSymbol(FixedLitLen(), data, 24) == Some(1)
    ensures NextSymbol(FixedLitLen(), data, 32) == Some(256)
  {
    hide At, Accepted, Code, NextSymbol, FixedLitLen, FixedDistance;
    FixedBits(data);
    FixedLitLenAccepted();
    FixedDistanceAccepted();
    T.FixedCode(0);
    T.FixedCode(285);
    T.FixedCode(1);
    T.FixedCode(256);
    T.FixedDistanceCode(0);
    SymbolIs(data, 3, FixedLitLen(), 0, [0, 0, 1, 1, 0, 0, 0, 0]);
    SymbolIs(data, 11, FixedLitLen(), 285, [1, 1, 0, 0, 0, 1, 0, 1]);
    SymbolIs(data, 19, FixedDistance(), 0, [0, 0, 0, 0, 0]);
    SymbolIs(data, 24, FixedLitLen(), 1, [0, 0, 1, 1, 0, 0, 0, 1]);
    SymbolIs(data, 32, FixedLitLen(), 256, [0, 0, 0, 0, 0, 0, 0]);
  }

  lemma FixedSteps(data: seq<byte>)
    requires StartsFixed(data)
    ensures var ll, dl := FixedLitLen(), FixedDistance();
            && DecodeStep(data, ll, dl, 3, []) == More([0], 11)
            && DecodeStep(data, ll, dl, 11, [0]) == More(Copy([0], 258, 1), 24)
            && DecodeStep(data, ll, dl, 24, Copy([0], 258, 1)) == More(Copy([0], 258, 1) + [1], 32)
            && DecodeStep(data, ll, dl, 32, Copy([0], 258, 1) + [1]) == End(39)
  {
    hide NextSymbol, Code, At, Copy, FixedLitLen, FixedDistance, Window;
    FixedSymbols(data);
    T.FixedCode(0);
    T.FixedCode(285);
    T.FixedCode(1);
    T.FixedCode(256);
    T.FixedDistanceCode(0);
    NoExtraBits(data, 19);
    NoExtraBits(data, 24);
    assert LENGTHBASE[28] == 258 && LENGTHEXTRA[28] == 0 && DISTANCEBASE[0] == 1 && DISTANCEEXTRA[0] == 0;
  }

  lemma NoExtraBits(data: seq<byte>, pos: nat)
    ensures Number(data, pos, 0) == 0
  {
  }

  /** A run of equal bytes copied from one byte back. */
  lemma {:induction false} CopyZeros(n: nat)
    ensures Copy([0], n, 1) == seq(n + 1, i => 0)
  {
    var zeros: seq<byte> := seq(n + 1, i => 0);
    assert zeros[..1] == [0] && zeros[..1 + n] == zeros;
    CopyIsInput(zeros, 1, n, 1);
  }

  lemma FixedBlock(data: seq<byte>, maxOutput: nat)
    requires StartsFixed(data)
    requires maxOutput == 0 || maxOutput >= 260
    ensures InflateSymbols(data, FixedLitLen(), FixedDistance(), 3, [], maxOutput) == Done(Copy([0], 258, 1) + [1], 39)
  {
    hide DecodeStep, Copy, FixedLitLen, FixedDistance;
    FixedSteps(data);
    var ll, dl, c := FixedLitLen(), FixedDistance(), Copy([0], 258, 1);
    assert InflateSymbols(data, ll, dl, 32, c + [1], maxOutput) == Done(c + [1], 39);
    assert InflateSymbols(data, ll, dl, 24, c, maxOutput) == Done(c + [1], 39);
    assert InflateSymbols(data, ll, dl, 11, [0], maxOutput) == Done(c + [1], 39);
  }

  /** A literal 0, the match (258, 1), a literal 1 and the end code: 259 zeros and a 1. */
  lemma FixedExample(settings: DecompressSettings)
    requires settings.maxOutput == 0 || settings.maxOutput >= 260
    ensures Inflated([0x63, 0x18, 0x05, 0x8C, 0x00], [], settings) == Done(seq<byte>(259, i => 0) + [1], 39)
  {
    hide Inflated;
    FixedFollowed([], settings);
    assert [0x63, 0x18, 0x05, 0x8C, 0x00] + [] == [0x63, 0x18, 0x05, 0x8C, 0x00];
  }

  /** Whatever follows the stream. */
  lemma FixedFollowed(more: seq<byte>, settings: DecompressSettings)
    requires SizeFits(5 + |more|) && (settings.maxOutput == 0 || settings.maxOutput >= 260)
    ensures Inflated([0x63, 0x18, 0x05, 0x8C, 0x00] + more, [], settings) == Done(seq<byte>(259, i => 0) + [1], 39)
  {
    hide InflateSymbols, FixedLitLen, FixedDistance, At, BitAt, Little, Copy;
    var data: seq<byte> := [0x63, 0x18, 0x05, 0x8C, 0x00] + more;
    FixedBits(data);
    NumberIs(data, 1, [1, 0]);
    TwoBits(1, 0);
    FixedBlock(data, settings.maxOutput);
    CopyZeros(258);
    OneBlock(data, settings, 1);
  }

  lemma TwoBits(a: bit, b: bit)
    ensures Little([a, b], 0) == a as nat + 2 * (b as nat)
  {
    assert Little([a, b], 1) == b as nat + 2 * Little([a, b], 2);
  }

  /** A stream of one block. */
  lemma OneBlock(data: seq<byte>, settings: DecompressSettings, btype: nat)
    requires |data| > 0 && SizeFits(|data|) && BitAt(data, 0) == 1 && Number(data, 1, 2) == btype
    ensures Inflated(data, [], settings) == Block(data, btype, 3, [], settings)
  {
    hide Block, BitAt, Number;
  }

  // ---------- stored blocks, and streams that are refused ----------

  /** The three bits in front of a block. */
  lemma HeadIs(data: seq<byte>, v: seq<bit>)
    requires |data| > 0 && |v| == 8 && data[0] == Eight(v)
    ensures BitAt(data, 0) == v[0] && Number(data, 1, 2) == v[1] as nat + 2 * (v[2] as nat)
  {
    hide BitAt, Number, Little;
    ByteIs(data, 0, v);
    HeadNumber(data, v[1], v[2]);
  }

  lemma HeadNumber(data: seq<byte>, a: bit, b: bit)
    requires |data| > 0 && BitAt(data, 1) == a && BitAt(data, 2) == b
    ensures Number(data, 1, 2) == a as nat + 2 * (b as nat)
  {
    hide BitAt, Little;
    assert At(data, 1, [a, b]);
    NumberIs(data, 1, [a, b]);
    TwoBits(a, b);
  }

  /** Two stored bytes; the same with a wrong complement of the length, and with one byte too few; and a block of the
      reserved type. */
  lemma StoredExample(settings: DecompressSettings)
    requires settings.maxOutput == 0 || settings.maxOutput >= 2
    ensures Inflated([1, 2, 0, 253, 255, 9, 8], [], settings) == Done([9, 8], 56)
    ensures Inflated([1, 2, 0, 0, 0, 9, 8], [], settings) == if settings.ignoreNlen then Done([9, 8], 56) else Fail(21)
    ensures Inflated([1, 2, 0, 253, 255, 9], [], settings) == Fail(23)
    ensures Inflated([7, 2, 0, 253, 255, 9, 8], [], settings) == Fail(20)
  {
    hide BitAt, Number, Inflated;
    var one: seq<bit>, seven: seq<bit> := [1, 0, 0, 0, 0, 0, 0, 0], [1, 1, 1, 0, 0, 0, 0, 0];
    assert [1, 2, 0, 253, 255, 9, 8][5..7] == [9, 8] && [1, 2, 0, 0, 0, 9, 8][5..7] == [9, 8] && [] + [9, 8] == [9, 8];
    HeadIs([1, 2, 0, 253, 255, 9, 8], one);
    OneBlock([1, 2, 0, 253, 255, 9, 8], settings, 0);
    HeadIs([1, 2, 0, 0, 0, 9, 8], one);
    OneBlock([1, 2, 0, 0, 0, 9, 8], settings, 0);
    HeadIs([1, 2, 0, 253, 255, 9], one);
    OneBlock([1, 2, 0, 253, 255, 9], settings, 0);
    HeadIs([7, 2, 0, 253, 255, 9, 8], seven);
    OneBlock([7, 2, 0, 253, 255, 9, 8], settings, 3);
  }

  // ---------- a dynamic block ----------

  const DYNAMIC: seq<byte> :=
    [0x05, 0xC0, 0x27, 0x01, 0x00, 0x00, 0x00, 0x03, 0xA0, 0xAC, 0x3B, 0xFD, 0xBD, 0x84, 0xF4, 0x00]

  lemma HeadBits()
    ensures At(DYNAMIC, 1, [0, 1]) && At(DYNAMIC, 3, [0, 0, 0, 0, 0]) && At(DYNAMIC, 8, [0, 0, 0, 0, 0])
    ensures At(DYNAMIC, 13, [0, 1, 1, 1])
  {
    hide BitAt;
    ByteIs(DYNAMIC, 0, [1, 0, 1, 0, 0, 0, 0, 0]);
    ByteIs(DYNAMIC, 1, [0, 0, 0, 0, 0, 0, 1, 1]);
    ByteIs(DYNAMIC, 2, [1, 1, 1, 0, 0, 1, 0, 0]);
  }

  lemma OrderBits()
    ensures At(DYNAMIC, 17, [1, 1, 0]) && At(DYNAMIC, 20, [0, 1, 0]) && At(DYNAMIC, 23, [0, 1, 0])
    ensures At(DYNAMIC, 26, [0, 0, 0]) && At(DYNAMIC, 29, [0, 0, 0]) && At(DYNAMIC, 32, [0, 0, 0])
    ensures At(DYNAMIC, 35, [0, 0, 0]) && At(DYNAMIC, 38, [0, 0, 0]) && At(DYNAMIC, 41, [0, 0, 0])
    ensures At(DYNAMIC, 44, [0, 0, 0])
  {
    hide BitAt;
    ByteIs(DYNAMIC, 2, [1, 1, 1, 0, 0, 1, 0, 0]);
    ByteIs(DYNAMIC, 3, [1, 0, 0, 0, 0, 0, 0, 0]);
    ByteIs(DYNAMIC, 4, [0, 0, 0, 0, 0, 0, 0, 0]);
    ByteIs(DYNAMIC, 5, [0, 0, 0, 0, 0, 0, 0, 0]);
  }

  lemma MoreOrderBits()
    ensures At(DYNAMIC, 47, [0, 0, 0]) && At(DYNAMIC, 50, [0, 0, 0]) && At(DYNAMIC, 53, [0, 0, 0])
    ensures At(DYNAMIC, 56, [1, 1, 0]) && At(DYNAMIC, 59, [0, 0, 0]) && At(DYNAMIC, 62, [0, 0, 0])
    ensures At(DYNAMIC, 65, [0, 0, 0]) && At(DYNAMIC, 68, [0, 1, 0])
  {
    hide BitAt;
    ByteIs(DYNAMIC, 5, [0, 0, 0, 0, 0, 0, 0, 0]);
    ByteIs(DYNAMIC, 6, [0, 0, 0, 0, 0, 0, 0, 0]);
    ByteIs(DYNAMIC, 7, [1, 1, 0, 0, 0, 0, 0, 0]);
    ByteIs(DYNAMIC, 8, [0, 0, 0, 0, 0, 1, 0, 1]);
  }

  lemma ItemBitsA()
    ensures At(DYNAMIC, 71, [1, 0]) && At(DYNAMIC, 73, [0, 1, 1, 0, 1, 0, 1]) && At(DYNAMIC, 80, [1, 1, 0])
    ensures At(DYNAMIC, 83, [1, 1, 1]) && At(DYNAMIC, 86, [0, 0]) && At(DYNAMIC, 88, [1, 0])
  {
    hide BitAt;
    ByteIs(DYNAMIC, 8, [0, 0, 0, 0, 0, 1, 0, 1]);
    ByteIs(DYNAMIC, 9, [0, 0, 1, 1, 0, 1, 0, 1]);
    ByteIs(DYNAMIC, 10, [1, 1, 0, 1, 1, 1, 0, 0]);
    ByteIs(DYNAMIC, 11, [1, 0, 1, 1, 1, 1, 1, 1]);
  }

  lemma ItemBitsB()
    ensures At(DYNAMIC, 90, [1, 1, 1, 1, 1, 1, 1]) && At(DYNAMIC, 97, [0, 1]) && At(DYNAMIC, 99, [1, 1, 1])
    ensures At(DYNAMIC, 102, [0, 1]) && At(DYNAMIC, 104, [0, 0, 1]) && At(DYNAMIC, 107, [0, 0])
    ensures At(DYNAMIC, 109, [0, 0])
  {
    hide BitAt;
    ByteIs(DYNAMIC, 11, [1, 0, 1, 1, 1, 1, 1, 1]);
    ByteIs(DYNAMIC, 12, [1, 0, 1, 1, 1, 1, 0, 1]);
    ByteIs(DYNAMIC, 13, [0, 0, 1, 0, 0, 0, 0, 1]);
  }

  lemma DataBitsOf()
    ensures At(DYNAMIC, 111, [1, 0, 0]) && At(DYNAMIC, 114, [1, 0, 1]) && At(DYNAMIC, 117, [1, 1, 1])
    ensures At(DYNAMIC, 120, [0])
  {
    hide BitAt;
    ByteIs(DYNAMIC, 13, [0, 0, 1, 0, 0, 0, 0, 1]);
    ByteIs(DYNAMIC, 14, [0, 0, 1, 0, 1, 1, 1, 1]);
    ByteIs(DYNAMIC, 15, [0, 0, 0, 0, 0, 0, 0, 0]);
  }

  /** Lengths for the code length symbols 1, 3, 16, 17 and 18. */
  function CL(): (cl: seq<nat>)
    ensures |cl| == 19
  {
    seq(19, s => if s == 1 || s == 17 || s == 18 then 2 else if s == 3 || s == 16 then 3 else 0)
  }

  lemma ClCounts(b: nat)
    ensures Count(CL(), b, 1) == if b == 0 then 1 else 0
    ensures b > 0 ==> Count(CL(), b, 3) == (if b == 2 then 1 else 0)
    ensures b > 0 ==> Count(CL(), b, 16) == (if b == 2 then 1 else if b == 3 then 1 else 0)
    ensures b > 0 ==> Count(CL(), b, 17) == (if b == 2 then 1 else if b == 3 then 2 else 0)
    ensures b > 0 ==> Count(CL(), b, 18) == (if b == 2 then 2 else if b == 3 then 2 else 0)
    ensures b > 0 ==> Count(CL(), b, 19) == (if b == 2 then 3 else if b == 3 then 2 else 0)
  {
    T.CountNone(CL(), b);
    T.CountRun(CL(), b, 0, 1, 0);
    T.CountRun(CL(), b, 1, 2, 2);
    T.CountRun(CL(), b, 2, 3, 0);
    T.CountRun(CL(), b, 3, 4, 3);
    T.CountRun(CL(), b, 4, 16, 0);
    T.CountRun(CL(), b, 16, 17, 3);
    T.CountRun(CL(), b, 17, 19, 2);
    T.CountRun(CL(), b, 17, 18, 2);
  }

  lemma ClCodes()
    ensures Code(CL(), 1) == 0 && Code(CL(), 17) == 1 && Code(CL(), 18) == 2 && Code(CL(), 3) == 6 && Code(CL(), 16) == 7
  {
    hide Count;
    ClCounts(1);
    ClCounts(2);
    ClCounts(3);
    assert NextCode(CL(), 1) == 0;
    assert NextCode(CL(), 2) == 0;
    assert NextCode(CL(), 3) == 6;
  }

  /** Symbols of length 0 add nothing. */
  lemma {:induction false} NoShare(lens: seq<nat>, from: nat, to: nat)
    requires ValidLengths(lens) && from <= to <= |lens| && forall i :: from <= i < to ==> lens[i] == 0
    ensures KraftTo(lens, to) == KraftTo(lens, from)
  {
    if from < to {
      NoShare(lens, from, to - 1);
    }
  }

  lemma ClAccepted()
    ensures ValidLengths(CL()) && Accepted(CL())
  {
    hide KraftTo, Pow2;
    T.SmallPowers();
    NoKraft(CL());
    NoShare(CL(), 0, 1);
    RunKraft(CL(), 1, 2, 2, 8192);
    NoShare(CL(), 2, 3);
    RunKraft(CL(), 3, 4, 3, 4096);
    NoShare(CL(), 4, 16);
    RunKraft(CL(), 16, 17, 3, 4096);
    RunKraft(CL(), 17, 19, 2, 8192);
  }

  lemma ThreeBits()
    ensures ToLE(0, 3) == [0, 0, 0] && ToLE(2, 3) == [0, 1, 0] && ToLE(3, 3) == [1, 1, 0]
  {
  }

  /** The length in place k of the order. */
  ghost predicate ClAt(k: nat)
  {
    |CLCL_ORDER| == 19 && k < 19 && CLCL_ORDER[k] < 19 && At(DYNAMIC, 17 + 3 * k, ToLE(CL()[CLCL_ORDER[k]], 3))
  }

  lemma ClInPlace()
    ensures ClAt(0) && ClAt(1) && ClAt(2) && ClAt(3) && ClAt(4) && ClAt(5) && ClAt(6) && ClAt(7) && ClAt(8) && ClAt(9)
  {
    hide At, ToLE;
    OrderBits();
    ThreeBits();
  }

  lemma ClBehind()
    ensures ClAt(10) && ClAt(11) && ClAt(12) && ClAt(13) && ClAt(14) && ClAt(15) && ClAt(16) && ClAt(17)
  {
    hide At, ToLE;
    MoreOrderBits();
    ThreeBits();
  }

  lemma {:induction false} ClBitsAt(n: nat)
    requires n <= 18 && forall k :: 0 <= k < n ==> ClAt(k)
    ensures At(DYNAMIC, 17, ClBits(CL(), n))
  {
    hide CL;
    if n > 0 {
      ClBitsAt(n - 1);
      assert ClAt(n - 1);
      AtSplit(DYNAMIC, 17, ClBits(CL(), n - 1), ToLE(CL()[CLCL_ORDER[n - 1]], 3));
    }
  }

  lemma ClFound()
    ensures ClLengths(DYNAMIC, 17, 18) == CL()
  {
    hide ClAt, ClBits, ClLengths;
    ClInPlace();
    ClBehind();
    ClBitsAt(18);
    ClWithin();
    ClDecodes(DYNAMIC, 17, CL(), 18);
  }

  lemma ClWithin()
    ensures ClOk(CL(), 18)
  {
  }

  // ---------- its code lengths ----------

  lemma ItemSymbols()
    ensures NextSymbol(CL(), DYNAMIC, 71) == Some(18)
    ensures NextSymbol(CL(), DYNAMIC, 80) == Some(3)
    ensures NextSymbol(CL(), DYNAMIC, 83) == Some(16)
    ensures NextSymbol(CL(), DYNAMIC, 88) == Some(18)
    ensures NextSymbol(CL(), DYNAMIC, 97) == Some(17)
    ensures NextSymbol(CL(), DYNAMIC, 102) == Some(17)
    ensures NextSymbol(CL(), DYNAMIC, 107) == Some(1)
    ensures NextSymbol(CL(), DYNAMIC, 109) == Some(1)
  {
    hide At, Accepted, Code, NextSymbol;
    ItemBitsA();
    ItemBitsB();
    ClAccepted();
    ClCodes();
    SymbolIs(DYNAMIC, 71, CL(), 18, [1, 0]);
    SymbolIs(DYNAMIC, 80, CL(), 3, [1, 1, 0]);
    SymbolIs(DYNAMIC, 83, CL(), 16, [1, 1, 1]);
    SymbolIs(DYNAMIC, 88, CL(), 18, [1, 0]);
    SymbolIs(DYNAMIC, 97, CL(), 17, [0, 1]);
    SymbolIs(DYNAMIC, 102, CL(), 17, [0, 1]);
    SymbolIs(DYNAMIC, 107, CL(), 1, [0, 0]);
    SymbolIs(DYNAMIC, 109, CL(), 1, [0, 0]);
  }

  lemma ItemNumbers()
    ensures Number(DYNAMIC, 73, 7) == 86
    ensures Number(DYNAMIC, 86, 2) == 0
    ensures Number(DYNAMIC, 90, 7) == 127
    ensures Number(DYNAMIC, 99, 3) == 7
    ensures Number(DYNAMIC, 104, 3) == 4
  {
    hide At, Number;
    ItemBitsA();
    ItemBitsB();
    NumberIs(DYNAMIC, 73, [0, 1, 1, 0, 1, 0, 1]);
    NumberIs(DYNAMIC, 86, [0, 0]);
    NumberIs(DYNAMIC, 90, [1, 1, 1, 1, 1, 1, 1]);
    NumberIs(DYNAMIC, 99, [1, 1, 1]);
    NumberIs(DYNAMIC, 104, [0, 0, 1]);
  }

  /** The lengths read so far, after each of the first seven symbols. */
  function Read(k: nat): (acc: seq<nat>)
    requires k <= 8
  {
    if k == 0 then []
    else Read(k - 1) + (if k == 1 then Repeat(0, 97) else if k == 2 then [3] else if k == 3 then Repeat(3, 3)
                        else if k == 4 then Repeat(0, 138) else if k == 5 then Repeat(0, 10)
                        else if k == 6 then Repeat(0, 7) else [1])
  }

  lemma ReadSizes()
    ensures |Read(0)| == 0 && |Read(1)| == 97 && |Read(2)| == 98 && |Read(3)| == 101 && |Read(4)| == 239
    ensures |Read(5)| == 249 && |Read(6)| == 256 && |Read(7)| == 257 && |Read(8)| == 258
    ensures Read(2)[97] == 3
  {
  }

  lemma LengthSteps()
    ensures DecodeLengthStep(DYNAMIC, CL(), 71, Read(0), 258) == Lengths(Repeat(0, 97), 80)
    ensures DecodeLengthStep(DYNAMIC, CL(), 80, Read(1), 258) == Lengths([3], 83)
    ensures DecodeLengthStep(DYNAMIC, CL(), 83, Read(2), 258) == Lengths(Repeat(3, 3), 88)
    ensures DecodeLengthStep(DYNAMIC, CL(), 88, Read(3), 258) == Lengths(Repeat(0, 138), 97)
    ensures DecodeLengthStep(DYNAMIC, CL(), 97, Read(4), 258) == Lengths(Repeat(0, 10), 102)
    ensures DecodeLengthStep(DYNAMIC, CL(), 102, Read(5), 258) == Lengths(Repeat(0, 7), 107)
    ensures DecodeLengthStep(DYNAMIC, CL(), 107, Read(6), 258) == Lengths([1], 109)
    ensures DecodeLengthStep(DYNAMIC, CL(), 109, Read(7), 258) == Lengths([1], 111)
  {
    hide NextSymbol, Number, Read, Repeat;
    ItemSymbols();
    ItemNumbers();
    ReadSizes();
  }

  lemma LengthsRead()
    ensures DecodeLengths(DYNAMIC, CL(), 71, [], 258) == Done(Read(8), 111)
  {
    hide DecodeLengthStep, Repeat, CL;
    LengthSteps();
    ReadSizes();
    assert DecodeLengths(DYNAMIC, CL(), 111, Read(8), 258) == Done(Read(8), 111);
    assert DecodeLengths(DYNAMIC, CL(), 109, Read(7), 258) == Done(Read(8), 111);
    assert DecodeLengths(DYNAMIC, CL(), 107, Read(6), 258) == Done(Read(8), 111);
    assert DecodeLengths(DYNAMIC, CL(), 102, Read(5), 258) == Done(Read(8), 111);
    assert DecodeLengths(DYNAMIC, CL(), 97, Read(4), 258) == Done(Read(8), 111);
    assert DecodeLengths(DYNAMIC, CL(), 88, Read(3), 258) == Done(Read(8), 111);
    assert DecodeLengths(DYNAMIC, CL(), 83, Read(2), 258) == Done(Read(8), 111);
    assert DecodeLengths(DYNAMIC, CL(), 80, Read(1), 258) == Done(Read(8), 111);
    assert DecodeLengths(DYNAMIC, CL(), 71, Read(0), 258) == Done(Read(8), 111);
  }

  // ---------- its trees and its data ----------

  function LL(): (ll: seq<nat>)
    ensures |ll| == 288
  {
    seq(288, s => if 97 <= s <= 100 then 3 else if s == 256 then 1 else 0)
  }

  function DL(): (dl: seq<nat>)
    ensures |dl| == 32
  {
    seq(32, d => if d == 0 then 1 else 0)
  }

  lemma ReadAll()
    ensures |Read(8)| == 258
    ensures forall s :: 0 <= s < 258 ==> Read(8)[s] == if 97 <= s <= 100 then 3 else if s >= 256 then 1 else 0
  {
    ReadSizes();
    assert Read(4) == Read(3) + Repeat(0, 138);
  }

  lemma TreesFound()
    ensures Pad(Read(8)[..257], 288) == LL() && Pad(Read(8)[257..], 32) == DL()
  {
    hide Read;
    ReadAll();
  }

  lemma TreesAccepted()
    ensures ValidLengths(LL()) && Accepted(LL()) && ValidLengths(DL()) && Accepted(DL())
  {
    hide KraftTo, Pow2;
    T.SmallPowers();
    FourteenBits();
    NoKraft(LL());
    NoShare(LL(), 0, 97);
    RunKraft(LL(), 97, 101, 3, 4096);
    NoShare(LL(), 101, 256);
    RunKraft(LL(), 256, 257, 1, 16384);
    NoShare(LL(), 257, 288);
    OnePresent(32);
  }

  lemma FourteenBits()
    ensures Pow2(14) == 16384
  {
    T.SmallPowers();
  }

  lemma {:induction false} OnePresent(n: nat)
    requires n <= 32
    ensures NumPresent(DL(), n) <= 1
    ensures n == 0 ==> NumPresent(DL(), n) == 0
  {
    if n > 1 {
      OnePresent(n - 1);
    }
  }

  lemma DataCounts(b: nat)
    ensures b > 0 ==> Count(LL(), b, 97) == 0 && Count(LL(), b, 98) == (if b == 3 then 1 else 0)
    ensures b > 0 ==> Count(LL(), b, 100) == (if b == 3 then 3 else 0) && Count(LL(), b, 256) == (if b == 3 then 4 else 0)
    ensures b > 0 ==> Count(LL(), b, 288) == (if b == 3 then 4 else if b == 1 then 1 else 0)
  {
    hide Count;
    T.CountNone(LL(), b);
    T.CountRun(LL(), b, 0, 97, 0);
    T.CountRun(LL(), b, 97, 98, 3);
    T.CountRun(LL(), b, 97, 100, 3);
    T.CountRun(LL(), b, 97, 101, 3);
    T.CountRun(LL(), b, 101, 256, 0);
    T.CountRun(LL(), b, 256, 257, 1);
    T.CountRun(LL(), b, 257, 288, 0);
  }

  lemma DataCodes()
    ensures Code(LL(), 97) == 4 && Code(LL(), 98) == 5 && Code(LL(), 100) == 7 && Code(LL(), 256) == 0
  {
    hide Count;
    DataCounts(1);
    DataCounts(2);
    DataCounts(3);
    assert NextCode(LL(), 1) == 0;
    assert NextCode(LL(), 2) == 2;
    assert NextCode(LL(), 3) == 4;
  }

  lemma DataSymbols()
    ensures NextSymbol(LL(), DYNAMIC, 111) == Some(97) && NextSymbol(LL(), DYNAMIC, 114) == Some(98)
    ensures NextSymbol(LL(), DYNAMIC, 117) == Some(100) && NextSymbol(LL(), DYNAMIC, 120) == Some(256)
  {
    hide At, Accepted, Code, NextSymbol;
    DataBitsOf();
    TreesAccepted();
    DataCodes();
    SymbolIs(DYNAMIC, 111, LL(), 97, [1, 0, 0]);
    SymbolIs(DYNAMIC, 114, LL(), 98, [1, 0, 1]);
    SymbolIs(DYNAMIC, 117, LL(), 100, [1, 1, 1]);
    SymbolIs(DYNAMIC, 120, LL(), 256, [0]);
  }

  lemma DataSteps()
    ensures var ll, dl := LL(), DL();
            && DecodeStep(DYNAMIC, ll, dl, 111, []) == More([97], 114)
            && DecodeStep(DYNAMIC, ll, dl, 114, [97]) == More([97, 98], 117)
            && DecodeStep(DYNAMIC, ll, dl, 117, [97, 98]) == More([97, 98, 100], 120)
            && DecodeStep(DYNAMIC, ll, dl, 120, [97, 98, 100]) == End(121)
  {
    hide NextSymbol;
    DataSymbols();
  }

  lemma DataDecoded(maxOutput: nat)
    requires maxOutput == 0 || maxOutput >= 3
    ensures InflateSymbols(DYNAMIC, LL(), DL(), 111, [], maxOutput) == Done([97, 98, 100], 121)
  {
    hide DecodeStep, LL, DL;
    DataSteps();
    var ll, dl := LL(), DL();
    assert InflateSymbols(DYNAMIC, ll, dl, 120, [97, 98, 100], maxOutput) == Done([97, 98, 100], 121);
    assert InflateSymbols(DYNAMIC, ll, dl, 117, [97, 98], maxOutput) == Done([97, 98, 100], 121);
    assert InflateSymbols(DYNAMIC, ll, dl, 114, [97], maxOutput) == Done([97, 98, 100], 121);
  }

  lemma HeadNumbers()
    ensures BitAt(DYNAMIC, 0) == 1 && Number(DYNAMIC, 1, 2) == 2
    ensures Number(DYNAMIC, 3, 5) == 0 && Number(DYNAMIC, 8, 5) == 0 && Number(DYNAMIC, 13, 4) == 14
  {
    hide At, Number, BitAt;
    HeadBits();
    ByteIs(DYNAMIC, 0, [1, 0, 1, 0, 0, 0, 0, 0]);
    NumberIs(DYNAMIC, 1, [0, 1]);
    NumberIs(DYNAMIC, 3, [0, 0, 0, 0, 0]);
    NumberIs(DYNAMIC, 8, [0, 0, 0, 0, 0]);
    NumberIs(DYNAMIC, 13, [0, 1, 1, 1]);
  }

  lemma DynamicFound()
    ensures DynamicTrees(DYNAMIC, 3) == Done(TreePair(LL(), DL()), 111)
  {
    hide Number, ClLengths, CL, DecodeLengths, Read, Pad, Accepted, LL, DL;
    HeadNumbers();
    ClFound();
    ClAccepted();
    LengthsRead();
    ReadAll();
    TreesFound();
    TreesAccepted();
    EndCodeThere();
  }

  lemma EndCodeThere()
    ensures LL()[256] == 1
  {
  }

  /** A dynamic block with every kind of code length symbol, three literals and the end code. */
  lemma DynamicExample(settings: DecompressSettings)
    requires settings.maxOutput == 0 || settings.maxOutput >= 3
    ensures Inflated([0x05, 0xC0, 0x27, 0x01, 0x00, 0x00, 0x00, 0x03, 0xA0, 0xAC, 0x3B, 0xFD, 0xBD, 0x84, 0xF4, 0x00],
                     [], settings) == Done([97, 98, 100], 121)
  {
    hide InflateSymbols, LL, DL, DynamicTrees, BitAt, Number;
    HeadNumbers();
    DynamicFound();
    DataDecoded(settings.maxOutput);
    OneBlock(DYNAMIC, settings, 2);
  }
}
