/**
 Whole deflate streams: blocks of the three kinds, the bits a list of blocks is written as, and
 the theorem that any such stream inflates to what its blocks stand for.
 */
module DeflateStream {
  import opened Bits
  import opened DecodeTables
  import opened BitReaders
  import opened Lz77
  import opened InflateSpec
  import opened FixedTrees
  import opened DeflateFormat

  datatype BlockData =
    | Stored(bytes: seq<byte>)
    | Fixed(tokens: seq<Token>)
    | Dynamic(header: Header, tokens: seq<Token>)

  /** A block that may follow n bytes of output. */
  ghost predicate BlockOk(b: BlockData, n: nat)
  {
    match b
    case Stored(bytes) => |bytes| <= 65535
    case Fixed(ts) => Coded(ts) && AllFit(ts, n)
    case Dynamic(h, ts) =>
      && HeaderOk(h) && Trees(HeaderLL(h), HeaderDL(h)) && HeaderLL(h)[END_CODE] > 0
      && Coded(ts) && AllFit(ts, n) && AllHaveCodes(ts, HeaderLL(h), HeaderDL(h))
  }

  ghost function ExpandBlock(b: BlockData, out: seq<byte>): (r: seq<byte>)
    requires BlockOk(b, |out|)
    ensures |r| >= |out|
  {
    match b
    case Stored(bytes) => out + bytes
    case Fixed(ts) => Expand(ts, out)
    case Dynamic(_, ts) => Expand(ts, out)
  }

  // ---------- bits of a block ----------

  /** Zero bits up to the next byte. */
  function Padding(pos: nat): (bs: seq<bit>)
    ensures |bs| < 8 && (pos + |bs|) % 8 == 0
  {
    ToLE(0, (8 - pos % 8) % 8)
  }

  function BytesBits(bytes: seq<byte>): (bs: seq<bit>)
    ensures |bs| == 8 * |bytes|
  {
    if |bytes| == 0 then [] else BytesBits(bytes[..|bytes| - 1]) + ToLE(bytes[|bytes| - 1], 8)
  }

  lemma {:induction false} WindowBytes(data: seq<byte>, p: nat, n: nat)
    requires p + n <= |data|
    ensures Window(data, 8 * p, 8 * n) == BytesBits(data[p..p + n])
  {
    hide Window, ToLE;
    if n == 0 {
      assert |Window(data, 8 * p, 0)| == 0;
    } else {
      WindowBytes(data, p, n - 1);
      WindowSplit(data, 8 * p, 8 * (n - 1), 8);
      assert 8 * p + 8 * (n - 1) == 8 * (p + n - 1);
      WindowByte(data, p + n - 1);
      assert data[p..p + n][..n - 1] == data[p..p + n - 1];
      assert data[p..p + n][n - 1] == data[p + n - 1];
    }
  }

  lemma {:induction false} BytesBitsInjective(a: seq<byte>, b: seq<byte>)
    requires |a| == |b| && BytesBits(a) == BytesBits(b)
    ensures a == b
  {
    hide ToLE;
    if |a| > 0 {
      var n := |a| - 1;
      CutAt(BytesBits(a), BytesBits(a[..n]), ToLE(a[n], 8), BytesBits(b[..n]), ToLE(b[n], 8));
      BytesBitsInjective(a[..n], b[..n]);
      ByteInjective(a[n], b[n]);
      assert a == a[..n] + [a[n]] && b == b[..n] + [b[n]];
    }
  }

  lemma ByteInjective(x: byte, y: byte)
    requires ToLE(x, 8) == ToLE(y, 8)
    ensures x == y
  {
    FromToLE(x, 8);
    FromToLE(y, 8);
    assert Pow2(8) == 256;
    LowSmall(x, 8);
    LowSmall(y, 8);
  }

  /** The bits after the three header bits of a block that starts at pos. */
  ghost function BodyBits(b: BlockData, pos: nat): seq<bit>
    requires exists n :: BlockOk(b, n)
  {
    match b
    case Stored(bytes) =>
      Padding(pos + 3) + ((ToLE(|bytes|, 16) + ToLE(65535 - |bytes|, 16)) + BytesBits(bytes))
    case Fixed(ts) => DataBits(ts, FixedLitLen(), FixedDistance())
    case Dynamic(h, ts) => HeaderBits(h) + DataBits(ts, HeaderLL(h), HeaderDL(h))
  }

  function TypeBits(b: BlockData): (bs: seq<bit>)
    ensures |bs| == 2
  {
    match b
    case Stored(_) => [0, 0]
    case Fixed(_) => [1, 0]
    case Dynamic(_, _) => [0, 1]
  }

  ghost function BlockBits(b: BlockData, final: bit, pos: nat): seq<bit>
    requires exists n :: BlockOk(b, n)
  {
    ([final] + TypeBits(b)) + BodyBits(b, pos)
  }

  // ---------- a block inflates ----------

  lemma FixedAlwaysHasCodes(ts: seq<Token>)
    ensures AllHaveCodes(ts, FixedLitLen(), FixedDistance())
  {
    hide LengthIndex, DistanceIndex;
    FixedLitLenAccepted();
    FixedDistanceAccepted();
  }

  lemma FixedInflates(data: seq<byte>, pos: nat, ts: seq<Token>, out: seq<byte>, maxOutput: nat)
    requires Coded(ts) && AllFit(ts, |out|) && WithinLimit(|Expand(ts, out)|, maxOutput)
    requires At(data, pos, DataBits(ts, FixedLitLen(), FixedDistance())) && pos <= 8 * |data|
    ensures HuffmanBlock(data, 1, pos, out, maxOutput)
         == Done(Expand(ts, out), pos + |DataBits(ts, FixedLitLen(), FixedDistance())|)
  {
    hide Accepted, FixedLitLen, FixedDistance, Expand, AllFit, DataBits, At;
    FixedLitLenAccepted();
    FixedDistanceAccepted();
    FixedAlwaysHasCodes(ts);
    DataDecodes(data, pos, FixedLitLen(), FixedDistance(), ts, out, maxOutput);
  }

  lemma DynamicInflates(data: seq<byte>, pos: nat, h: Header, ts: seq<Token>, out: seq<byte>, maxOutput: nat)
    requires BlockOk(Dynamic(h, ts), |out|) && WithinLimit(|Expand(ts, out)|, maxOutput)
    requires At(data, pos, HeaderBits(h) + DataBits(ts, HeaderLL(h), HeaderDL(h))) && pos <= 8 * |data|
    ensures HuffmanBlock(data, 2, pos, out, maxOutput)
         == Done(Expand(ts, out), pos + |HeaderBits(h) + DataBits(ts, HeaderLL(h), HeaderDL(h))|)
  {
    hide Accepted, Expand, AllFit, DataBits, At, HeaderOk, HeaderBits, HeaderLL, HeaderDL, DynamicTrees, Coded,
         InflateSymbols, AllHaveCodes, Trees;
    AtSplit(data, pos, HeaderBits(h), DataBits(ts, HeaderLL(h), HeaderDL(h)));
    HeaderDecodes(data, pos, h);
    DataDecodes(data, pos + |HeaderBits(h)|, HeaderLL(h), HeaderDL(h), ts, out, maxOutput);
  }

  /** The stream bits of a two-byte number. */
  lemma Word16At(data: seq<byte>, p: nat, v: nat)
    requires v <= 65535 && At(data, 8 * p, ToLE(v, 16))
    ensures p + 1 < |data| && Word16(data, p) == v
  {
    hide Window, ToLE, At, Low, Shr, Shl;
    AtBounds(data, 8 * p, ToLE(v, 16));
    ToLESplit(v, 8, 8);
    AtSplit(data, 8 * p, ToLE(v, 8), ToLE(Shr(v, 8), 8));
    ByteAtPlace(data, p, v);
    ByteAtPlace(data, p + 1, Shr(v, 8));
    Word16Parts(v);
  }

  lemma ByteAtPlace(data: seq<byte>, p: nat, v: nat)
    requires p < |data| && At(data, 8 * p, ToLE(v, 8))
    ensures data[p] == Low(v, 8)
  {
    WindowByte(data, p);
    FromToLE(v, 8);
    FromToLE(data[p], 8);
    assert Pow2(8) == 256;
    LowSmall(data[p], 8);
  }

  lemma Word16Parts(v: nat)
    requires v <= 65535
    ensures v == Low(v, 8) + 256 * Low(Shr(v, 8), 8)
  {
    LowHigh(v, 8);
    assert Pow2(8) == 256;
    assert Pow2(12) == 4096;
    assert Pow2(16) == 65536;
    ShrBound(v, 8, 8);
    LowSmall(Shr(v, 8), 8);
    ShlEight(Shr(v, 8));
  }

  lemma ShlEight(x: nat)
    ensures Shl(x, 8) == 256 * x
  {
    ShlFour(x);
    ShlFour(Shl(x, 4));
    ShlShl(x, 4, 4);
  }

  lemma ShlFour(x: nat)
    ensures Shl(x, 4) == 16 * x
  {
    ShlTwo(x);
    ShlTwo(Shl(x, 2));
    ShlShl(x, 2, 2);
  }

  lemma ShlTwo(x: nat)
    ensures Shl(x, 2) == 4 * x
  {
    assert Shl(x, 1) == 2 * x;
  }

  lemma ThreeParts(data: seq<byte>, p: nat, a: seq<bit>, b: seq<bit>, c: seq<bit>)
    requires |a| == |b| == 16 && At(data, 8 * p, (a + b) + c)
    ensures At(data, 8 * p, a) && At(data, 8 * (p + 2), b) && At(data, 8 * (p + 4), c)
  {
    hide At;
    AtSplit(data, 8 * p, a + b, c);
    AtSplit(data, 8 * p, a, b);
  }

  /** The parts of a stored block in place, from the byte p where its length is. */
  lemma StoredParts(data: seq<byte>, p: nat, bytes: seq<byte>)
    requires |bytes| <= 65535
    requires At(data, 8 * p, (ToLE(|bytes|, 16) + ToLE(65535 - |bytes|, 16)) + BytesBits(bytes))
    ensures p + 4 + |bytes| <= |data|
    ensures Word16(data, p) == |bytes| && Word16(data, p + 2) == 65535 - |bytes|
    ensures Slice(data, p + 4, |bytes|) == bytes
  {
    hide Window, ToLE, At, BytesBits, Word16, Slice;
    ThreeParts(data, p, ToLE(|bytes|, 16), ToLE(65535 - |bytes|, 16), BytesBits(bytes));
    Word16At(data, p, |bytes|);
    Word16At(data, p + 2, 65535 - |bytes|);
    BytesInPlace(data, p + 4, bytes);
  }

  /** n bytes of the data, from p. */
  function Slice(data: seq<byte>, p: nat, n: nat): (r: seq<byte>)
    requires p + n <= |data|
    ensures |r| == n
  {
    data[p..p + n]
  }

  lemma SliceBits(data: seq<byte>, p: nat, n: nat)
    requires p + n <= |data|
    ensures Window(data, 8 * p, 8 * n) == BytesBits(Slice(data, p, n))
  {
    hide Window, BytesBits;
    WindowBytes(data, p, n);
  }

  lemma BytesInPlace(data: seq<byte>, p: nat, bytes: seq<byte>)
    requires At(data, 8 * p, BytesBits(bytes))
    ensures p + |bytes| <= |data| && Slice(data, p, |bytes|) == bytes
  {
    hide Window, BytesBits, At, Slice;
    AtWindow(data, 8 * p, BytesBits(bytes), 8 * |bytes|);
    SliceBits(data, p, |bytes|);
    BytesBitsInjective(Slice(data, p, |bytes|), bytes);
  }

  lemma AtWindow(data: seq<byte>, pos: nat, bs: seq<bit>, n: nat)
    requires At(data, pos, bs) && n == |bs|
    ensures pos + n <= 8 * |data| && Window(data, pos, n) == bs
  {
  }

  /** An empty stored block that ends the data. The decoder wants a byte behind the block's length. */
  predicate Refused(b: BlockData, end: nat, data: seq<byte>)
  {
    b == Stored([]) && end == 8 * |data|
  }

  lemma StoredInflates(data: seq<byte>, pos: nat, bytes: seq<byte>, out: seq<byte>, ignoreNlen: bool)
    requires |bytes| <= 65535
    requires At(data, pos, BodyBits'(bytes, pos))
    ensures StoredBlock(data, pos, out, ignoreNlen)
         == var pos' := pos + |BodyBits'(bytes, pos)|;
            if Refused(Stored(bytes), pos', data) then Fail(52) else Done(out + bytes, pos')
  {
    hide ToLE, At, BytesBits, Word16;
    var p := (pos + 7) / 8;
    assert pos + |Padding(pos)| == 8 * p;
    AtSplit(data, pos, Padding(pos), (ToLE(|bytes|, 16) + ToLE(65535 - |bytes|, 16)) + BytesBits(bytes));
    StoredParts(data, p, bytes);
  }

  function BodyBits'(bytes: seq<byte>, pos: nat): seq<bit>
    requires |bytes| <= 65535
  {
    Padding(pos) + ((ToLE(|bytes|, 16) + ToLE(65535 - |bytes|, 16)) + BytesBits(bytes))
  }

  function TypeNumber(b: BlockData): nat
  {
    match b
    case Stored(_) => 0
    case Fixed(_) => 1
    case Dynamic(_, _) => 2
  }

  lemma TypeDecodes(data: seq<byte>, pos: nat, b: BlockData)
    requires At(data, pos, TypeBits(b))
    ensures Number(data, pos, 2) == TypeNumber(b)
  {
    var bs := TypeBits(b);
    assert bs[1..] == [bs[1]];
    assert FromLE([bs[1]]) == bs[1] by { assert [bs[1]][1..] == []; }
  }

  /** One block in place inflates to its expansion. */
  lemma BodyInflates(data: seq<byte>, pos: nat, b: BlockData, out: seq<byte>, settings: DecompressSettings)
    requires BlockOk(b, |out|) && WithinLimit(|ExpandBlock(b, out)|, settings.maxOutput)
    requires At(data, pos + 3, BodyBits(b, pos))
    ensures pos + 3 <= 8 * |data|
    ensures Block(data, TypeNumber(b), pos + 3, out, settings)
         == var pos' := pos + 3 + |BodyBits(b, pos)|;
            if Refused(b, pos', data) then Fail(52) else Done(ExpandBlock(b, out), pos')
  {
    hide HuffmanBlock, StoredBlock, DataBits, HeaderBits, Expand, AllFit, HeaderOk, At, HeaderLL, HeaderDL, Accepted,
         ToLE, BytesBits, Padding, Coded, AllHaveCodes, Trees, FixedLitLen, FixedDistance;
    AtBounds(data, pos + 3, BodyBits(b, pos));
    match b
    case Stored(bytes) => StoredInflates(data, pos + 3, bytes, out, settings.ignoreNlen);
    case Fixed(ts) => FixedInflates(data, pos + 3, ts, out, settings.maxOutput);
    case Dynamic(h, ts) => DynamicInflates(data, pos + 3, h, ts, out, settings.maxOutput);
  }

  lemma BlockInflates(data: seq<byte>, pos: nat, b: BlockData, final: bit, out: seq<byte>, settings: DecompressSettings)
    requires BlockOk(b, |out|) && WithinLimit(|ExpandBlock(b, out)|, settings.maxOutput)
    requires At(data, pos, BlockBits(b, final, pos))
    ensures InflateBlocks(data, pos, out, settings)
         == var pos' := pos + |BlockBits(b, final, pos)|;
            if final == 0 then InflateBlocks(data, pos', ExpandBlock(b, out), settings)
            else if Refused(b, pos', data) then Fail(52)
            else Done(ExpandBlock(b, out), pos')
  {
    hide Block, At, BodyBits, TypeBits, TypeNumber, ExpandBlock, BlockOk, Number;
    AtSplit(data, pos, [final] + TypeBits(b), BodyBits(b, pos));
    AtSplit(data, pos, [final], TypeBits(b));
    FinalBit(data, pos, final);
    TypeDecodes(data, pos + 1, b);
    BodyInflates(data, pos, b, out, settings);
  }

  lemma FinalBit(data: seq<byte>, pos: nat, final: bit)
    requires At(data, pos, [final])
    ensures BitAt(data, pos) == final
  {
    assert Window(data, pos, 1)[0] == BitAt(data, pos + 0);
  }

  // ---------- streams ----------

  /** Blocks that may follow each other, after n bytes of output. */
  ghost predicate BlocksOk(bs: seq<BlockData>, out: seq<byte>)
    decreases |bs|, 0
  {
    |bs| == 0 || (BlocksOk(bs[..|bs| - 1], out) && BlockOk(bs[|bs| - 1], |ExpandBlocks(bs[..|bs| - 1], out)|))
  }

  ghost function ExpandBlocks(bs: seq<BlockData>, out: seq<byte>): (r: seq<byte>)
    requires BlocksOk(bs, out)
    ensures |r| >= |out|
    decreases |bs|, 1
  {
    if |bs| == 0 then out else ExpandBlock(bs[|bs| - 1], ExpandBlocks(bs[..|bs| - 1], out))
  }

  /** The bits of blocks that are not the last one. */
  ghost function StreamBits(bs: seq<BlockData>, out: seq<byte>): seq<bit>
    requires BlocksOk(bs, out)
  {
    if |bs| == 0 then []
    else
      var before := StreamBits(bs[..|bs| - 1], out);
      before + BlockBits(bs[|bs| - 1], 0, |before|)
  }

  /** Inflating blocks that are not the last one. */
  lemma {:induction false} PrefixInflates(data: seq<byte>, bs: seq<BlockData>, out: seq<byte>, settings: DecompressSettings)
    requires BlocksOk(bs, out) && WithinLimit(|ExpandBlocks(bs, out)|, settings.maxOutput)
    requires At(data, 0, StreamBits(bs, out))
    ensures InflateBlocks(data, 0, out, settings)
         == InflateBlocks(data, |StreamBits(bs, out)|, ExpandBlocks(bs, out), settings)
    decreases |bs|
  {
    hide At, BlockBits, InflateBlocks, ExpandBlock, BlockOk;
    if |bs| > 0 {
      var cs, b := bs[..|bs| - 1], bs[|bs| - 1];
      var before := StreamBits(cs, out);
      AtSplit(data, 0, before, BlockBits(b, 0, |before|));
      PrefixInflates(data, cs, out, settings);
      BlockInflates(data, |before|, b, 0, ExpandBlocks(cs, out), settings);
    }
  }

  /** Any stream written from blocks inflates to their expansion, whatever bytes follow it; only an empty
      stored block at the very end of the data is refused. */
  lemma StreamInflates(data: seq<byte>, bs: seq<BlockData>, last: BlockData, out: seq<byte>, settings: DecompressSettings)
    requires BlocksOk(bs, out) && BlockOk(last, |ExpandBlocks(bs, out)|)
    requires var before := StreamBits(bs, out); At(data, 0, before + BlockBits(last, 1, |before|))
    requires WithinLimit(|ExpandBlock(last, ExpandBlocks(bs, out))|, settings.maxOutput) && SizeFits(|data|)
    ensures var before := StreamBits(bs, out);
            var end := |before + BlockBits(last, 1, |before|)|;
            Inflated(data, out, settings)
            == if Refused(last, end, data) then Fail(52) else Done(ExpandBlock(last, ExpandBlocks(bs, out)), end)
  {
    hide At, BlockBits, InflateBlocks, ExpandBlock, BlockOk, ExpandBlocks, BlocksOk;
    var before := StreamBits(bs, out);
    AtSplit(data, 0, before, BlockBits(last, 1, |before|));
    PrefixInflates(data, bs, out, settings);
    BlockInflates(data, |before|, last, 1, ExpandBlocks(bs, out), settings);
  }

  /** The stream of one empty stored block is refused, and accepted as soon as any byte follows it. */
  lemma EmptyStoredExample(b: byte, settings: DecompressSettings)
    ensures Inflated([1, 0, 0, 255, 255], [], settings) == Fail(52)
    ensures Inflated([1, 0, 0, 255, 255, b], [], settings) == Done([], 40)
  {
    hide Inflated;
    EmptyStored([1, 0, 0, 255, 255], settings);
    EmptyStored([1, 0, 0, 255, 255, b], settings);
  }

  lemma EmptyStored(d: seq<byte>, settings: DecompressSettings)
    requires 5 <= |d| <= 6 && d[..5] == [1, 0, 0, 255, 255]
    ensures Inflated(d, [], settings) == if |d| == 5 then Fail(52) else Done([], 40)
  {
    assert d[0] == d[..5][0] && d[1] == d[..5][1] && d[2] == d[..5][2] && d[3] == d[..5][3] && d[4] == d[..5][4];
    assert BitAt(d, 0) == 1 && BitAt(d, 1) == 0 && BitAt(d, 2) == 0;
    assert Window(d, 1, 2) == [0, 0];
    assert [0, 0][1..] == [0] && [0][1..] == [];
    assert Number(d, 1, 2) == 0;
  }
}
