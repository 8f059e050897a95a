/**
 The deflate encoder, and the round trip: what it writes is a stream that the decoder turns back
 into the input.
 */
module Deflate {
  import opened Bits
  import opened BitReaders
  import opened BitWriters
  import opened Lz77
  import opened LzHashes
  import opened LzEncode
  import opened InflateSpec
  import opened Inflate
  import opened DeflateFormat
  import opened DeflateStream
  import opened DeflateBlocks

  // ---------- streams so far ----------

  /** Blocks that stand for the first n bytes, and their bits. */
  ghost predicate StreamUpTo(bits: seq<bit>, blocks: seq<BlockData>, data: seq<byte>, n: nat)
  {
    && n <= |data| && BlocksOk(blocks, [])
    && ExpandBlocks(blocks, []) == data[..n] && bits == StreamBits(blocks, [])
  }

  /** A complete stream for the data. */
  ghost predicate StreamFor(bits: seq<bit>, blocks: seq<BlockData>, last: BlockData, data: seq<byte>)
  {
    && BlocksOk(blocks, []) && BlockOk(last, |ExpandBlocks(blocks, [])|) && last != Stored([])
    && ExpandBlock(last, ExpandBlocks(blocks, [])) == data
    && var before := StreamBits(blocks, []);
       bits == before + BlockBits(last, 1, |before|)
  }

  lemma EmptyStream(data: seq<byte>)
    ensures StreamUpTo([], [], data, 0)
  {
  }

  lemma AddBlock(bits: seq<bit>, blocks: seq<BlockData>, data: seq<byte>, a: nat, b: nat, block: BlockData)
    requires StreamUpTo(bits, blocks, data, a) && Covers(block, data, a, b) && exists n :: BlockOk(block, n)
    ensures StreamUpTo(bits + BlockBits(block, 0, |bits|), blocks + [block], data, b)
  {
    hide BlockOk, ExpandBlock, BlockBits;
    assert (blocks + [block])[..|blocks|] == blocks;
  }

  lemma AddLastBlock(bits: seq<bit>, blocks: seq<BlockData>, data: seq<byte>, a: nat, block: BlockData)
    requires StreamUpTo(bits, blocks, data, a) && Covers(block, data, a, |data|) && exists n :: BlockOk(block, n)
    requires block != Stored([])
    ensures StreamFor(bits + BlockBits(block, 1, |bits|), blocks, block, data)
  {
    hide BlockOk, ExpandBlock, BlockBits, StreamBits, ExpandBlocks, BlocksOk;
    assert data[..|data|] == data;
  }

  /** How many bytes a block stands for, if there are as many. */
  function BlockSize(settings: CompressSettings, n: nat): nat
  {
    if settings.btype == 0 then 65535
    else if settings.btype == 1 then n
    else if n / 8 + 8 < 65536 then 65536
    else if n / 8 + 8 > 262144 then 262144
    else n / 8 + 8
  }

  /** Block i is what the settings ask for, for its part of the data. */
  ghost predicate AskedAt(block: BlockData, i: nat, data: seq<byte>, settings: CompressSettings)
  {
    var size := BlockSize(settings, |data|);
    var a := i * size;
    Asked(block, data, a, if a + size > |data| then |data| else a + size, settings)
  }

  ghost predicate AllAsked(blocks: seq<BlockData>, data: seq<byte>, settings: CompressSettings)
  {
    forall i: nat :: i < |blocks| ==> AskedAt(blocks[i], i, data, settings)
  }

  lemma NextAsked(blocks: seq<BlockData>, block: BlockData, data: seq<byte>, settings: CompressSettings)
    requires AllAsked(blocks, data, settings) && AskedAt(block, |blocks|, data, settings)
    ensures AllAsked(blocks + [block], data, settings)
  {
    hide AskedAt;
  }

  lemma NothingAsked(data: seq<byte>, settings: CompressSettings)
    ensures AllAsked([], data, settings)
  {
  }

  /** The output is a complete deflate stream for the data, of blocks as the settings ask for them. */
  ghost predicate Deflated(out: seq<byte>, data: seq<byte>, settings: CompressSettings)
  {
    exists blocks, last, bits :: DeflatedAs(out, data, settings, blocks, last, bits)
  }

  ghost predicate DeflatedAs(out: seq<byte>, data: seq<byte>, settings: CompressSettings, blocks: seq<BlockData>,
                             last: BlockData, bits: seq<bit>)
  {
    StreamFor(bits, blocks, last, data) && At(out, 0, bits) && AllAsked(blocks + [last], data, settings)
  }

  lemma AtExtended(out: seq<byte>, more: seq<byte>, bits: seq<bit>)
    requires At(out, 0, bits)
    ensures At(out + more, 0, bits)
  {
    assert Window(out + more, 0, |bits|) == Window(out, 0, |bits|);
  }

  /** Whatever follows a stream for the data, it inflates to the data. */
  lemma DeflatedInflates(out: seq<byte>, data: seq<byte>, asked: CompressSettings, more: seq<byte>, settings: DecompressSettings)
    requires Deflated(out, data, asked) && SizeFits(|out + more|) && WithinLimit(|data|, settings.maxOutput)
    ensures Inflated(out + more, [], settings).Done? && Inflated(out + more, [], settings).value == data
  {
    hide At, BlockOk, ExpandBlock, BlockBits, StreamBits, ExpandBlocks, BlocksOk, Inflated, SizeFits, AllAsked;
    var blocks, last, bits :| DeflatedAs(out, data, asked, blocks, last, bits);
    AtExtended(out, more, bits);
    StreamInflates(out + more, blocks, last, [], settings);
  }

  /** The output is what was there before, and behind it a complete stream for the data. */
  ghost predicate Appended(before: seq<byte>, out: seq<byte>, data: seq<byte>, settings: CompressSettings)
  {
    exists tail :: Deflated(tail, data, settings) && out == before + tail
  }

  lemma AppendedToNothing(out: seq<byte>, data: seq<byte>, settings: CompressSettings)
    requires Appended([], out, data, settings)
    ensures Deflated(out, data, settings)
  {
    hide Deflated;
    var tail :| Deflated(tail, data, settings) && out == [] + tail;
    assert out == tail;
  }

  lemma WriterDeflated(out: seq<byte>, n: nat, bits: seq<bit>, blocks: seq<BlockData>, last: BlockData, data: seq<byte>,
                       settings: CompressSettings)
    requires bits == Window(out, 0, n) && n <= 8 * |out| && StreamFor(bits, blocks, last, data)
    requires AllAsked(blocks + [last], data, settings)
    ensures Deflated(out, data, settings)
  {
    hide StreamFor, AllAsked;
    assert At(out, 0, bits);
    assert DeflatedAs(out, data, settings, blocks, last, bits);
  }

  // ---------- stored blocks ----------

  lemma {:induction false} BytesBitsConcat(a: seq<byte>, b: seq<byte>)
    ensures BytesBits(a + b) == BytesBits(a) + BytesBits(b)
  {
    hide ToLE;
    if |b| == 0 {
      assert a + b == a;
    } else {
      var n := |a| + |b| - 1;
      assert (a + b)[..n] == a + b[..|b| - 1] && (a + b)[n] == b[|b| - 1];
      BytesBitsConcat(a, b[..|b| - 1]);
    }
  }

  lemma OneByteBits(x: byte)
    ensures BytesBits([x]) == ToLE(x, 8)
  {
    hide ToLE;
    assert BytesBits([x][..0]) == [];
  }

  lemma FiveBytes(a: byte, b: byte, c: byte, d: byte, e: byte)
    ensures BytesBits([a, b, c, d, e]) == ToLE(a, 8) + ((ToLE(b, 8) + ToLE(c, 8)) + (ToLE(d, 8) + ToLE(e, 8)))
  {
    hide ToLE, BytesBits;
    OneByteBits(a);
    OneByteBits(b);
    OneByteBits(c);
    OneByteBits(d);
    OneByteBits(e);
    assert [a, b, c, d, e] == [a] + (([b] + [c]) + ([d] + [e]));
    BytesBitsConcat([a], ([b] + [c]) + ([d] + [e]));
    BytesBitsConcat([b] + [c], [d] + [e]);
    BytesBitsConcat([b], [c]);
    BytesBitsConcat([d], [e]);
  }

  lemma TwoBytes(v: nat)
    requires v <= 65535
    ensures ToLE(v % 256, 8) + ToLE(v / 256, 8) == ToLE(v, 16)
  {
    hide ToLE, Shr, Low, Shl, Pow2;
    ToLESplit(v, 8, 8);
    LowEight(v);
    ToLELow(v, 8);
  }

  lemma LowEight(v: nat)
    ensures Low(v, 8) == v % 256 && Shr(v, 8) == v / 256
  {
    hide Shl, Shr, Low, Pow2;
    EightBits();
    LowHigh(v, 8);
    LowBound(v, 8);
    ShlEight(Shr(v, 8));
  }

  lemma EightBits()
    ensures Pow2(8) == 256
  {
  }

  lemma FirstByteBits(final: bit, pos: nat)
    requires pos % 8 == 0
    ensures ToLE(final, 8) == ([final] + [0, 0]) + Padding(pos + 3)
  {
    hide Shr, ToLE, Padding;
    OneBitNumber(final);
    ToLESplit(final, 1, 7);
    NoHighBits(final);
    ShlZero(2);
    ToLESplit(0, 2, 5);
    ToLEZero(2);
    assert ToLE(0, 2) == [0, 0];
    PaddingAfterHeader(pos);
  }

  lemma NoHighBits(b: bit)
    ensures Shr(b, 1) == 0
  {
    assert Shr(b / 2, 0) == 0;
  }

  lemma PaddingAfterHeader(pos: nat)
    requires pos % 8 == 0
    ensures Padding(pos + 3) == ToLE(0, 5)
  {
    hide ToLE;
    assert (pos + 3) % 8 == 3;
  }

  lemma StoredBlockBits(b: BlockData, final: bit, pos: nat)
    requires b.Stored? && 0 < |b.bytes| <= 65535
    ensures BlockOk(b, 0)
    ensures BlockBits(b, final, pos)
         == ([final] + [0, 0])
            + (Padding(pos + 3) + ((ToLE(|b.bytes|, 16) + ToLE(65535 - |b.bytes|, 16)) + BytesBits(b.bytes)))
  {
    hide ToLE, BytesBits, Padding, BodyBits, BlockOk;
    StoredBody(b, pos);
  }

  lemma StoredBody(b: BlockData, pos: nat)
    requires b.Stored? && 0 < |b.bytes| <= 65535
    ensures BlockOk(b, 0)
    ensures BodyBits(b, pos)
         == Padding(pos + 3) + ((ToLE(|b.bytes|, 16) + ToLE(65535 - |b.bytes|, 16)) + BytesBits(b.bytes))
  {
    hide ToLE, BytesBits, Padding, DataBits, HeaderBits, AllHaveCodes, Trees, HeaderOk, HeaderLL, HeaderDL, Coded,
         AllFit;
    assert BlockOk(b, 0);
  }

  /** BFINAL and BTYPE in one byte, then LEN and NLEN. */
  function StoredHeader(len: nat, final: bit): (bs: seq<byte>)
    requires len <= 65535
  {
    var nlen := 65535 - len;
    [final, len % 256, len / 256, nlen % 256, nlen / 256]
  }

  lemma StoredHeaderBits(len: nat, final: bit)
    requires len <= 65535
    ensures BytesBits(StoredHeader(len, final)) == ToLE(final, 8) + (ToLE(len, 16) + ToLE(65535 - len, 16))
  {
    hide ToLE, BytesBits;
    var nlen := 65535 - len;
    FiveBytes(final, len % 256, len / 256, nlen % 256, nlen / 256);
    TwoBytes(len);
    TwoBytes(nlen);
  }

  /** The five header bytes and the data are the bits of a stored block. */
  lemma StoredBits(bytes: seq<byte>, final: bit, pos: nat)
    requires 0 < |bytes| <= 65535 && pos % 8 == 0
    ensures BlockOk(Stored(bytes), 0)
    ensures BytesBits(StoredHeader(|bytes|, final) + bytes) == BlockBits(Stored(bytes), final, pos)
  {
    hide ToLE, BytesBits, Padding, BlockBits, BlockOk, StoredHeader;
    StoredBlockBits(Stored(bytes), final, pos);
    BytesBitsConcat(StoredHeader(|bytes|, final), bytes);
    StoredHeaderBits(|bytes|, final);
    FirstByteBits(final, pos);
    Regroup([final] + [0, 0], Padding(pos + 3), ToLE(|bytes|, 16) + ToLE(65535 - |bytes|, 16), BytesBits(bytes));
  }

  lemma Regroup(a: seq<bit>, b: seq<bit>, c: seq<bit>, d: seq<bit>)
    ensures ((a + b) + c) + d == a + (b + (c + d))
  {
  }

  lemma StoredCovers(data: seq<byte>, a: nat, n: nat)
    requires a + n <= |data| && 0 < n <= 65535
    ensures Covers(Stored(data[a..a + n]), data, a, a + n)
  {
    assert data[..a] + data[a..a + n] == data[..a + n];
  }

  /** Appends one stored block. */
  method AppendStored(out: ByteVector, data: seq<byte>, datapos: nat, len: nat, final: bit)
    requires datapos + len <= |data| && 0 < len <= 65535
    modifies out
    ensures out.data == old(out.data) + StoredBytes(data[datapos..datapos + len], final)
  {
    var nlen := 65535 - len;
    out.data := out.data + [final, len % 256, len / 256, nlen % 256, nlen / 256];
    out.data := out.data + data[datapos..datapos + len];
  }

  function StoredBytes(bytes: seq<byte>, final: bit): seq<byte>
    requires |bytes| <= 65535
  {
    StoredHeader(|bytes|, final) + bytes
  }

  lemma StoredAppended(out: seq<byte>, blocks: seq<BlockData>, data: seq<byte>, a: nat, n: nat, final: bit)
    requires StreamUpTo(BytesBits(out), blocks, data, a) && a + n <= |data| && 0 < n <= 65535
    ensures var out' := out + StoredBytes(data[a..a + n], final);
            && (final == 0 ==> StreamUpTo(BytesBits(out'), blocks + [Stored(data[a..a + n])], data, a + n))
            && (final == 1 && a + n == |data| ==> StreamFor(BytesBits(out'), blocks, Stored(data[a..a + n]), data))
  {
    hide BytesBits, StreamUpTo, StreamFor, BlockBits, Covers;
    var bytes := data[a..a + n];
    StoredCovers(data, a, n);
    StoredBits(bytes, final, 8 * |out|);
    BytesBitsConcat(out, StoredBytes(bytes, final));
    if final == 0 {
      AddBlock(BytesBits(out), blocks, data, a, a + n, Stored(bytes));
    } else if a + n == |data| {
      AddLastBlock(BytesBits(out), blocks, data, a, Stored(bytes));
    }
  }

  lemma BytesDeflated(out: seq<byte>, blocks: seq<BlockData>, last: BlockData, data: seq<byte>, settings: CompressSettings)
    requires StreamFor(BytesBits(out), blocks, last, data) && AllAsked(blocks + [last], data, settings)
    ensures Deflated(out, data, settings)
  {
    hide Window, StreamFor, BytesBits, AllAsked;
    WindowBytes(out, 0, |out|);
    assert out[0..|out|] == out;
    WriterDeflated(out, 8 * |out|, BytesBits(out), blocks, last, data, settings);
  }

  /** Stored blocks of up to 65535 bytes; none at all for empty data. */
  method DeflateNoCompression(out: ByteVector, data: seq<byte>, ghost settings: CompressSettings) returns (error: nat)
    requires settings.btype == 0
    modifies out
    ensures error == 0
    ensures if data == [] then out.data == old(out.data) else Appended(old(out.data), out.data, data, settings)
  {
    hide BytesBits, StreamUpTo, StreamFor, Deflated, StoredBytes, AllAsked, AskedAt;
    NothingAsked(data, settings);
    error := 0;
    ghost var before, tail := out.data, [];
    var numdeflateblocks := (|data| + 65534) / 65535;
    EmptyStream(data);
    NoBytesBits();
    ghost var blocks, last := [], Stored([]);
    var datapos, i := 0, 0;
    while i != numdeflateblocks
      invariant 0 <= i <= numdeflateblocks && numdeflateblocks == (|data| + 65534) / 65535
      invariant out.data == before + tail
      invariant i < numdeflateblocks ==> datapos == 65535 * i && StreamUpTo(BytesBits(tail), blocks, data, datapos)
      invariant i < numdeflateblocks ==> |blocks| == i && AllAsked(blocks, data, settings)
      invariant i == numdeflateblocks ==>
                  if data == [] then tail == []
                  else StreamFor(BytesBits(tail), blocks, last, data) && AllAsked(blocks + [last], data, settings)
      decreases numdeflateblocks - i
    {
      var final := if i == numdeflateblocks - 1 then 1 else 0;
      var len := 65535;
      if |data| - datapos < 65535 {
        len := |data| - datapos;
      }
      StoredAppended(tail, blocks, data, datapos, len, final);
      AppendStored(out, data, datapos, len, final);
      tail := tail + StoredBytes(data[datapos..datapos + len], final);
      StoredAsked(data, i, datapos, len, settings);
      NextAsked(blocks, Stored(data[datapos..datapos + len]), data, settings);
      if final == 0 {
        blocks := blocks + [Stored(data[datapos..datapos + len])];
      } else {
        last := Stored(data[datapos..datapos + len]);
      }
      datapos := datapos + len;
      i := i + 1;
    }
    if data != [] {
      BytesDeflated(tail, blocks, last, data, settings);
    }
  }

  lemma StoredAsked(data: seq<byte>, i: nat, a: nat, n: nat, settings: CompressSettings)
    requires settings.btype == 0 && a == 65535 * i && a <= |data| && n == if |data| - a < 65535 then |data| - a else 65535
    ensures AskedAt(Stored(data[a..a + n]), i, data, settings)
  {
  }

  lemma NoBytesBits()
    ensures BytesBits([]) == []
  {
  }

  // ---------- compressed blocks ----------

  /** The blocks of the given size cover the input, and the last one reaches its end. */
  lemma BlockCount(insize: nat, blocksize: nat, n: nat, i: nat)
    requires blocksize > 0 && i < n && n == if insize == 0 then 1 else (insize + blocksize - 1) / blocksize
    ensures i * blocksize <= insize
    ensures i == n - 1 <==> i * blocksize + blocksize >= insize
    ensures i < n - 1 ==> (i + 1) * blocksize == i * blocksize + blocksize
  {
    if insize > 0 {
      var q, r := (insize + blocksize - 1) / blocksize, (insize + blocksize - 1) % blocksize;
      assert q * blocksize + r == insize + blocksize - 1;
      assert (i + 1) * blocksize == i * blocksize + blocksize;
      if i == n - 1 {
      } else {
        assert (i + 1) * blocksize <= (n - 1) * blocksize by { Monotone(i + 1, n - 1, blocksize); }
        assert n * blocksize == (n - 1) * blocksize + blocksize;
      }
    }
  }

  lemma Monotone(a: nat, b: nat, k: nat)
    ensures a <= b ==> a * k <= b * k
  {
  }

  method WriteBlock(writer: BitWriter, hash: Hash, data: seq<byte>, start: nat, end: nat,
                    settings: CompressSettings, final: bit)
    returns (error: nat, ghost block: BlockData)
    requires settings.btype == 1 || settings.btype == 2
    requires writer.Valid() && start <= end <= |data| && HashReady(hash, data, start, settings)
    modifies writer, writer.out, hash, hash.head, hash.chain, hash.val, hash.headz, hash.chainz, hash.zeros
    ensures writer.Valid() && WindowRefused(settings, error)
    ensures error == 0 ==> HashReady(hash, data, end, settings) && Covers(block, data, start, end) && !block.Stored?
    ensures error == 0 ==> Asked(block, data, start, end, settings)
    ensures error == 0 ==>
              (exists n :: BlockOk(block, n))
              && writer.Bits() == old(writer.Bits()) + BlockBits(block, final, |old(writer.Bits())|)
  {
    hide Covers, BlockOk, BlockBits, Window, Asked;
    if settings.btype == 1 {
      error, block := DeflateFixed(writer, hash, data, start, end, settings, final);
    } else {
      error, block := DeflateDynamic(writer, hash, data, start, end, settings, final);
    }
  }

  /** All blocks, with one hash for them all. */
  method WriteBlocks(writer: BitWriter, hash: Hash, data: seq<byte>, blocksize: nat, settings: CompressSettings,
                     ghost before: seq<byte>)
    returns (error: nat)
    requires settings.btype == 1 || settings.btype == 2
    requires writer.Valid() && writer.Bits() == BytesBits(before) && HashReady(hash, data, 0, settings)
    requires blocksize == BlockSize(settings, |data|) > 0
    modifies writer, writer.out, hash, hash.head, hash.chain, hash.val, hash.headz, hash.chainz, hash.zeros
    ensures WindowRefused(settings, error)
    ensures error == 0 ==> Appended(before, writer.out.data, data, settings)
  {
    hide Covers, BlockOk, BlockBits, Window, StreamUpTo, StreamFor, Deflated, BytesBits, Asked, AllAsked, BlockSize;
    NothingAsked(data, settings);
    var insize := |data|;
    var numdeflateblocks := if insize == 0 then 1 else (insize + blocksize - 1) / blocksize;
    AtLeastOneBlock(insize, blocksize);
    EmptyStream(data);
    ghost var blocks, last := [], Stored([]);
    ghost var bits: seq<bit> := [];
    error := 0;
    var i := 0;
    while i != numdeflateblocks && error == 0
      invariant i <= numdeflateblocks && writer.Valid()
      invariant (i > 0 ==> WindowRefused(settings, error)) && (i == 0 ==> error == 0)
      invariant error == 0 && i < numdeflateblocks ==>
                  && HashReady(hash, data, i * blocksize, settings)
                  && StreamUpTo(bits, blocks, data, i * blocksize)
                  && |blocks| == i && AllAsked(blocks, data, settings)
      invariant error == 0 && i == numdeflateblocks ==>
                  StreamFor(bits, blocks, last, data) && AllAsked(blocks + [last], data, settings)
      invariant error == 0 ==> writer.Bits() == BytesBits(before) + bits
      decreases numdeflateblocks - i
    {
      BlockCount(insize, blocksize, numdeflateblocks, i);
      var final := if i == numdeflateblocks - 1 then 1 else 0;
      var start := i * blocksize;
      var end := start + blocksize;
      if end > insize {
        end := insize;
      }
      ghost var block;
      error, block := WriteBlock(writer, hash, data, start, end, settings, final);
      if error == 0 {
        AnyPlace(block, final, |BytesBits(before) + bits|, |bits|);
        NextAsked(blocks, block, data, settings);
        if final == 0 {
          AddBlock(bits, blocks, data, start, end, block);
          blocks := blocks + [block];
        } else {
          AddLastBlock(bits, blocks, data, start, block);
          last := block;
        }
        Behind(BytesBits(before), bits, BlockBits(block, final, |bits|));
        bits := bits + BlockBits(block, final, |bits|);
      }
      i := i + 1;
    }
    if error == 0 {
      WriterDone(writer, before, bits, blocks, last, data, settings);
    }
  }

  /** Only stored blocks depend on the place where they are written. */
  lemma AnyPlace(block: BlockData, final: bit, p: nat, q: nat)
    requires !block.Stored? && exists n :: BlockOk(block, n)
    ensures BlockBits(block, final, p) == BlockBits(block, final, q)
  {
  }

  lemma Behind(a: seq<bit>, b: seq<bit>, c: seq<bit>)
    ensures (a + b) + c == a + (b + c)
  {
  }

  lemma AtLeastOneBlock(insize: nat, blocksize: nat)
    requires blocksize > 0
    ensures insize > 0 ==> (insize + blocksize - 1) / blocksize >= 1
  {
    if insize > 0 {
      var n := insize + blocksize - 1;
      assert n == (n / blocksize) * blocksize + n % blocksize;
      Monotone(n / blocksize, 0, blocksize);
    }
  }

  lemma WriterDone(writer: BitWriter, before: seq<byte>, bits: seq<bit>, blocks: seq<BlockData>, last: BlockData,
                   data: seq<byte>, settings: CompressSettings)
    requires writer.Valid() && writer.Bits() == BytesBits(before) + bits && StreamFor(bits, blocks, last, data)
    requires AllAsked(blocks + [last], data, settings)
    ensures Appended(before, writer.out.data, data, settings)
  {
    hide Window, StreamFor, Deflated, BytesBits, AllAsked;
    var out, k := writer.out.data, |before|;
    WrittenBehind(out, writer.BitLength(), before, bits);
    WriterDeflated(out[k..], |bits|, bits, blocks, last, data, settings);
    assert out == before + out[k..];
  }

  /** Bits that begin with those of some bytes: the bytes are there, and the other bits behind them. */
  lemma WrittenBehind(out: seq<byte>, n: nat, before: seq<byte>, bits: seq<bit>)
    requires n <= 8 * |out| && Window(out, 0, n) == BytesBits(before) + bits
    ensures |before| <= |out| && out[..|before|] == before
    ensures |bits| <= 8 * |out[|before|..]| && Window(out[|before|..], 0, |bits|) == bits
  {
    hide BytesBits;
    var k := |before|;
    assert Window(out, 0, 8 * k) == Window(out, 0, n)[..8 * k] == BytesBits(before);
    WindowBytes(out, 0, k);
    assert out[0..k] == out[..k];
    BytesBitsInjective(out[..k], before);
    var w := Window(out[k..], 0, |bits|);
    forall i | 0 <= i < |bits|
      ensures w[i] == bits[i]
    {
      BitBehind(out, k, i);
      assert Window(out, 0, n)[8 * k + i] == bits[i];
    }
  }

  lemma BitBehind(out: seq<byte>, k: nat, i: nat)
    requires k <= |out|
    ensures BitAt(out[k..], i) == BitAt(out, 8 * k + i)
  {
    assert (8 * k + i) / 8 == k + i / 8 && (8 * k + i) % 8 == i % 8;
  }

  lemma NewWriter(out: seq<byte>)
    ensures Window(out, 0, 8 * |out|) == BytesBits(out)
  {
    hide Window, BytesBits;
    WindowBytes(out, 0, |out|);
    assert out[0..|out|] == out;
  }

  /** Error 61 for an unknown block type, and the LZ77 encoder's errors for the window size. */
  predicate DeflateError(settings: CompressSettings, error: nat)
  {
    if settings.btype > 2 then error == 61
    else if settings.btype == 0 then error == 0
    else WindowRefused(settings, error)
  }

  /** Deflates the data behind what the output already holds. Fixed blocks need some data: the block size is
      that of the data. */
  method DeflateV(out: ByteVector, data: seq<byte>, settings: CompressSettings) returns (error: nat)
    requires settings.btype == 1 ==> data != []
    modifies out
    ensures DeflateError(settings, error)
    ensures error == 0 ==>
              if settings.btype == 0 && data == [] then out.data == old(out.data)
              else Appended(old(out.data), out.data, data, settings)
  {
    hide Appended, Window, LegalWindow, BytesBits;
    var blocksize;
    if settings.btype > 2 {
      return 61;
    } else if settings.btype == 0 {
      error := DeflateNoCompression(out, data, settings);
      return;
    } else if settings.btype == 1 {
      blocksize := |data|;
    } else {
      blocksize := |data| / 8 + 8;
      if blocksize < 65536 { blocksize := 65536; }
      if blocksize > 262144 { blocksize := 262144; }
    }
    NewWriter(out.data);
    var writer := new BitWriter(out);
    ghost var k := WindowBits(settings.windowsize);
    var hash := new Hash(settings.windowsize, k, data);
    error := WriteBlocks(writer, hash, data, blocksize, settings, out.data);
  }

  lemma WindowBits(w: nat) returns (k: nat)
    ensures LegalWindow(w) ==> w == Pow2(k)
  {
    if LegalWindow(w) {
      k := PowerOfTwo(w);
    } else {
      k := 0;
    }
  }

  method LodepngDeflate(data: seq<byte>, settings: CompressSettings) returns (error: nat, out: seq<byte>)
    requires settings.btype == 1 ==> data != []
    ensures DeflateError(settings, error)
    ensures error == 0 ==> if settings.btype == 0 && data == [] then out == [] else Deflated(out, data, settings)
  {
    hide Deflated, DeflateError, Appended;
    var v := new ByteVector();
    error := DeflateV(v, data, settings);
    out := v.data;
    if error == 0 && !(settings.btype == 0 && data == []) {
      AppendedToNothing(out, data, settings);
    }
  }

  // ---------- the round trip ----------

  /** Nothing inflates from nothing. */
  lemma NothingInflates(settings: DecompressSettings)
    ensures Inflated([], [], settings) == Fail(52)
  {
  }

  /** Deflating and inflating again gives the data back, for every block type and every setting the
      encoder accepts, whatever bytes follow the stream. The one exception: for empty data, stored
      mode writes no block, and the decoder reports error 52. */
  method RoundTrip(data: seq<byte>, settings: CompressSettings, more: seq<byte>, unpack: DecompressSettings)
    returns (deflateError: nat, packed: seq<byte>, inflateError: nat, result: seq<byte>)
    requires settings.btype == 1 ==> data != []
    requires WithinLimit(|data|, unpack.maxOutput)
    ensures DeflateError(settings, deflateError)
    ensures deflateError == 0 && SizeFits(|packed + more|) && !(settings.btype == 0 && data == []) ==>
              inflateError == 0 && result == data
    ensures deflateError == 0 && settings.btype == 0 && data == [] && more == [] ==> inflateError == 52
  {
    hide Deflated, DeflateError, Inflated, SizeFits, WithinLimit;
    inflateError, result := 0, [];
    deflateError, packed := LodepngDeflate(data, settings);
    if deflateError == 0 {
      inflateError, result := LodepngInflate(packed + more, unpack);
      if settings.btype == 0 && data == [] {
        NothingInflates(unpack);
      } else if SizeFits(|packed + more|) {
        DeflatedInflates(packed, data, settings, more, unpack);
      }
    }
  }
}
