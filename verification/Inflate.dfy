/**
 The inflate decoder. Every method is proved to do what `InflateSpec` says of the stream,
 including the error numbers.
 */
module Inflate {
  import opened Bits
  import opened DecodeTables
  import opened HuffmanTrees
  import opened DecodeSymbols
  import opened BitReaders
  import opened BitWriters
  import opened Lz77
  import opened InflateSpec
  import opened InflateTrees

  // ---------- copying a match ----------

  lemma {:induction false} CopySnoc(out: seq<byte>, k: nat, d: nat)
    requires 1 <= d <= |out|
    ensures Copy(out, k + 1, d) == Copy(out, k, d) + [Copy(out, k, d)[|out| + k - d]]
    decreases k
  {
    if k > 0 {
      CopySnoc(out + [out[|out| - d]], k - 1, d);
    }
  }

  /** Moves count bytes from distance back; the bytes before start are a partial copy. */
  method MoveBytes(out: ByteVector, start: nat, count: nat, distance: nat, ghost prefix: seq<byte>, ghost k: nat)
    requires 1 <= distance <= |prefix| && start == |prefix| + k && start + count <= |out.data|
    requires out.data[..start] == Copy(prefix, k, distance)
    modifies out
    ensures |out.data| == |old(out.data)|
    ensures out.data[..start + count] == Copy(prefix, k + count, distance)
  {
    hide Copy;
    var i := 0;
    while i < count
      invariant i <= count && |out.data| == |old(out.data)|
      invariant out.data[..start + i] == Copy(prefix, k + i, distance)
    {
      CopySnoc(prefix, k + i, distance);
      var b := out.data[start - distance + i];
      assert b == out.data[..start + i][start - distance + i];
      TakeUpdated(out.data, start + i, b);
      out.data := out.data[start + i := b];
      i := i + 1;
    }
  }

  lemma TakeUpdated(s: seq<byte>, i: nat, b: byte)
    requires i < |s|
    ensures s[i := b][..i + 1] == s[..i] + [b]
  {
  }

  lemma CopyNone(out: seq<byte>, d: nat)
    requires 1 <= d <= |out|
    ensures Copy(out, 0, d) == out
  {
  }

  /** The output grows by a match, which may overlap itself. */
  method CopyMatch(out: ByteVector, length: nat, distance: nat)
    requires 1 <= distance <= |out.data|
    modifies out
    ensures out.data == Copy(old(out.data), length, distance)
  {
    hide Copy;
    ghost var prefix := out.data;
    var start := |out.data|;
    CopyNone(prefix, distance);
    out.data := out.data + seq(length, i => 0);
    assert out.data[..start] == prefix;
    if distance < length {
      MoveBytes(out, start, distance, distance, prefix, 0);
      MoveBytes(out, start + distance, length - distance, distance, prefix, distance);
    } else {
      MoveBytes(out, start, length, distance, prefix, 0);
    }
    assert out.data[..start + length] == out.data;
  }

  // ---------- compressed data ----------

  lemma ExtraSizes(i: nat)
    ensures |LENGTHEXTRA| == |LENGTHBASE| == 29 && |DISTANCEEXTRA| == |DISTANCEBASE| == 30
    ensures i < 29 ==> LENGTHEXTRA[i] <= 5
    ensures i < 30 ==> DISTANCEEXTRA[i] <= 13
  {
  }

  /** The number that n extra bits hold; none are read when n is 0. */
  method ReadExtra(reader: BitReader, n: nat) returns (r: nat)
    requires reader.Valid() && n <= reader.avail
    modifies reader
    ensures reader.Valid() && reader.bp == old(reader.bp) + n && reader.avail == old(reader.avail) - n
    ensures r == Number(reader.data, old(reader.bp), n)
  {
    r := 0;
    if n != 0 {
      r := reader.ReadBits(n);
    }
  }

  method InflateDistance(out: ByteVector, reader: BitReader, treeD: HuffmanTree, ghost dl: seq<nat>, length: nat)
    returns (error: nat)
    requires reader.Valid() && treeD.Ready(dl) && |dl| == 32
    modifies out, reader
    ensures reader.Valid()
    ensures match DecodeDistance(reader.data, dl, old(reader.bp), old(out.data), length)
            case Error(e) => error == e != 0
            case More(o, p) => error == 0 && out.data == o && reader.bp == p
            case End(_) => false
  {
    hide NextSymbol, Copy, LENGTHBASE, LENGTHEXTRA, DISTANCEBASE, DISTANCEEXTRA, CodesFor, Accepted, Decodes;
    var ok := reader.EnsureBits32(28);
    NextSymbolPresent(dl, reader.data, reader.bp);
    var code := HuffmanDecodeSymbol(reader, treeD, dl);
    if code > 29 {
      if code <= 31 {
        return 18;
      }
      return 16;
    }
    ExtraSizes(code);
    DistanceBasePositive(code);
    var distance := ReadExtra(reader, DISTANCEEXTRA[code]);
    distance := distance + DISTANCEBASE[code];
    if distance > |out.data| {
      return 52;
    }
    CopyMatch(out, length, distance);
    error := 0;
  }

  /** Decodes one symbol and what belongs to it. */
  method InflateStep(out: ByteVector, reader: BitReader, treeLL: HuffmanTree, treeD: HuffmanTree,
                     ghost ll: seq<nat>, ghost dl: seq<nat>) returns (error: nat, end: bool)
    requires reader.Valid() && treeLL.Ready(ll) && treeD.Ready(dl) && |ll| == 288 && |dl| == 32
    modifies out, reader
    ensures reader.Valid()
    ensures match DecodeStep(reader.data, ll, dl, old(reader.bp), old(out.data))
            case Error(e) => error == e != 0
            case End(p) => error == 0 && end && out.data == old(out.data) && reader.bp == p
            case More(o, p) => error == 0 && !end && out.data == o && reader.bp == p
  {
    hide NextSymbol, DecodeDistance, LENGTHBASE, LENGTHEXTRA, DISTANCEBASE, DISTANCEEXTRA, CodesFor, Accepted, Decodes;
    end, error := false, 0;
    var ok := reader.EnsureBits25(20);
    NextSymbolPresent(ll, reader.data, reader.bp);
    var code := HuffmanDecodeSymbol(reader, treeLL, ll);
    if code <= 255 {
      out.data := out.data + [code];
    } else if FIRST_LENGTH_CODE_INDEX <= code <= LAST_LENGTH_CODE_INDEX {
      var i := code - FIRST_LENGTH_CODE_INDEX;
      ExtraSizes(i);
      var length := ReadExtra(reader, LENGTHEXTRA[i]);
      length := length + LENGTHBASE[i];
      error := InflateDistance(out, reader, treeD, dl, length);
    } else if code == END_CODE {
      end := true;
    } else {
      error := 16;
    }
  }

  method InflateData(out: ByteVector, reader: BitReader, treeLL: HuffmanTree, treeD: HuffmanTree,
                     ghost ll: seq<nat>, ghost dl: seq<nat>, maxOutput: nat) returns (error: nat)
    requires reader.Valid() && reader.bp <= reader.bitsize
    requires treeLL.Ready(ll) && treeD.Ready(dl) && |ll| == 288 && |dl| == 32
    modifies out, reader
    ensures reader.Valid()
    ensures match InflateSymbols(reader.data, ll, dl, old(reader.bp), old(out.data), maxOutput)
            case Fail(e) => error == e
            case Done(o, p) => error == 0 && out.data == o && reader.bp == p
  {
    hide DecodeStep, CodesFor, Accepted, Decodes;
    error := 0;
    ghost var goal := InflateSymbols(reader.data, ll, dl, reader.bp, out.data, maxOutput);
    while true
      invariant error == 0 && reader.Valid() && reader.bp <= reader.bitsize
      invariant InflateSymbols(reader.data, ll, dl, reader.bp, out.data, maxOutput) == goal
      decreases reader.bitsize - reader.bp
    {
      StepAdvances(reader.data, ll, dl, reader.bp, out.data);
      var end;
      error, end := InflateStep(out, reader, treeLL, treeD, ll, dl);
      if error != 0 || end {
        return;
      }
      if reader.bp > reader.bitsize {
        return 51;
      }
      if maxOutput != 0 && |out.data| > maxOutput {
        return 109;
      }
    }
  }

  // ---------- blocks ----------

  /** A block with fixed or dynamic trees. */
  method InflateHuffmanBlock(out: ByteVector, reader: BitReader, btype: nat, maxOutput: nat) returns (error: nat)
    requires reader.Valid() && reader.bp <= reader.bitsize
    modifies out, reader
    ensures reader.Valid()
    ensures match HuffmanBlock(reader.data, btype, old(reader.bp), old(out.data), maxOutput)
            case Fail(e) => error == e
            case Done(o, p) => error == 0 && out.data == o && reader.bp == p
  {
    hide InflateSymbols, DynamicTrees, FixedLitLen, FixedDistance, Accepted, CodesFor, Decodes;
    var treeLL := new HuffmanTree();
    var treeD := new HuffmanTree();
    ghost var trees := TreePair(FixedLitLen(), FixedDistance());
    if btype == 1 {
      error := GetTreeInflateFixed(treeLL, treeD);
    } else {
      ghost var r := DynamicTrees(reader.data, reader.bp);
      error := GetTreeInflateDynamic(reader, treeLL, treeD);
      if r.Done? { trees := r.value; }
    }
    if error != 0 {
      return;
    }
    error := InflateData(out, reader, treeLL, treeD, trees.ll, trees.dl, maxOutput);
  }

  method InflateNoCompression(out: ByteVector, reader: BitReader, settings: DecompressSettings) returns (error: nat)
    requires reader.Valid()
    modifies out, reader
    ensures error == 0 ==> reader.Valid()
    ensures match StoredBlock(reader.data, old(reader.bp), old(out.data), settings.ignoreNlen)
            case Fail(e) => error == e
            case Done(o, p) => error == 0 && out.data == o && reader.bp == p
  {
    var data := reader.data;
    var p := (reader.bp + 7) / 8;
    if p + 4 >= |data| {
      return 52;
    }
    var len := Word16(data, p);
    p := p + 2;
    var nlen := Word16(data, p);
    p := p + 2;
    if !settings.ignoreNlen && len + nlen != 65535 {
      return 21;
    }
    if p + len > |data| {
      return 23;
    }
    out.data := out.data + data[p..p + len];
    p := p + len;
    reader.JumpTo(8 * p);
    error := 0;
  }

  method InflateBlock(out: ByteVector, reader: BitReader, btype: nat, settings: DecompressSettings) returns (error: nat)
    requires reader.Valid() && reader.bp <= reader.bitsize
    modifies out, reader
    ensures error == 0 ==> reader.Valid()
    ensures match Block(reader.data, btype, old(reader.bp), old(out.data), settings)
            case Fail(e) => error == e
            case Done(o, p) => error == 0 && out.data == o && reader.bp == p
  {
    hide HuffmanBlock, StoredBlock;
    if btype == 3 {
      return 20;
    } else if btype == 0 {
      error := InflateNoCompression(out, reader, settings);
    } else {
      error := InflateHuffmanBlock(out, reader, btype, settings.maxOutput);
    }
    if error == 0 && settings.maxOutput != 0 && |out.data| > settings.maxOutput {
      error := 109;
    }
  }

  lemma HeaderNumbers(data: seq<byte>, pos: nat)
    ensures Number(data, pos, 1) == BitAt(data, pos)
  {
    var ws := Window(data, pos, 1);
    assert ws[0] == BitAt(data, pos + 0) && |ws[1..]| == 0;
    assert FromLE(ws) == ws[0] + 2 * FromLE(ws[1..]);
  }

  /** Decompresses the whole stream: the output, the end position and the error are those of the
      stream's meaning. */
  method InflateV(out: ByteVector, data: seq<byte>, settings: DecompressSettings) returns (error: nat)
    modifies out
    ensures match Inflated(data, old(out.data), settings)
            case Fail(e) => error == e
            case Done(o, _) => error == 0 && out.data == o
  {
    hide Block, Number;
    if !SizeFits(|data|) {
      return 105;
    }
    error := 0;
    var reader := new BitReader(data);
    ghost var goal := InflateBlocks(data, 0, out.data, settings);
    var bfinal := 0;
    while bfinal == 0
      invariant error == 0 && reader.Valid() && reader.data == data && fresh(reader)
      invariant bfinal == 0 ==> InflateBlocks(data, reader.bp, out.data, settings) == goal
      invariant bfinal != 0 ==> goal == Done(out.data, reader.bp)
      decreases bfinal == 0, 8 * |data| - reader.bp
    {
      var ok := reader.EnsureBits9(3);
      if !ok {
        return 52;
      }
      HeaderNumbers(data, reader.bp);
      bfinal := ReadNumber(reader, 1);
      var btype := ReadNumber(reader, 2);
      error := InflateBlock(out, reader, btype, settings);
      if error != 0 {
        return;
      }
    }
  }

  method LodepngInflate(data: seq<byte>, settings: DecompressSettings) returns (error: nat, out: seq<byte>)
    ensures match Inflated(data, [], settings)
            case Fail(e) => error == e
            case Done(o, _) => error == 0 && out == o
  {
    var v := new ByteVector();
    error := InflateV(v, data, settings);
    out := v.data;
  }
}
