/**
 Zlib streams of three bytes. Their checksum would start one byte before the stream; but only an empty
 fixed block fits behind the header, and its checksum never agrees, whatever that byte is.
 */
module ZlibShort {
  import opened Bits
  import opened Canonical
  import opened PrefixCodes
  import opened DecodeSymbols
  import opened SingleBits
  import opened FixedTrees
  import opened InflateSpec
  import opened Adler32
  import opened Zlib

  // ---------- the end code of the fixed tree ----------

  lemma {:induction false} NoneOfLength(lens: seq<nat>, b: nat, n: nat)
    requires n <= |lens| && forall i :: 0 <= i < n ==> lens[i] != b
    ensures Count(lens, b, n) == 0
  {
    if n > 0 {
      NoneOfLength(lens, b, n - 1);
    }
  }

  lemma {:induction false} FirstCodeZero(lens: seq<nat>, b: nat)
    requires forall i :: 0 <= i < |lens| ==> lens[i] == 0 || lens[i] >= b
    ensures NextCode(lens, b) == 0
  {
    if b > 1 {
      FirstCodeZero(lens, b - 1);
      NoneOfLength(lens, b - 1, |lens|);
    }
  }

  /** The end code of a fixed block is seven zero bits. */
  lemma EndCodeZero()
    ensures Code(FixedLitLen(), 256) == 0 && FixedLitLen()[256] == 7
  {
    hide NextCode, Count;
    FirstCodeZero(FixedLitLen(), 7);
    NoneOfLength(FixedLitLen(), 7, 256);
  }

  lemma {:induction false} ZeroBits(n: nat)
    ensures ToBE(0, n) == seq<bit>(n, i => 0) && ToLE(0, n) == seq<bit>(n, i => 0)
  {
    if n > 0 {
      ZeroBits(n - 1);
    }
  }

  lemma EndComesNext(data: seq<byte>, pos: nat)
    ensures NextSymbol(FixedLitLen(), data, pos) == Some(256) <==> Window(data, pos, 7) == seq<bit>(7, i => 0)
  {
    hide Code, FixedLitLen, StreamWord, Low, Rev;
    var ll := FixedLitLen();
    FixedLitLenAccepted();
    EndCodeZero();
    ZeroBits(7);
    if Window(data, pos, 7) == seq<bit>(7, i => 0) {
      WrittenSymbol(ll, 256, data, pos);
    } else if NextSymbol(ll, data, pos) == Some(256) {
      RevZero(7);
      StreamPrefix(data, pos, 7);
      FromLEInjective(Window(data, pos, 7), ToLE(0, 7));
      FromZero(7);
    }
  }

  lemma {:induction false} FromZero(n: nat)
    ensures FromLE(ToLE(0, n)) == 0
  {
    if n > 0 {
      FromZero(n - 1);
    }
  }

  // ---------- a deflate stream of one byte ----------

  /** With nothing decoded yet and less than eight bits left, a fixed block is either empty or an error. */
  lemma ShortFixedBlock(data: seq<byte>, maxOutput: nat)
    requires |data| == 1
    ensures var r := InflateSymbols(data, FixedLitLen(), FixedDistance(), 3, [], maxOutput);
            if NextSymbol(FixedLitLen(), data, 3) == Some(256) then r == Done([], 10) else r.Fail?
  {
    hide FixedLitLen, FixedDistance, NextSymbol;
    EndCodeZero();
    FixedLengths();
    ShortDistance(data, 3);
    LiteralTooLong(data);
  }

  lemma FixedLengths()
    ensures forall i :: 0 <= i <= 255 ==> FixedLitLen()[i] >= 8
  {
  }

  lemma LiteralTooLong(data: seq<byte>)
    requires |data| == 1
    ensures DecodeStep(data, FixedLitLen(), FixedDistance(), 3, []).More? ==>
              DecodeStep(data, FixedLitLen(), FixedDistance(), 3, []).pos > 8
  {
    hide NextSymbol, FixedDistance, DecodeDistance;
    FixedLengths();
    ShortDistances(data);
  }

  /** Nothing can be copied from an empty output. */
  lemma ShortDistances(data: seq<byte>)
    ensures forall pos: nat, length: nat :: DecodeDistance(data, FixedDistance(), pos, [], length).Error?
  {
    forall pos: nat, length: nat
      ensures DecodeDistance(data, FixedDistance(), pos, [], length).Error?
    {
      ShortDistance(data, pos);
    }
  }

  lemma ShortDistance(data: seq<byte>, pos: nat)
    ensures forall length: nat :: DecodeDistance(data, FixedDistance(), pos, [], length).Error?
  {
    hide NextSymbol, FixedDistance;
    if NextSymbol(FixedDistance(), data, pos).Some? {
      var d := NextSymbol(FixedDistance(), data, pos).value;
      if d <= 29 {
        DistanceBasePositive(d);
      }
    }
  }

  /** The one byte that inflates is 3: a final fixed block whose end code runs past the data. */
  lemma OneByteInflates(data: seq<byte>, settings: DecompressSettings)
    requires |data| == 1
    ensures if data[0] == 3 then Inflated(data, [], settings) == Done([], 10) else Inflated(data, [], settings).Fail?
  {
    hide InflateSymbols, NextSymbol, FixedLitLen, FixedDistance, StoredBlock, DynamicTrees, Window, BitAt, Number, InflateBlocks;
    OneByteBlock(data, settings);
    IsThree(data);
    OneByteBlocks(data, settings);
  }

  lemma OneByteBlocks(data: seq<byte>, settings: DecompressSettings)
    requires |data| == 1
    ensures var r := Block(data, Number(data, 1, 2), 3, [], settings);
            InflateBlocks(data, 0, [], settings)
            == if r.Fail? || BitAt(data, 0) == 1 then r else InflateBlocks(data, r.pos, r.value, settings)
    ensures InflateBlocks(data, 10, [], settings) == Fail(52)
  {
    hide Block, Number, BitAt;
  }

  lemma OneByteBlock(data: seq<byte>, settings: DecompressSettings)
    requires |data| == 1
    ensures var r := Block(data, Number(data, 1, 2), 3, [], settings);
            if Number(data, 1, 2) == 1 && Window(data, 3, 7) == seq<bit>(7, i => 0) then r == Done([], 10) else r.Fail?
  {
    hide InflateSymbols, NextSymbol, FixedLitLen, FixedDistance, StoredBlock, DynamicTrees, Window, Number;
    TypeBound(data);
    ShortFixedBlock(data, settings.maxOutput);
    ShortOthers(data, settings.ignoreNlen);
    EndComesNext(data, 3);
  }

  lemma TypeBound(data: seq<byte>)
    ensures Number(data, 1, 2) <= 3
  {
    FromLEBound(Window(data, 1, 2));
    assert Pow2(2) == 4;
  }

  lemma ShortOthers(data: seq<byte>, ignoreNlen: bool)
    requires |data| == 1
    ensures StoredBlock(data, 3, [], ignoreNlen).Fail? && DynamicTrees(data, 3).Fail?
  {
  }

  /** The eight bits of the number 3. */
  lemma IsThree(data: seq<byte>)
    requires |data| == 1
    ensures data[0] == 3 <==> BitAt(data, 0) == 1 && Number(data, 1, 2) == 1 && Window(data, 3, 7) == seq<bit>(7, i => 0)
  {
    hide Window, Number, BitAt;
    TwoBits(data);
    BitsOfOne(data);
    BitsOfThree();
    Zeros(data);
    if forall j: nat :: j < 8 ==> BitAt(data, j) == Shr(3, j) % 2 {
      assert Pow2(8) == 256;
      SameNumber(data[0], 3, 8);
    }
  }

  lemma TwoBits(data: seq<byte>)
    ensures Number(data, 1, 2) == BitAt(data, 1) + 2 * BitAt(data, 2)
  {
    hide BitAt;
    var w := Window(data, 1, 2);
    assert w[1..][0] == w[1] && |w[1..][1..]| == 0;
    assert FromLE(w[1..]) == w[1];
  }

  lemma BitsOfOne(data: seq<byte>)
    requires |data| == 1
    ensures forall j: nat :: j < 8 ==> BitAt(data, j) == Shr(data[0], j) % 2
    ensures forall j: nat :: j >= 8 ==> BitAt(data, j) == 0
  {
  }

  lemma BitsOfThree()
    ensures Shr(3, 0) % 2 == 1 && Shr(3, 1) % 2 == 1 && forall j: nat :: 2 <= j < 8 ==> Shr(3, j) % 2 == 0
  {
    assert Shr(3, 1) == 1;
    forall j: nat | 2 <= j < 8
      ensures Shr(3, j) % 2 == 0
    {
      assert Shr(3, j) == Shr(1, j - 1) == Shr(0, j - 2);
      ShrOfZero(j - 2);
    }
  }

  lemma {:induction false} ShrOfZero(k: nat)
    ensures Shr(0, k) == 0
  {
    if k > 0 {
      ShrOfZero(k - 1);
    }
  }

  lemma Zeros(data: seq<byte>)
    requires |data| == 1
    ensures Window(data, 3, 7) == seq<bit>(7, i => 0) <==> forall j: nat :: 3 <= j < 8 ==> BitAt(data, j) == 0
  {
    hide BitAt;
    BitsOfOne(data);
    var w := Window(data, 3, 7);
    if forall j: nat :: 3 <= j < 8 ==> BitAt(data, j) == 0 {
      assert forall i :: 0 <= i < 7 ==> w[i] == BitAt(data, 3 + i) == 0;
    } else {
      var j: nat :| 3 <= j < 8 && BitAt(data, j) != 0;
      assert w[j - 3] == BitAt(data, 3 + (j - 3));
    }
  }

  // ---------- the byte in front of the stream ----------

  /** A stream of three bytes reaches the checksum if and only if the third is 3, and is then refused
      unless checksums are ignored. */
  lemma ThreeByteStream(data: seq<byte>, before: byte, settings: ZlibSettings)
    requires |data| == 3 && HeaderError(data[0], data[1]) == 0
    ensures Inflated(data[2..], [], settings.inflate).Done? <==> data[2] == 3
    ensures data[2] == 3 ==> Unpacked(data, before, settings) == if settings.ignoreAdler32 then Done([], 10) else Fail(58)
    ensures data[2] != 3 ==> Unpacked(data, before, settings).Fail?
  {
    hide Inflated;
    OneByteInflates(data[2..], settings.inflate);
    assert LastFour(data, before) == [before] + data;
    assert Adler([]) == 1;
  }

  /** So the byte read in front of a stream never matters. */
  lemma ByteBeforeIrrelevant(data: seq<byte>, b1: byte, b2: byte, settings: ZlibSettings)
    ensures Unpacked(data, b1, settings) == Unpacked(data, b2, settings)
  {
    hide Inflated, Adler;
    if |data| == 3 && HeaderError(data[0], data[1]) == 0 {
      OneByteInflates(data[2..], settings.inflate);
      if data[2] == 3 {
        ThreeByteStream(data, b1, settings);
        ThreeByteStream(data, b2, settings);
      }
    } else if |data| >= 4 {
      assert LastFour(data, b1) == data[|data| - 4..] == LastFour(data, b2);
    }
  }

  /** 78 01 03 is such a stream. */
  lemma ThreeByteExample(before: byte, settings: ZlibSettings)
    ensures HeaderError(120, 1) == 0
    ensures Unpacked([120, 1, 3], before, settings) == if settings.ignoreAdler32 then Done([], 10) else Fail(58)
  {
    ThreeByteStream([120, 1, 3], before, settings);
  }
}
