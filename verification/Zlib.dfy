/**
 The zlib container (RFC 1950): a two-byte header, a deflate stream, and the Adler-32 checksum of
 the uncompressed data.
 */
module Zlib {
  import opened Bits
  import opened BitReaders
  import opened InflateSpec
  import opened Inflate
  import opened DeflateFormat
  import opened DeflateBlocks
  import opened Deflate
  import opened Adler32

  // ---------- 32-bit numbers, most significant byte first ----------

  function Read32(bs: seq<byte>): (r: nat)
    requires |bs| == 4
    ensures r < 0x1_0000_0000
  {
    var b0: nat, b1: nat, b2: nat, b3: nat := bs[0], bs[1], bs[2], bs[3];
    b0 * 0x100_0000 + b1 * 0x1_0000 + b2 * 0x100 + b3
  }

  function Set32(v: nat): (bs: seq<byte>)
    requires v < 0x1_0000_0000
    ensures |bs| == 4
  {
    [v / 0x100_0000, v / 0x1_0000 % 256, v / 0x100 % 256, v % 256]
  }

  lemma ReadSet32(v: nat)
    requires v < 0x1_0000_0000
    ensures Read32(Set32(v)) == v
  {
    assert v == 256 * (v / 256) + v % 256;
    assert v / 256 == 256 * (v / 0x1_0000) + v / 256 % 256;
    assert v / 0x1_0000 == 256 * (v / 0x100_0000) + v / 0x1_0000 % 256;
  }

  lemma SetRead32(bs: seq<byte>)
    requires |bs| == 4
    ensures Set32(Read32(bs)) == bs
  {
    hide Set32;
    var b0: nat, b1: nat, b2: nat, b3: nat := bs[0], bs[1], bs[2], bs[3];
    var v := Read32(bs);
    Digit(b0, b1);
    Digit(b0 * 256 + b1, b2);
    Digit((b0 * 256 + b1) * 256 + b2, b3);
    SetDigits(v, b0, b1, b2, b3);
  }

  lemma Digit(hi: nat, lo: nat)
    requires lo < 256
    ensures (hi * 256 + lo) / 256 == hi && (hi * 256 + lo) % 256 == lo
  {
  }

  lemma SetDigits(v: nat, b0: nat, b1: nat, b2: nat, b3: nat)
    requires b0 < 256 && b1 < 256 && b2 < 256 && b3 < 256 && v < 0x1_0000_0000
    requires v % 256 == b3 && v / 256 == (b0 * 256 + b1) * 256 + b2
    ensures Set32(v) == [b0, b1, b2, b3]
  {
    Digit(b0, b1);
    Digit(b0 * 256 + b1, b2);
    assert v / 0x100_0000 == v / 256 / 256 / 256 && v / 0x1_0000 == v / 256 / 256;
  }

  // ---------- the format ----------

  datatype ZlibSettings = ZlibSettings(inflate: DecompressSettings, ignoreAdler32: bool)

  /** The error for the two header bytes; 0 for none. */
  function HeaderError(cmf: byte, flg: byte): nat
  {
    if (cmf * 256 + flg) % 31 != 0 then 24
    else if cmf % 16 != 8 || cmf / 16 > 7 then 25
    else if flg / 32 % 2 != 0 then 26
    else 0
  }

  /** The last four bytes. A stream of three bytes is one too short for them, and the code then
      reads the byte that lies before the stream. */
  function LastFour(data: seq<byte>, before: byte): (bs: seq<byte>)
    requires |data| >= 3
    ensures |bs| == 4
  {
    ([before] + data)[|data| - 3..]
  }

  /** What a zlib stream stands for. */
  ghost function Unpacked(data: seq<byte>, before: byte, settings: ZlibSettings): Outcome<seq<byte>>
  {
    if |data| < 2 then Fail(53)
    else if HeaderError(data[0], data[1]) != 0 then Fail(HeaderError(data[0], data[1]))
    else
      match Inflated(data[2..], [], settings.inflate)
      case Fail(e) => Fail(e)
      case Done(out, pos) =>
        if !settings.ignoreAdler32 && (|data| < 3 || Read32(LastFour(data, before)) != Adler(out)) then Fail(58)
        else Done(out, pos)
  }

  /** Nothing inflates from no bytes, so two header bytes alone never reach the checksum. */
  lemma HeaderAlone(data: seq<byte>, settings: DecompressSettings)
    requires |data| == 2
    ensures Inflated(data[2..], [], settings) == Fail(52)
  {
    assert data[2..] == [];
  }

  method ZlibDecompress(data: seq<byte>, before: byte, settings: ZlibSettings) returns (error: nat, out: seq<byte>)
    ensures match Unpacked(data, before, settings)
            case Fail(e) => error == e
            case Done(o, _) => error == 0 && out == o
  {
    hide Inflated, Adler;
    out := [];
    if |data| < 2 {
      return 53, out;
    }
    var cmf: nat, flg: nat := data[0], data[1];
    if (cmf * 256 + flg) % 31 != 0 {
      return 24, out;
    }
    var cm, cinfo, fdict := cmf % 16, cmf / 16 % 16, flg / 32 % 2;
    if cm != 8 || cinfo > 7 {
      return 25, out;
    }
    if fdict != 0 {
      return 26, out;
    }
    error, out := LodepngInflate(data[2..], settings.inflate);
    if error != 0 {
      NonZeroErrors(data[2..], settings.inflate);
      return;
    }
    NonZeroErrors(data[2..], settings.inflate);
    if |data| == 2 {
      HeaderAlone(data, settings.inflate);
    }
    if !settings.ignoreAdler32 {
      var checksum := ComputeAdler32(out);
      if checksum as nat != Read32(LastFour(data, before)) {
        error := 58;
      }
    }
  }

  lemma NonZeroErrors(data: seq<byte>, settings: DecompressSettings)
    ensures Inflated(data, [], settings).Fail? ==> Inflated(data, [], settings).error != 0
  {
  }

  method ZlibCompress(data: seq<byte>, settings: CompressSettings) returns (error: nat, out: seq<byte>)
    requires settings.btype == 1 ==> data != []
    ensures DeflateError(settings, error) && (error != 0 ==> out == [])
    ensures error == 0 ==>
              if settings.btype == 0 && data == [] then out == [120, 1, 0, 0, 0, 1] else Packed(out, data, settings)
  {
    hide Deflated, DeflateError, Adler, Set32;
    out := [];
    var deflated;
    error, deflated := LodepngDeflate(data, settings);
    if error == 0 {
      AdlerReduced(data);
      var adler := ComputeAdler32(data);
      var cmf: nat, fdict: nat, flevel: nat := 120, 0, 0;
      var cmfflg: nat := 256 * cmf + fdict * 32 + flevel * 64;
      var fcheck := 31 - cmfflg % 31;
      cmfflg := cmfflg + fcheck;
      out := [cmfflg / 256, cmfflg % 256] + deflated + Set32(adler as nat);
      if settings.btype == 0 && data == [] {
        EmptyChecksum();
      } else {
        assert Packed(out, data, settings) by { PackedParts(deflated, data, settings); }
      }
    }
  }

  lemma EmptyChecksum()
    ensures Set32(Adler([])) == [0, 0, 0, 1]
  {
  }

  lemma PackedParts(deflated: seq<byte>, data: seq<byte>, settings: CompressSettings)
    requires Deflated(deflated, data, settings)
    ensures Adler(data) < 0x1_0000_0000 && Packed([120, 1] + deflated + Set32(Adler(data)), data, settings)
  {
    AdlerReduced(data);
  }

  /** A zlib stream for the data. */
  ghost predicate Packed(out: seq<byte>, data: seq<byte>, settings: CompressSettings)
  {
    Adler(data) < 0x1_0000_0000 &&
    exists deflated :: Deflated(deflated, data, settings) && out == [120, 1] + deflated + Set32(Adler(data))
  }

  // ---------- the round trip ----------

  /** A stream for the data is accepted and gives the data. */
  lemma PackedUnpacks(out: seq<byte>, data: seq<byte>, asked: CompressSettings, before: byte, settings: ZlibSettings)
    requires Packed(out, data, asked) && SizeFits(|out| - 2) && WithinLimit(|data|, settings.inflate.maxOutput)
    ensures Unpacked(out, before, settings).Done? && Unpacked(out, before, settings).value == data
  {
    hide Deflated, Inflated, Adler, Set32, Read32, SizeFits;
    var deflated :| Deflated(deflated, data, asked) && out == [120, 1] + deflated + Set32(Adler(data));
    var tail := Set32(Adler(data));
    assert out[2..] == deflated + tail;
    assert ([before] + out)[|out| - 3..] == tail;
    DeflatedInflates(deflated, data, asked, tail, settings.inflate);
    ReadSet32(Adler(data));
  }

  /** The stream that stored mode writes for empty data. */
  lemma EmptyStoredFails(before: byte, settings: ZlibSettings)
    ensures Unpacked([120, 1, 0, 0, 0, 1], before, settings) == Fail(52)
  {
    var d: seq<byte> := [120, 1, 0, 0, 0, 1];
    assert d[2..] == [0, 0, 0, 1];
    ZeroBlockFails(settings.inflate);
  }

  /** A stored block that is cut off before its length. */
  lemma ZeroBlockFails(settings: DecompressSettings)
    ensures Inflated([0, 0, 0, 1], [], settings) == Fail(52)
  {
    var d: seq<byte> := [0, 0, 0, 1];
    assert Window(d, 1, 2) == [0, 0] by {
      assert BitAt(d, 1) == 0 && BitAt(d, 2) == 0 by { ShlZero(1); ShlZero(2); }
    }
    assert [0, 0][1..] == [0] && [0][1..] == [];
    assert Number(d, 1, 2) == 0;
    assert StoredBlock(d, 3, [], settings.ignoreNlen) == Fail(52);
    assert Block(d, 0, 3, [], settings) == Fail(52);
  }

  /** Compressing and decompressing again gives the data back for every setting the encoder accepts;
      only empty data in stored mode does not come back, but is refused. */
  method ZlibRoundTrip(data: seq<byte>, settings: CompressSettings, before: byte, unpack: ZlibSettings)
    returns (compressError: nat, packed: seq<byte>, error: nat, result: seq<byte>)
    requires settings.btype == 1 ==> data != []
    requires WithinLimit(|data|, unpack.inflate.maxOutput)
    ensures DeflateError(settings, compressError)
    ensures compressError == 0 && SizeFits(|packed|) ==>
              if settings.btype == 0 && data == [] then error == 52 else error == 0 && result == data
  {
    hide DeflateError, Packed, Unpacked, SizeFits, WithinLimit;
    error, result := 0, [];
    compressError, packed := ZlibCompress(data, settings);
    if compressError == 0 {
      error, result := ZlibDecompress(packed, before, unpack);
      if settings.btype == 0 && data == [] {
        EmptyStoredFails(before, unpack);
      } else if SizeFits(|packed|) {
        PackedSize(packed, data, settings);
        PackedUnpacks(packed, data, settings, before, unpack);
      }
    }
  }

  lemma PackedSize(out: seq<byte>, data: seq<byte>, settings: CompressSettings)
    requires Packed(out, data, settings) && SizeFits(|out|)
    ensures |out| >= 6 && SizeFits(|out| - 2)
  {
  }
}
