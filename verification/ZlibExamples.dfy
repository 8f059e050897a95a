/**
 A whole zlib stream given as bytes, and headers and checksums that are refused.
 */
module ZlibExamples {
  import opened Bits
  import opened InflateSpec
  import opened Adler32
  import opened Zlib
  import E = DeflateExamples

  lemma {:induction false} SumOfNothing(n: nat)
    ensures Sum(seq<byte>(n, i => 0)) == 0 && SumOfSums(seq<byte>(n, i => 0)) == n
  {
    if n > 0 {
      SumOfNothing(n - 1);
      assert seq<byte>(n, i => 0)[..n - 1] == seq<byte>(n - 1, i => 0);
    }
  }

  /** 259 zeros and a 1. */
  lemma ChecksumOfZeros()
    ensures Adler(seq<byte>(259, i => 0) + [1]) == 0x0105_0002
  {
    hide Sum, SumOfSums;
    var zeros := seq<byte>(259, i => 0);
    SumOfNothing(259);
    AdlerIsSums(zeros + [1]);
    OneMore(zeros, 1);
  }

  lemma OneMore(data: seq<byte>, b: byte)
    ensures Sum(data + [b]) == Sum(data) + b && SumOfSums(data + [b]) == SumOfSums(data) + 1 + Sum(data) + b
  {
    assert (data + [b])[..|data|] == data;
  }

  /** A stream that is accepted, and one whose checksum is off by one. */
  lemma ZlibExample(before: byte, settings: ZlibSettings)
    requires settings.inflate.maxOutput == 0 || settings.inflate.maxOutput >= 260
    ensures Unpacked([0x78, 0x01, 0x63, 0x18, 0x05, 0x8C, 0x00, 0x01, 0x05, 0x00, 0x02], before, settings)
         == Done(seq<byte>(259, i => 0) + [1], 39)
    ensures Unpacked([0x78, 0x01, 0x63, 0x18, 0x05, 0x8C, 0x00, 0x01, 0x05, 0x00, 0x03], before, settings)
         == if settings.ignoreAdler32 then Done(seq<byte>(259, i => 0) + [1], 39) else Fail(58)
  {
    hide Adler, Inflated;
    ChecksumOfZeros();
    Behind(2, settings);
    Behind(3, settings);
    LastAre(2, before);
    LastAre(3, before);
  }

  function Stream(last: byte): (data: seq<byte>)
  {
    [0x78, 0x01, 0x63, 0x18, 0x05, 0x8C, 0x00, 0x01, 0x05, 0x00, last]
  }

  /** The bytes of the checksum behind the deflate stream change nothing. */
  lemma Behind(last: byte, settings: ZlibSettings)
    requires settings.inflate.maxOutput == 0 || settings.inflate.maxOutput >= 260
    ensures Inflated(Stream(last)[2..], [], settings.inflate) == Done(seq<byte>(259, i => 0) + [1], 39)
  {
    hide Inflated;
    E.FixedFollowed([0x01, 0x05, 0x00, last], settings.inflate);
    assert Stream(last)[2..] == [0x63, 0x18, 0x05, 0x8C, 0x00] + [0x01, 0x05, 0x00, last];
  }

  lemma LastAre(last: byte, before: byte)
    ensures LastFour(Stream(last), before) == [0x01, 0x05, 0x00, last]
  {
  }

  /** Headers whose check bits, method or dictionary flag are refused, in this order. */
  lemma HeaderExamples()
    ensures HeaderError(0x78, 0x01) == 0 && HeaderError(0x78, 0x9C) == 0
    ensures HeaderError(0x78, 0x02) == 24 && HeaderError(0x77, 0x09) == 25 && HeaderError(0x88, 0x1C) == 25
    ensures HeaderError(0x78, 0x20) == 26
  {
  }
}
