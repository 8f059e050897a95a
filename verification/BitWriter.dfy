/**
 The bit writer: appends bits to a growing byte vector, filling each byte from its least
 significant bit. Its abstract value `Bits()` is the bit string written so far.
 */
module BitWriters {
  import opened Bits

  /** The growing byte vector that encoder and decoder append to. */
  class ByteVector {
    var data: seq<byte>

    constructor ()
      ensures data == []
    {
      data := [];
    }
  }

  /** The byte with its first free bit set. */
  lemma OrBit(prev: nat, k: nat, b: bit)
    requires prev < Pow2(k) && k < 8
    ensures Or(prev, Shl(b, k)) == prev + Shl(b, k) < Pow2(k + 1) <= 256
  {
    OrDisjoint(prev, b, k);
    ShlMono(b, 1, k);
    ShlOne(k);
    Pow2Mono(k + 1, 8);
    assert Pow2(8) == 256;
  }

  /** Setting the first free bit of the last byte appends that bit. */
  lemma AppendBit(data: seq<byte>, k: nat, b: bit)
    requires |data| > 0 && k < 8 && data[|data| - 1] < Pow2(k)
    ensures var last := Or(data[|data| - 1], Shl(b, k));
            && last < Pow2(k + 1) <= 256
            && Window(data[|data| - 1 := last], 0, 8 * (|data| - 1) + k + 1)
               == Window(data, 0, 8 * (|data| - 1) + k) + [b]
  {
    hide Pow2, Shl, Or, Shr;
    var n, prev := |data| - 1, data[|data| - 1];
    OrBit(prev, k, b);
    var data' := data[n := prev + Shl(b, k)];
    forall i | 0 <= i < 8 * n + k + 1
      ensures BitAt(data', i) == if i < 8 * n + k then BitAt(data, i) else b
    {
      if i >= 8 * n {
        AppendedBit(prev, b, k, i % 8);
      }
    }
  }

  lemma {:induction false} AppendedBit(prev: nat, b: bit, k: nat, j: nat)
    requires prev < Pow2(k) && j <= k
    ensures Shr(prev + Shl(b, k), j) % 2 == if j < k then Shr(prev, j) % 2 else b
  {
    if k > 0 {
      var h := Shl(b, k - 1);
      assert (prev + 2 * h) / 2 == prev / 2 + h && (prev + 2 * h) % 2 == prev % 2;
      if j > 0 {
        AppendedBit(prev / 2, b, k - 1, j - 1);
      }
    }
  }

  lemma AppendByte(data: seq<byte>)
    ensures Window(data + [0], 0, 8 * |data|) == Window(data, 0, 8 * |data|)
  {
  }

  lemma {:induction false} ToLESnoc(v: nat, n: nat)
    ensures ToLE(v, n + 1) == ToLE(v, n) + [Shr(v, n) % 2]
  {
    ToLESplit(v, n, 1);
    assert ToLE(Shr(v, n), 1) == [Shr(v, n) % 2];
  }

  /** The wrap at 256 does not disturb the position inside the byte. */
  lemma NextBitPosition(bp: nat)
    requires bp < 256
    ensures (bp + 1) % 256 % 8 == if bp % 8 == 7 then 0 else bp % 8 + 1
  {
  }

  class BitWriter {
    const out: ByteVector
    /** An unsigned char in the source: it wraps at 256, only its low three bits are used. */
    var bp: nat

    ghost predicate Valid()
      reads this, out
    {
      && bp < 256
      && (bp % 8 != 0 ==> |out.data| > 0 && out.data[|out.data| - 1] < Pow2(bp % 8))
    }

    /** The number of bits in the vector that have been written. */
    ghost function BitLength(): nat
      requires Valid()
      reads this, out
    {
      if bp % 8 == 0 then 8 * |out.data| else 8 * (|out.data| - 1) + bp % 8
    }

    ghost function Bits(): (bs: seq<bit>)
      requires Valid()
      reads this, out
      ensures |bs| == BitLength()
    {
      Window(out.data, 0, BitLength())
    }

    constructor (out: ByteVector)
      ensures Valid() && this.out == out && Bits() == Window(out.data, 0, 8 * |out.data|)
    {
      this.out := out;
      bp := 0;
    }

    method WriteBit(b: bit)
      requires Valid()
      modifies this, out
      ensures Valid() && Bits() == old(Bits()) + [b]
    {
      if bp % 8 == 0 {
        AppendByte(out.data);
        out.data := out.data + [0];
      }
      var n, k := |out.data| - 1, bp % 8;
      assert Window(out.data, 0, 8 * n + k) == old(Bits());
      AppendBit(out.data, k, b);
      var last := Or(out.data[n], Shl(b, k));
      out.data := out.data[n := last];
      NextBitPosition(bp);
      bp := (bp + 1) % 256;
    }

    /** The least significant bit of the value is written first. */
    method WriteBits(value: nat, nbits: nat)
      requires Valid()
      requires nbits == 1 ==> value < 2
      modifies this, out
      ensures Valid() && Bits() == old(Bits()) + ToLE(value, nbits)
    {
      if nbits == 1 {
        assert ToLE(value, 1) == [value];
        WriteBit(value);
      } else {
        var i := 0;
        assert Bits() == old(Bits()) + ToLE(value, 0);
        while i != nbits
          invariant i <= nbits && Valid()
          invariant Bits() == old(Bits()) + ToLE(value, i)
        {
          ToLESnoc(value, i);
          WriteBit(Shr(value, i) % 2);
          i := i + 1;
        }
      }
    }

    /** For Huffman codes: the most significant bit of the value is written first. */
    method WriteBitsReversed(value: nat, nbits: nat)
      requires Valid()
      modifies this, out
      ensures Valid() && Bits() == old(Bits()) + ToBE(value, nbits)
    {
      var i := 0;
      ghost var code := ToBE(value, nbits);
      while i != nbits
        invariant i <= nbits && Valid()
        invariant Bits() == old(Bits()) + code[..i]
      {
        ToBEAt(value, nbits, i);
        assert code[..i + 1] == code[..i] + [code[i]];
        WriteBit(Shr(value, nbits - 1 - i) % 2);
        i := i + 1;
      }
      assert code[..nbits] == code;
    }
  }
}
