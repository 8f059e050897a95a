/**
 Samples of less than a byte: packed into bytes from the most significant end, and read bit by bit.
 */
module ColorPacking {
  import opened Bits
  import opened PrefixCodes
  import opened PngBits
  import opened ColorStatistics

  predicate SmallDepth(bits: nat)
  {
    bits == 1 || bits == 2 || bits == 4
  }

  /** Samples in a byte, less one. */
  function Mask(bits: nat): nat
  {
    if bits == 1 then 7 else if bits == 2 then 3 else 1
  }

  /** How far to the left sample i is shifted in its byte. */
  function Shift(i: nat, bits: nat): (k: nat)
    requires SmallDepth(bits)
    ensures k + bits <= 8
  {
    bits * (Mask(bits) - i % (Mask(bits) + 1))
  }

  /** The byte that sample i lies in. */
  function Place(i: nat, bits: nat): nat
  {
    i * bits / 8
  }

  /** Sample i. */
  function Sample(s: seq<byte>, i: nat, bits: nat): (v: nat)
    requires SmallDepth(bits) && Place(i, bits) < |s|
  {
    Low(Shr(s[Place(i, bits)], Shift(i, bits)), bits)
  }

  /** Nothing has been written behind sample i in its byte. */
  ghost predicate CleanBehind(s: seq<byte>, i: nat, bits: nat)
    requires SmallDepth(bits)
  {
    Place(i, bits) < |s| && Low(s[Place(i, bits)], Shift(i, bits)) == 0
  }

  lemma SmallPowers()
    ensures Pow2(0) == 1 && Pow2(1) == 2 && Pow2(2) == 4 && Pow2(4) == 16 && Pow2(8) == 256
  {
    assert Pow2(4) == 16;
  }

  /** A byte x whose low k + n bits are clear, with v put n bits wide at k. */
  lemma PutSample(x: nat, v: nat, k: nat, n: nat)
    requires x < 256 && v < Pow2(n) && k + n <= 8 && Low(x, k + n) == 0
    ensures var y := Or(x, Shl(v, k));
            && y < 256 && Low(Shr(y, k), n) == v && Low(y, k) == 0 && Shr(y, k + n) == Shr(x, k + n)
  {
    hide Or, Shl, Shr, Low, Pow2;
    var h := Shr(x, k + n);
    LowHigh(x, k + n);
    ShlShl(h, n, k);
    assert x == Shl(Shl(h, n), k);
    ShlBelow(v, n, k);
    OrSwap(x, Shl(v, k));
    assert x == Shl(h, k + n) by { assert n + k == k + n; }
    OrDisjoint(Shl(v, k), h, k + n);
    var g := v + Shl(h, n);
    ShlAdd(v, Shl(h, n), k);
    assert Or(x, Shl(v, k)) == Shl(g, k);
    LowHighUnique(v, h, n);
    ShiftBack(g, k);
    ShrShr(Shl(g, k), k, n);
    Fits256(h, v, n, k, x);
  }

  /** v < 2^n gives v << k < 2^(k + n). */
  lemma ShlBelow(v: nat, n: nat, k: nat)
    requires v < Pow2(n)
    ensures Shl(v, k) < Pow2(k + n)
  {
    hide Shl, Pow2;
    ShlMono(v, Pow2(n), k);
    ShlPow2(n, k);
    Pow2Positive(k);
    assert n + k == k + n;
  }

  lemma Pow2Positive(k: nat)
    ensures Pow2(k) >= 1
  {
  }

  lemma ShiftBack(g: nat, k: nat)
    ensures Shr(Shl(g, k), k) == g && Low(Shl(g, k), k) == 0
  {
    hide Shl, Shr, Low, Pow2;
    Pow2Positive(k);
    LowHighUnique(0, g, k);
  }

  lemma {:induction false} OrSwap(a: nat, b: nat)
    ensures Or(a, b) == Or(b, a)
  {
    if a > 0 && b > 0 {
      OrSwap(a / 2, b / 2);
    }
  }

  lemma Fits256(h: nat, v: nat, n: nat, k: nat, x: nat)
    requires x == Shl(h, k + n) < 256 && v < Pow2(n) && k + n <= 8
    ensures Shl(v + Shl(h, n), k) < 256
  {
    hide Shl, Pow2;
    var m: nat := 8 - (k + n);
    Eight();
    HighPart(h, m, k + n);
    ShlMono(h + 1, Pow2(m), n);
    ShlAdd(h, 1, n);
    ShlOne(n);
    ShlPow2(m, n);
    assert v + Shl(h, n) < Pow2(m + n);
    ShlBelow(v + Shl(h, n), m + n, k);
    assert k + (m + n) == 8;
  }

  /** h << j < 2^(m + j) gives h < 2^m. */
  lemma HighPart(h: nat, m: nat, j: nat)
    requires m + j == 8 && Shl(h, j) < 256
    ensures h < Pow2(m)
  {
    hide Shl, Pow2;
    Eight();
    ShlPow2(m, j);
    ShlMono(Pow2(m), if h < Pow2(m) then Pow2(m) else h, j);
  }

  lemma Eight()
    ensures Pow2(8) == 256
  {
  }

  lemma DivEight(q: nat, r: nat)
    requires r < 8
    ensures (8 * q + r) / 8 == q && (8 * q + r) % 8 == r
  {
  }

  /** Byte and rank of sample i. */
  lemma Parts(i: nat, bits: nat) returns (q: nat, r: nat)
    requires SmallDepth(bits)
    ensures r <= Mask(bits) && i == (Mask(bits) + 1) * q + r && r == i % (Mask(bits) + 1)
    ensures Place(i, bits) == q && Shift(i, bits) == bits * (Mask(bits) - r)
    ensures i * bits == 8 * q + bits * r
  {
    if bits == 1 {
      q, r := i / 8, i % 8;
      DivEight(q, r);
    } else if bits == 2 {
      q, r := i / 4, i % 4;
      DivEight(q, 2 * r);
    } else {
      q, r := i / 2, i % 2;
      DivEight(q, 4 * r);
    }
  }

  /** Samples of one byte that come earlier lie further to the left. */
  lemma EarlierSample(i: nat, j: nat, bits: nat)
    requires SmallDepth(bits) && j < i
    ensures Place(j, bits) <= Place(i, bits)
    ensures Place(j, bits) == Place(i, bits) ==> Shift(j, bits) >= Shift(i, bits) + bits && i % (Mask(bits) + 1) != 0
  {
    hide Place, Shift;
    var q, r := Parts(i, bits);
    var q', r' := Parts(j, bits);
  }

  /** The first sample of a byte has nothing before it, any other follows its neighbour. */
  lemma FirstOrNext(i: nat, bits: nat)
    requires SmallDepth(bits)
    ensures i % (Mask(bits) + 1) == 0 ==> Shift(i, bits) + bits == 8
    ensures i % (Mask(bits) + 1) != 0 ==> i > 0 && Place(i - 1, bits) == Place(i, bits) && Shift(i - 1, bits) == Shift(i, bits) + bits
  {
    hide Place, Shift;
    var q, r := Parts(i, bits);
    if r != 0 {
      var q', r' := Parts(i - 1, bits);
    }
  }

  lemma SameSample(x: nat, y: nat, k: nat, n: nat, j: nat)
    requires Shr(x, k + n) == Shr(y, k + n) && j >= k + n
    ensures Shr(x, j) == Shr(y, j)
  {
    ShrShr(x, k + n, j - (k + n));
    ShrShr(y, k + n, j - (k + n));
  }

  /** addColorBits: writes sample i behind the ones before it. */
  method AddColorBits(out: array<byte>, i: nat, bits: nat, v: nat)
    requires SmallDepth(bits) && Place(i, bits) < out.Length && v < Pow2(bits)
    requires i > 0 ==> CleanBehind(out[..], i - 1, bits)
    modifies out
    ensures Sample(out[..], i, bits) == v && CleanBehind(out[..], i, bits)
    ensures forall j: nat :: j < i ==> Place(j, bits) < out.Length && Sample(out[..], j, bits) == Sample(old(out[..]), j, bits)
    ensures forall k :: 0 <= k < out.Length && k != Place(i, bits) ==> out[k] == old(out[k])
  {
    hide Or, Shl, Shr, Low, Pow2, Place, Shift;
    ghost var s := out[..];
    var p := i % (Mask(bits) + 1);
    var place, k := Place(i, bits), Shift(i, bits);
    FirstOrNext(i, bits);
    ShlZero(k + bits);
    var x := if p == 0 then 0 else out[place];
    ghost var x0 := x;
    PutSample(x, v, k, bits);
    OrZero(Shl(v, k));
    if p == 0 {
      out[place] := Shl(v, k);
    } else {
      out[place] := Or(out[place], Shl(v, k));
    }
    forall j: nat | j < i
      ensures Place(j, bits) < out.Length && Sample(out[..], j, bits) == Sample(s, j, bits)
    {
      EarlierSample(i, j, bits);
      if Place(j, bits) == place {
        SameSample(out[place], x0, k, bits, Shift(j, bits));
      }
    }
  }

  lemma OrZero(v: nat)
    ensures Or(0, v) == v
  {
  }

  // ---------- reading ----------

  lemma {:induction false} LowBit(x: nat, n: nat, t: nat)
    requires t < n
    ensures Shr(Low(x, n), t) % 2 == Shr(x, t) % 2
  {
    if t > 0 {
      LowBit(x / 2, n - 1, t - 1);
      assert (x % 2 + 2 * Low(x / 2, n - 1)) / 2 == Low(x / 2, n - 1);
    }
  }

  lemma PlaceBits(i: nat, bits: nat, j: nat)
    requires SmallDepth(bits) && j < bits
    ensures (i * bits + j) / 8 == Place(i, bits) && 7 - (i * bits + j) % 8 == Shift(i, bits) + (bits - 1 - j)
  {
    hide Place, Shift;
    var q, r := Parts(i, bits);
    DivEight(q, bits * r + j);
  }

  /** The bits of sample i, first bit most significant. */
  lemma SampleBits(s: seq<byte>, i: nat, bits: nat)
    requires SmallDepth(bits) && Place(i, bits) < |s|
    ensures i * bits + bits <= |AllBits(s)|
    ensures AllBits(s)[i * bits..i * bits + bits] == ToBE(Sample(s, i, bits), bits)
    ensures FromBE(AllBits(s)[i * bits..i * bits + bits]) == Sample(s, i, bits)
  {
    hide Shr, Low, Place, Shift, ToBE, FromBE, Pow2;
    BitsSize(s);
    PlaceBits(i, bits, bits - 1);
    var x, k, v := s[Place(i, bits)], Shift(i, bits), Sample(s, i, bits);
    var w := AllBits(s)[i * bits..i * bits + bits];
    forall j: nat | j < bits
      ensures w[j] == ToBE(v, bits)[j]
    {
      PlaceBits(i, bits, j);
      assert w[j] == MsbAt(s, i * bits + j);
      ToBEAt(v, bits, j);
      LowBit(Shr(x, k), bits, bits - 1 - j);
      ShrShr(x, k, bits - 1 - j);
    }
    LowBound(Shr(x, k), bits);
    FromToBE(v, bits);
  }

  /** readBitsFromReversedStream */
  method ReadBits(s: array<byte>, bp: nat, n: nat) returns (r: nat)
    requires bp + n <= 8 * s.Length
    ensures |AllBits(s[..])| == 8 * s.Length && r == FromBE(AllBits(s[..])[bp..bp + n])
  {
    hide AllBits, FromBE;
    BitsSize(s[..]);
    ghost var bits := AllBits(s[..]);
    r := 0;
    NoBits(bits[bp..bp + 0]);
    var i := 0;
    while i < n
      invariant i <= n && r == FromBE(bits[bp..bp + i])
    {
      assert bits[bp..bp + i + 1] == bits[bp..bp + i] + [bits[bp + i]];
      FromBESnoc(bits[bp..bp + i], bits[bp + i]);
      var b := GetBit(s, bp + i);
      r := 2 * r + b;
      i := i + 1;
    }
  }

  lemma NoBits(bs: seq<bit>)
    requires bs == []
    ensures FromBE(bs) == 0
  {
  }

  lemma FromBESnoc(bs: seq<bit>, b: bit)
    ensures FromBE(bs + [b]) == 2 * FromBE(bs) + b
  {
    assert (bs + [b])[..|bs|] == bs;
  }

  method ReadSample(s: array<byte>, i: nat, bits: nat) returns (v: nat)
    requires SmallDepth(bits) && Place(i, bits) < s.Length
    ensures v == Sample(s[..], i, bits)
  {
    hide AllBits, FromBE, ToBE;
    BitsSize(s[..]);
    SampleBits(s[..], i, bits);
    v := ReadBits(s, i * bits, bits);
  }

  // ---------- grey values of small depths ----------

  /** The most significant bits. */
  function TopBits(v: byte, bits: nat): nat
  {
    if bits == 1 then v / 128 else if bits == 2 then v / 64 else if bits == 4 then v / 16 else v
  }

  function Highest(bits: nat): nat
  {
    if bits == 1 then 1 else if bits == 2 then 3 else if bits == 4 then 15 else 255
  }

  lemma Scaled2(t: nat)
    requires t <= 3
    ensures 85 * t / 64 == t && t * 255 / 3 == 85 * t && (257 * (85 * t)) % 4 == t
  {
    if t == 0 {} else if t == 1 {} else if t == 2 {} else {}
  }

  lemma Scaled4(t: nat)
    requires t <= 15
    ensures 17 * t / 16 == t && t * 255 / 15 == 17 * t && (257 * (17 * t)) % 16 == t
  {
    assert 257 * (17 * t) == 16 * (273 * t) + t;
  }

  /** A value that the depth holds is given back by scaling, and the key's mask cuts the same bits. */
  lemma ScaledBack(v: byte, bits: nat)
    requires Depth(bits) && Holds(bits, v)
    ensures TopBits(v, bits) * 255 / Highest(bits) == v
    ensures TopBits(v, bits) <= Highest(bits) && (257 * v) % (Highest(bits) + 1) == TopBits(v, bits)
  {
    hide TopBits, Highest, Holds;
    DepthValues(v, bits);
    if bits == 1 {
    } else if bits == 2 {
      Scaled2(v / 85);
    } else if bits == 4 {
      Scaled4(v / 17);
    } else {
      Scaled8(v);
    }
  }

  lemma Scaled8(v: byte)
    ensures v * 255 / 255 == v && (257 * v) % 256 == v
  {
    assert 257 * v == 256 * v + v;
  }

  lemma DepthValues(v: byte, bits: nat)
    requires Depth(bits) && Holds(bits, v)
    ensures bits == 1 ==> (v == 0 && TopBits(v, bits) == 0) || (v == 255 && TopBits(v, bits) == 1)
    ensures bits == 2 ==> v == 85 * (v / 85) && v / 85 <= 3 && TopBits(v, bits) == v / 64
    ensures bits == 4 ==> v == 17 * (v / 17) && v / 17 <= 15 && TopBits(v, bits) == v / 16
    ensures bits == 8 ==> TopBits(v, bits) == v
    ensures Highest(bits) == if bits == 1 then 1 else if bits == 2 then 3 else if bits == 4 then 15 else 255
  {
  }
}
