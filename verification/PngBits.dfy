/**
 Pixels of less than eight bits: bits are taken from each byte most significant first, and lines
 are padded to whole bytes before filtering. Padding is removed in place.
 */
module PngBits {
  import opened Bits
  import opened SingleBits
  import opened PngLines
  import opened PrefixCodes

  /** Bit i of a buffer, most significant bit of each byte first. */
  function MsbAt(s: seq<byte>, i: nat): bit
    requires i < 8 * |s|
  {
    Shr(s[i / 8], 7 - i % 8) % 2
  }

  function AllBits(s: seq<byte>): (bs: seq<bit>)
    ensures |bs| == 8 * |s| && forall i :: 0 <= i < |bs| ==> bs[i] == MsbAt(s, i)
  {
    seq<bit>(8 * |s|, i requires 0 <= i < 8 * |s| => MsbAt(s, i))
  }

  /** The eight bits of a byte, read as a number with the first bit highest, are that byte. */
  lemma ByteBits(s: seq<byte>, i: nat)
    requires i < |s|
    ensures FromBE(AllBits(s)[8 * i..8 * i + 8]) == s[i]
  {
    hide Shr;
    var bs := AllBits(s)[8 * i..8 * i + 8];
    forall k | 0 <= k < 8
      ensures bs[k] == ToBE(s[i], 8)[k]
    {
      ToBEAt(s[i], 8, k);
      assert (8 * i + k) / 8 == i && (8 * i + k) % 8 == k;
      assert bs[k] == MsbAt(s, 8 * i + k);
    }
    assert bs == ToBE(s[i], 8);
    EightBits(s[i]);
  }

  lemma EightBits(b: byte)
    ensures FromBE(ToBE(b, 8)) == b
  {
    assert Pow2(8) == 256;
    FromToBE(b, 8);
  }

  lemma AllBitsConcat(a: seq<byte>, b: seq<byte>)
    ensures AllBits(a + b) == AllBits(a) + AllBits(b)
  {
    hide Shr;
    var x, y := AllBits(a + b), AllBits(a) + AllBits(b);
    forall i | 0 <= i < |x|
      ensures x[i] == y[i]
    {
      if i >= 8 * |a| {
        var k: nat := i - 8 * |a|;
        assert i / 8 == |a| + k / 8 && i % 8 == k % 8;
        assert y[i] == MsbAt(b, k);
      }
    }
  }

  lemma BitsOfSlice(s: seq<byte>, p: nat, n: nat)
    requires p + n <= |s|
    ensures AllBits(s[p..p + n]) == AllBits(s)[8 * p..8 * p + 8 * n]
  {
    hide Shr;
    AllBitsConcat(s[..p], s[p..p + n]);
    AllBitsConcat(s[..p + n], s[p + n..]);
    assert s == s[..p + n] + s[p + n..] && s[..p + n] == s[..p] + s[p..p + n];
  }

  lemma BitsOfOverwrite(s: seq<byte>, p: nat, c: seq<byte>)
    requires p + |c| <= |s|
    ensures AllBits(Overwrite(s, p, c)) == Overwrite(AllBits(s), 8 * p, AllBits(c))
  {
    hide AllBits;
    AllBitsConcat(s[..p] + c, s[p + |c|..]);
    AllBitsConcat(s[..p], c);
    BitsOfSlice(s, 0, p);
    BitsOfSlice(s, p + |c|, |s| - p - |c|);
    BitsSize(s);
    BitsSize(c);
    assert s[0..p] == s[..p] && s[p + |c|..p + |c| + (|s| - p - |c|)] == s[p + |c|..];
  }

  lemma BitsSize(s: seq<byte>)
    ensures |AllBits(s)| == 8 * |s|
  {
  }

  // ---------- one bit ----------

  /** Writing a bit into its byte changes that bit of the buffer only. */
  lemma BitWritten(s: seq<byte>, i: nat, b: bit)
    requires i < 8 * |s|
    ensures WithBit(s[i / 8], 7 - i % 8, b) < 256
    ensures AllBits(s[i / 8 := WithBit(s[i / 8], 7 - i % 8, b)]) == AllBits(s)[i := b]
  {
    hide WithBit, Shr;
    var x := WithBit(s[i / 8], 7 - i % 8, b);
    WithBitCorrect(s[i / 8], 7 - i % 8, b, 0);
    var s' := s[i / 8 := x];
    forall j | 0 <= j < 8 * |s|
      ensures AllBits(s')[j] == AllBits(s)[i := b][j]
    {
      WithBitCorrect(s[i / 8], 7 - i % 8, b, 7 - j % 8);
      if j / 8 == i / 8 && j != i {
        assert j % 8 != i % 8;
      }
    }
  }

  /** setBitOfReversedStream */
  method SetBit(a: array<byte>, bp: nat, b: bit)
    requires bp < 8 * a.Length
    modifies a
    ensures AllBits(a[..]) == AllBits(old(a[..]))[bp := b]
  {
    hide AllBits, WithBit;
    BitWritten(a[..], bp, b);
    BitsSize(a[..]);
    ghost var s := a[..];
    var x := if b == 0 then AndNot(a[bp / 8], Shl(1, 7 - bp % 8)) else Or(a[bp / 8], Shl(1, 7 - bp % 8));
    BitValue(a[bp / 8], 7 - bp % 8, b);
    a[bp / 8] := x;
  }

  /** readBitFromReversedStream */
  method GetBit(a: array<byte>, bp: nat) returns (b: bit)
    requires bp < 8 * a.Length
    ensures b == AllBits(a[..])[bp]
  {
    b := Shr(a[bp / 8], 7 - bp % 8) % 2;
  }

  // ---------- moving bits ----------

  /** n bits of b0 from obp on are being replaced by src; i of them are done, the rest of src can still be
      read at ibp. */
  ghost predicate Moving(b: seq<bit>, b0: seq<bit>, obp: nat, src: seq<bit>, i: nat, t: seq<bit>, ibp: nat)
  {
    && i <= |src| && obp + |src| <= |b0| && b == Overwrite(b0, obp, src[..i])
    && ibp + |src| <= |t| && t[ibp + i..ibp + |src|] == src[i..]
  }

  lemma StartMoving(b: seq<bit>, obp: nat, t: seq<bit>, ibp: nat, n: nat)
    requires obp + n <= |b| && ibp + n <= |t|
    ensures Moving(b, b, obp, t[ibp..ibp + n], 0, t, ibp)
  {
    OverwriteNothing(b, obp);
  }

  lemma MoveOne(b: seq<bit>, b0: seq<bit>, obp: nat, src: seq<bit>, i: nat, t: seq<bit>, ibp: nat, same: bool)
    requires Moving(b, b0, obp, src, i, t, ibp) && i < |src| && (same ==> b == t && obp <= ibp)
    ensures obp + i < |b| && ibp + i < |t| && t[ibp + i] == src[i]
    ensures var b' := b[obp + i := src[i]];
            Moving(b', b0, obp, src, i + 1, if same then b' else t, ibp)
  {
    assert t[ibp + i..ibp + |src|][0] == src[i..][0];
    assert src[..i + 1] == src[..i] + [src[i]];
    OverwriteSnoc(b0, obp, src[..i], src[i]);
    var t' := if same then b[obp + i := src[i]] else t;
    var u, v := t'[ibp + i + 1..ibp + |src|], src[i + 1..];
    forall k | 0 <= k < |u|
      ensures u[k] == v[k]
    {
      assert u[k] == t[ibp + i + 1 + k];
      assert t[ibp + i..ibp + |src|][1 + k] == src[i..][1 + k];
    }
    assert u == v;
  }

  lemma DoneMoving(b: seq<bit>, b0: seq<bit>, obp: nat, src: seq<bit>, i: nat, t: seq<bit>, ibp: nat)
    requires Moving(b, b0, obp, src, i, t, ibp) && i == |src|
    ensures b == Overwrite(b0, obp, src)
  {
    assert src[..i] == src;
  }

  /** Reads bit x of the source and writes it. */
  method MoveBit(out: array<byte>, obp: nat, inp: array<byte>, ibp: nat, x: nat, ghost b0: seq<bit>, ghost src: seq<bit>)
    requires Moving(AllBits(out[..]), b0, obp, src, x, AllBits(inp[..]), ibp) && x < |src|
    requires out == inp ==> obp <= ibp
    modifies out
    ensures Moving(AllBits(out[..]), b0, obp, src, x + 1, AllBits(inp[..]), ibp)
  {
    hide AllBits, Moving, Overwrite;
    ghost var t := inp[..];
    BitsSize(inp[..]);
    BitsSize(out[..]);
    MoveOne(AllBits(out[..]), b0, obp, src, x, AllBits(inp[..]), ibp, out == inp);
    var b := GetBit(inp, ibp + x);
    SetBit(out, obp + x, b);
    assert out != inp ==> inp[..] == t;
  }

  /** Moves n bits; in one buffer, only towards its start. */
  method MoveBits(out: array<byte>, obp: nat, inp: array<byte>, ibp: nat, n: nat)
    requires obp + n <= 8 * out.Length && ibp + n <= 8 * inp.Length && (out == inp ==> obp <= ibp)
    modifies out
    ensures AllBits(out[..]) == Overwrite(AllBits(old(out[..])), obp, AllBits(old(inp[..]))[ibp..ibp + n])
  {
    hide AllBits, Moving, Overwrite;
    ghost var b0 := AllBits(out[..]);
    BitsSize(out[..]);
    BitsSize(inp[..]);
    ghost var src := AllBits(inp[..])[ibp..ibp + n];
    StartMoving(b0, obp, AllBits(inp[..]), ibp, n);
    var x := 0;
    while x < n
      invariant x <= n && Moving(AllBits(out[..]), b0, obp, src, x, AllBits(inp[..]), ibp)
    {
      MoveBit(out, obp, inp, ibp, x, b0, src);
      x := x + 1;
    }
    DoneMoving(AllBits(out[..]), b0, obp, src, x, AllBits(inp[..]), ibp);
  }

  /** Writes n zero bits. */
  method ClearBits(out: array<byte>, obp: nat, n: nat)
    requires obp + n <= 8 * out.Length
    modifies out
    ensures AllBits(out[..]) == Overwrite(AllBits(old(out[..])), obp, Zeros(n))
  {
    hide AllBits, Overwrite;
    ghost var b0 := AllBits(out[..]);
    BitsSize(out[..]);
    OverwriteNothing(b0, obp);
    var x := 0;
    while x != n
      invariant x <= n && AllBits(out[..]) == Overwrite(b0, obp, Zeros(x))
    {
      OverwriteSnoc(b0, obp, Zeros(x), 0);
      assert Zeros(x + 1) == Zeros(x) + [0];
      SetBit(out, obp + x, 0);
      x := x + 1;
    }
  }

  function Zeros(n: nat): (bs: seq<bit>)
    ensures |bs| == n
  {
    seq<bit>(n, i => 0)
  }

  // ---------- padding ----------

  /** The first ol bits of each of h lines of il bits. */
  function CutFlat(bits: seq<bit>, off: nat, il: nat, ol: nat, h: nat): (bs: seq<bit>)
    requires off + Rows(h, il) <= |bits| && ol <= il
    ensures |bs| == Rows(h, ol)
  {
    if h == 0 then []
    else
      RowsMono(h - 1, h, il);
      CutFlat(bits, off, il, ol, h - 1) + bits[off + Rows(h - 1, il)..off + Rows(h - 1, il) + ol]
  }

  /** h lines of il bits, each followed by zeros up to ol bits. */
  function PadFlat(bits: seq<bit>, off: nat, il: nat, ol: nat, h: nat): (bs: seq<bit>)
    requires off + Rows(h, il) <= |bits| && il <= ol
    ensures |bs| == Rows(h, ol)
  {
    if h == 0 then []
    else
      RowsMono(h - 1, h, il);
      PadFlat(bits, off, il, ol, h - 1)
      + (bits[off + Rows(h - 1, il)..off + Rows(h - 1, il) + il] + Zeros(ol - il))
  }

  /** Removing the padding gives the lines back. */
  lemma {:induction false} CutPad(bits: seq<bit>, off: nat, il: nat, ol: nat, n: nat, h: nat)
    requires off + Rows(h, il) <= |bits| && il <= ol && n <= h
    ensures Rows(n, ol) <= Rows(h, ol) && Rows(n, il) <= Rows(h, il)
    ensures CutFlat(PadFlat(bits, off, il, ol, h), 0, ol, il, n) == bits[off..off + Rows(n, il)]
  {
    hide PadFlat, CutFlat, Rows;
    RowsMono(n, h, ol);
    RowsMono(n, h, il);
    PadSize(bits, off, il, ol, h);
    CutLast(PadFlat(bits, off, il, ol, h), 0, ol, il, n);
    RowsZero(il);
    if n > 0 {
      RowsMono(n - 1, n, il);
      RowsMono(n - 1, n, ol);
      CutPad(bits, off, il, ol, n - 1, h);
      PadLine(bits, off, il, ol, n - 1, h);
      RowsLast(n, il);
      JoinSlices(bits, off, Rows(n - 1, il), il);
    }
  }

  lemma RowsZero(len: nat)
    ensures Rows(0, len) == 0
  {
  }

  lemma RowsLast(n: nat, len: nat)
    requires n > 0
    ensures Rows(n, len) == Rows(n - 1, len) + len
  {
  }

  lemma CutLast(bits: seq<bit>, off: nat, il: nat, ol: nat, h: nat)
    requires off + Rows(h, il) <= |bits| && ol <= il
    ensures h == 0 ==> CutFlat(bits, off, il, ol, h) == []
    ensures h > 0 ==>
              && Rows(h, il) == Rows(h - 1, il) + il
              && CutFlat(bits, off, il, ol, h)
                 == CutFlat(bits, off, il, ol, h - 1) + bits[off + Rows(h - 1, il)..off + Rows(h - 1, il) + ol]
  {
  }

  lemma PadLast(bits: seq<bit>, off: nat, il: nat, ol: nat, h: nat)
    requires off + Rows(h, il) <= |bits| && il <= ol && h > 0
    ensures Rows(h, il) == Rows(h - 1, il) + il && Rows(h, ol) == Rows(h - 1, ol) + ol
    ensures PadFlat(bits, off, il, ol, h)
         == PadFlat(bits, off, il, ol, h - 1) + (bits[off + Rows(h - 1, il)..off + Rows(h - 1, il) + il] + Zeros(ol - il))
  {
    hide Zeros;
  }

  lemma PadSize(bits: seq<bit>, off: nat, il: nat, ol: nat, h: nat)
    requires off + Rows(h, il) <= |bits| && il <= ol
    ensures |PadFlat(bits, off, il, ol, h)| == Rows(h, ol)
  {
  }

  lemma JoinSlices(bits: seq<bit>, off: nat, a: nat, b: nat)
    requires off + a + b <= |bits|
    ensures bits[off..off + a] + bits[off + a..off + a + b] == bits[off..off + (a + b)]
  {
  }

  /** Line y of a padded image. */
  lemma {:induction false} PadLine(bits: seq<bit>, off: nat, il: nat, ol: nat, y: nat, h: nat)
    requires off + Rows(h, il) <= |bits| && il <= ol && y < h
    ensures Rows(y, ol) + il <= Rows(h, ol) && off + Rows(y, il) + il <= |bits|
    ensures PadFlat(bits, off, il, ol, h)[Rows(y, ol)..Rows(y, ol) + il]
         == bits[off + Rows(y, il)..off + Rows(y, il) + il]
  {
    hide PadFlat, Rows, Zeros;
    RowsMono(y, h, ol);
    RowsMono(y, h, il);
    PadLast(bits, off, il, ol, h);
    PadSize(bits, off, il, ol, h - 1);
    var front, line := PadFlat(bits, off, il, ol, h - 1), bits[off + Rows(h - 1, il)..off + Rows(h - 1, il) + il];
    if y < h - 1 {
      PadLine(bits, off, il, ol, y, h - 1);
      TakeFront(front, line + Zeros(ol - il), Rows(y, ol), il);
    } else {
      TakeBack(front, line, Zeros(ol - il));
    }
  }

  lemma TakeFront(a: seq<bit>, b: seq<bit>, p: nat, n: nat)
    requires p + n <= |a|
    ensures (a + b)[p..p + n] == a[p..p + n]
  {
  }

  lemma TakeBack(a: seq<bit>, b: seq<bit>, c: seq<bit>)
    ensures (a + (b + c))[|a|..|a| + |b|] == b
  {
  }

  /** Lines beyond off are not touched by a write that ends before them. */
  lemma {:induction false} CutFlatAgrees(a: seq<bit>, b: seq<bit>, off: nat, il: nat, ol: nat, h: nat)
    requires off + Rows(h, il) <= |a| && off + Rows(h, il) <= |b| && ol <= il
    requires a[off..off + Rows(h, il)] == b[off..off + Rows(h, il)]
    ensures CutFlat(a, off, il, ol, h) == CutFlat(b, off, il, ol, h)
  {
    hide Rows, CutFlat;
    CutLast(a, off, il, ol, h);
    CutLast(b, off, il, ol, h);
    if h > 0 {
      var p, q := Rows(h - 1, il), Rows(h, il);
      PartsAgree(a, b, off, q, 0, p);
      PartsAgree(a, b, off, q, p, ol);
      CutFlatAgrees(a, b, off, il, ol, h - 1);
    }
  }

  /** One line less of padding to remove. */
  lemma NextCut(b: seq<bit>, b0: seq<bit>, bits: seq<bit>, outbit: nat, inbit: nat, ol: nat, il: nat, y: nat, h: nat)
    requires inbit + Rows(h, il) <= |bits| && ol <= il && y < h && outbit + Rows(h, ol) <= |b0|
    requires Rows(y, il) <= Rows(h, il) && Rows(y, ol) <= Rows(h, ol)
    requires b == Overwrite(b0, outbit, CutFlat(bits, inbit, il, ol, y))
    ensures Rows(y + 1, il) <= Rows(h, il) && Rows(y + 1, ol) <= Rows(h, ol) && inbit + Rows(y, il) + ol <= |bits|
    ensures Overwrite(b, outbit + Rows(y, ol), bits[inbit + Rows(y, il)..inbit + Rows(y, il) + ol])
         == Overwrite(b0, outbit, CutFlat(bits, inbit, il, ol, y + 1))
  {
    hide Overwrite;
    RowsMono(y + 1, h, il);
    RowsMono(y + 1, h, ol);
    OverwriteMore(b0, outbit, CutFlat(bits, inbit, il, ol, y), bits[inbit + Rows(y, il)..inbit + Rows(y, il) + ol]);
  }

  /** In place, the lines still to be moved are where they were. */
  lemma AheadUntouched(b0: seq<bit>, outbit: nat, inbit: nat, ol: nat, il: nat, y: nat, h: nat, n: nat)
    requires outbit <= inbit && ol <= il && y < h && inbit + Rows(h, il) <= |b0|
    requires Rows(y, il) <= Rows(h, il) && n == ol
    ensures inbit + Rows(y, il) + n <= |b0| && outbit + Rows(y, ol) <= |b0|
    ensures Overwrite(b0, outbit, CutFlat(b0, inbit, il, ol, y))[inbit + Rows(y, il)..inbit + Rows(y, il) + n]
         == b0[inbit + Rows(y, il)..inbit + Rows(y, il) + n]
  {
    hide Overwrite, CutFlat;
    RowsMono(y, h, il);
    RowsLonger(y, ol, il);
    CutSize(b0, inbit, il, ol, y);
    OverwriteElsewhere(b0, outbit, CutFlat(b0, inbit, il, ol, y), inbit + Rows(y, il), n);
  }

  lemma CutSize(bits: seq<bit>, off: nat, il: nat, ol: nat, h: nat)
    requires off + Rows(h, il) <= |bits| && ol <= il
    ensures |CutFlat(bits, off, il, ol, h)| == Rows(h, ol)
  {
  }

  /** Removes the padding of h lines, in one buffer or from one to another. */
  method RemovePaddingBits(out: array<byte>, outoff: nat, inp: array<byte>, inoff: nat, olinebits: nat, ilinebits: nat, h: nat)
    requires olinebits <= ilinebits && (out == inp ==> outoff <= inoff)
    requires 8 * inoff + Rows(h, ilinebits) <= 8 * inp.Length && 8 * outoff + Rows(h, olinebits) <= 8 * out.Length
    modifies out
    ensures |AllBits(old(inp[..]))| == 8 * inp.Length && |AllBits(old(out[..]))| == 8 * out.Length
    ensures AllBits(out[..])
         == Overwrite(AllBits(old(out[..])), 8 * outoff,
                      CutFlat(AllBits(old(inp[..])), 8 * inoff, ilinebits, olinebits, h))
  {
    hide AllBits, Overwrite, CutFlat, Rows;
    ghost var b0, bits := AllBits(out[..]), AllBits(inp[..]);
    BitsSize(out[..]);
    BitsSize(inp[..]);
    NothingCut(b0, 8 * outoff, bits, 8 * inoff, ilinebits, olinebits);
    var diff := ilinebits - olinebits;
    var ibp, obp := 8 * inoff, 8 * outoff;
    var y := 0;
    while y < h
      invariant y <= h && Rows(y, ilinebits) <= Rows(h, ilinebits) && Rows(y, olinebits) <= Rows(h, olinebits)
      invariant ibp == 8 * inoff + Rows(y, ilinebits) && obp == 8 * outoff + Rows(y, olinebits)
      invariant AllBits(out[..]) == Overwrite(b0, 8 * outoff, CutFlat(bits, 8 * inoff, ilinebits, olinebits, y))
      invariant out != inp ==> AllBits(inp[..]) == bits
    {
      RowsLonger(y, olinebits, ilinebits);
      NextCut(AllBits(out[..]), b0, bits, 8 * outoff, 8 * inoff, olinebits, ilinebits, y, h);
      RowsSteps(y, ilinebits, olinebits);
      if out == inp {
        AheadUntouched(b0, 8 * outoff, 8 * inoff, olinebits, ilinebits, y, h, olinebits);
      }
      MoveBits(out, obp, inp, ibp, olinebits);
      ibp := ibp + olinebits + diff;
      obp := obp + olinebits;
      y := y + 1;
    }
  }

  lemma RowsSteps(y: nat, a: nat, b: nat)
    ensures Rows(y + 1, a) == Rows(y, a) + a && Rows(y + 1, b) == Rows(y, b) + b
  {
  }

  lemma NothingCut(b0: seq<bit>, outbit: nat, bits: seq<bit>, inbit: nat, il: nat, ol: nat)
    requires outbit <= |b0| && inbit <= |bits| && ol <= il
    ensures Rows(0, il) == 0 && Rows(0, ol) == 0
    ensures b0 == Overwrite(b0, outbit, CutFlat(bits, inbit, il, ol, 0))
  {
    OverwriteNothing(b0, outbit);
  }
}
