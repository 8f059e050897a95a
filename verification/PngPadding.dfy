/**
 Adding padding bits, and what padded byte lines mean as an image of bits.
 */
module PngPadding {
  import opened Bits
  import opened PngLines
  import opened PngBits

  /** One more padded line. */
  lemma NextPad(b: seq<bit>, b0: seq<bit>, bits: seq<bit>, inbit: nat, ol: nat, il: nat, y: nat, h: nat)
    requires inbit + Rows(h, il) <= |bits| && il <= ol && y < h && Rows(h, ol) <= |b0|
    requires Rows(y, il) <= Rows(h, il) && Rows(y, ol) <= Rows(h, ol)
    requires b == Overwrite(b0, 0, PadFlat(bits, inbit, il, ol, y))
    ensures Rows(y + 1, il) <= Rows(h, il) && Rows(y + 1, ol) <= Rows(h, ol)
    ensures inbit + Rows(y, il) + il <= |bits| && Rows(y, ol) + il + (ol - il) <= |b|
    ensures Overwrite(Overwrite(b, Rows(y, ol), bits[inbit + Rows(y, il)..inbit + Rows(y, il) + il]),
                      Rows(y, ol) + il, Zeros(ol - il))
         == Overwrite(b0, 0, PadFlat(bits, inbit, il, ol, y + 1))
  {
    hide Overwrite, Zeros;
    RowsMono(y + 1, h, il);
    RowsMono(y + 1, h, ol);
    var line := bits[inbit + Rows(y, il)..inbit + Rows(y, il) + il];
    OverwriteMore(b, Rows(y, ol), line, Zeros(ol - il));
    OverwriteMore(b0, 0, PadFlat(bits, inbit, il, ol, y), line + Zeros(ol - il));
  }

  lemma NothingPadded(b0: seq<bit>, bits: seq<bit>, inbit: nat, il: nat, ol: nat)
    requires inbit <= |bits| && il <= ol
    ensures Rows(0, il) == 0 && Rows(0, ol) == 0
    ensures b0 == Overwrite(b0, 0, PadFlat(bits, inbit, il, ol, 0))
  {
    OverwriteNothing(b0, 0);
  }

  /** Pads h lines to whole bytes. */
  method AddPaddingBits(out: array<byte>, inp: array<byte>, inoff: nat, olinebits: nat, ilinebits: nat, h: nat)
    requires ilinebits <= olinebits && out != inp
    requires 8 * inoff + Rows(h, ilinebits) <= 8 * inp.Length && Rows(h, olinebits) <= 8 * out.Length
    modifies out
    ensures |AllBits(inp[..])| == 8 * inp.Length && |AllBits(old(out[..]))| == 8 * out.Length
    ensures AllBits(out[..])
         == Overwrite(AllBits(old(out[..])), 0, PadFlat(AllBits(inp[..]), 8 * inoff, ilinebits, olinebits, h))
  {
    hide AllBits, Overwrite, PadFlat, Rows, Zeros;
    ghost var b0, bits := AllBits(out[..]), AllBits(inp[..]);
    BitsSize(out[..]);
    BitsSize(inp[..]);
    NothingPadded(b0, bits, 8 * inoff, ilinebits, olinebits);
    var diff := olinebits - ilinebits;
    var obp, ibp := 0, 8 * inoff;
    var y := 0;
    while y != h
      invariant y <= h && Rows(y, ilinebits) <= Rows(h, ilinebits) && Rows(y, olinebits) <= Rows(h, olinebits)
      invariant ibp == 8 * inoff + Rows(y, ilinebits) && obp == Rows(y, olinebits)
      invariant AllBits(out[..]) == Overwrite(b0, 0, PadFlat(bits, 8 * inoff, ilinebits, olinebits, y))
    {
      NextPad(AllBits(out[..]), b0, bits, 8 * inoff, olinebits, ilinebits, y, h);
      RowsSteps(y, ilinebits, olinebits);
      MoveBits(out, obp, inp, ibp, ilinebits);
      ClearBits(out, obp + ilinebits, diff);
      ibp := ibp + ilinebits;
      obp := obp + ilinebits + diff;
      y := y + 1;
    }
  }

  // ---------- lines of bytes as an image of bits ----------

  /** The first n bits of each line, one line after the other. */
  function ImageBits(ls: seq<seq<byte>>, n: nat): seq<bit>
    requires forall y :: 0 <= y < |ls| ==> n <= 8 * |ls[y]|
  {
    if |ls| == 0 then []
    else ImageBits(ls[..|ls| - 1], n) + AllBits(ls[|ls| - 1])[..n]
  }

  /** The image in a buffer that holds the lines. */
  lemma {:induction false} ImageInBuffer(s: seq<byte>, off: nat, ls: seq<seq<byte>>, len: nat, n: nat)
    requires LinesOf(ls, len) && n <= 8 * len && off + |Flat(ls)| <= |s| && s[off..off + |Flat(ls)|] == Flat(ls)
    ensures |Flat(ls)| == Rows(|ls|, len) && Rows(|ls|, 8 * len) == 8 * Rows(|ls|, len)
    ensures |AllBits(s)| == 8 * |s|
    ensures CutFlat(AllBits(s), 8 * off, 8 * len, n, |ls|) == ImageBits(ls, n)
    decreases |ls|
  {
    hide AllBits, Flat, CutFlat, Rows;
    BitsSize(s);
    FlatSize(ls, len);
    EightTimes(|ls|, len);
    CutLast(AllBits(s), 8 * off, 8 * len, n, |ls|);
    if |ls| > 0 {
      LastLineInBuffer(s, off, ls, len);
      ImageInBuffer(s, off, ls[..|ls| - 1], len, n);
      EightTimes(|ls| - 1, len);
      var p := off + Rows(|ls| - 1, len);
      BitsOfSlice(s, p, len);
      FirstBits(AllBits(s), 8 * p, 8 * len, n);
    }
  }

  lemma FirstBits(bits: seq<bit>, p: nat, m: nat, n: nat)
    requires n <= m && p + m <= |bits|
    ensures bits[p..p + m][..n] == bits[p..p + n]
  {
  }

  lemma LastLineInBuffer(s: seq<byte>, off: nat, ls: seq<seq<byte>>, len: nat)
    requires LinesOf(ls, len) && |ls| > 0 && off + |Flat(ls)| <= |s| && s[off..off + |Flat(ls)|] == Flat(ls)
    ensures var front := ls[..|ls| - 1];
            && LinesOf(front, len) && |Flat(front)| == Rows(|ls| - 1, len) && off + Rows(|ls| - 1, len) + len <= |s|
            && s[off..off + |Flat(front)|] == Flat(front)
            && s[off + Rows(|ls| - 1, len)..off + Rows(|ls| - 1, len) + len] == ls[|ls| - 1]
  {
    var front, line, flat := ls[..|ls| - 1], ls[|ls| - 1], Flat(ls);
    var f := Flat(front);
    FlatSize(front, len);
    var t := s[off..off + |flat|];
    assert t[..|f|] == f && t[|f|..] == line;
    assert s[off..off + |f|] == t[..|f|];
    assert s[off + |f|..off + |f| + len] == t[|f|..];
  }

  /** Without padding, the image is all bits of the lines. */
  lemma {:induction false} ImageWhole(ls: seq<seq<byte>>, len: nat)
    requires LinesOf(ls, len)
    ensures ImageBits(ls, 8 * len) == AllBits(Flat(ls))
  {
    hide AllBits;
    if |ls| == 0 {
      BitsSize([]);
    } else {
      var front, line := ls[..|ls| - 1], ls[|ls| - 1];
      ImageWhole(front, len);
      AllBitsConcat(Flat(front), line);
      BitsSize(line);
    }
  }

  lemma {:induction false} ImageSize(ls: seq<seq<byte>>, len: nat, n: nat)
    requires LinesOf(ls, len) && n <= 8 * len
    ensures |ImageBits(ls, n)| == Rows(|ls|, n)
  {
    hide AllBits;
    if |ls| > 0 {
      ImageSize(ls[..|ls| - 1], len, n);
      BitsSize(ls[|ls| - 1]);
    }
  }

  /** Padded lines are an image of the bits they were made from. */
  lemma PaddedImage(s: seq<byte>, b0: seq<bit>, bits: seq<bit>, off: nat, il: nat, len: nat, h: nat)
    requires off + Rows(h, il) <= |bits| && il <= 8 * len && Rows(h, len) <= |s| && |b0| == 8 * |s|
    requires Rows(h, 8 * len) <= |b0| && AllBits(s) == Overwrite(b0, 0, PadFlat(bits, off, il, 8 * len, h))
    ensures ImageBits(Chop(s, len, h), il) == bits[off..off + Rows(h, il)]
  {
    hide AllBits, PadFlat, Overwrite, Chop, CutFlat;
    var ls := Chop(s, len, h);
    var padded := PadFlat(bits, off, il, 8 * len, h);
    FlatChop(s, len, h);
    FlatSize(ls, len);
    assert s[0..|Flat(ls)|] == s[..Rows(h, len)];
    ImageInBuffer(s, 0, ls, len, il);
    PadSize(bits, off, il, 8 * len, h);
    OverwriteRead(b0, 0, padded);
    assert padded[0..0 + Rows(h, 8 * len)] == padded;
    CutFlatAgrees(AllBits(s), padded, 0, 8 * len, il, h);
    CutPad(bits, off, il, 8 * len, h, h);
  }

  /** Unpadded lines likewise. */
  lemma UnpaddedImage(s: seq<byte>, off: nat, len: nat, h: nat)
    requires off + Rows(h, len) <= |s|
    ensures |AllBits(s)| == 8 * |s| && Rows(h, 8 * len) == 8 * Rows(h, len)
    ensures ImageBits(Chop(s[off..off + Rows(h, len)], len, h), 8 * len)
         == AllBits(s)[8 * off..8 * off + Rows(h, 8 * len)]
  {
    hide AllBits, Chop;
    BitsSize(s);
    EightTimes(h, len);
    var t := s[off..off + Rows(h, len)];
    FlatChop(t, len, h);
    assert t[..Rows(h, len)] == t;
    ImageWhole(Chop(t, len, h), len);
    BitsOfSlice(s, off, Rows(h, len));
  }
}
