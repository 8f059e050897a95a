/**
 From filtered scanlines to pixels: unfiltering in place, removing padding in place, and for an
 interlaced image doing so for each pass before the passes are put together.
 */
module PngDecodeImages {
  import opened Bits
  import opened PngLines
  import opened PngFilters
  import opened PngUnfilter
  import opened SingleBits
  import opened PngBits
  import opened PngPadding
  import opened PngEncodeImages
  import opened Adam7
  import opened PngInterlace

  // ---------- bits determine bytes ----------

  lemma SameByte(a: seq<byte>, b: seq<byte>, k: nat)
    requires |a| == |b| && k < |a| && AllBits(a) == AllBits(b)
    ensures a[k] == b[k]
  {
    hide Shr, Pow2;
    ByteBound();
    forall j: nat | j < 8
      ensures Shr(a[k], j) % 2 == Shr(b[k], j) % 2
    {
      var i: nat := 8 * k + (7 - j);
      assert i / 8 == k && 7 - i % 8 == j;
      assert AllBits(a)[i] == MsbAt(a, i) && AllBits(b)[i] == MsbAt(b, i);
    }
    SameNumber(a[k], b[k], 8);
  }

  lemma SameBytes(a: seq<byte>, b: seq<byte>)
    requires |a| == |b| && AllBits(a) == AllBits(b)
    ensures a == b
  {
    hide AllBits;
    forall k | 0 <= k < |a|
      ensures a[k] == b[k]
    {
      SameByte(a, b, k);
    }
  }

  /** Bits were written before byte n only: the bytes from n on are the same. */
  lemma TailBytes(s: seq<byte>, t: seq<byte>, n: nat, pos: nat, c: seq<bit>)
    requires |s| == |t| && n <= |s| && pos + |c| <= 8 * n && |AllBits(s)| == 8 * |s|
    requires AllBits(t) == Overwrite(AllBits(s), pos, c)
    ensures t[n..] == s[n..]
  {
    hide AllBits, Overwrite;
    var m := |s| - n;
    OverwriteElsewhere(AllBits(s), pos, c, 8 * n, 8 * m);
    BitsOfSlice(s, n, m);
    BitsOfSlice(t, n, m);
    SameBytes(s[n..n + m], t[n..n + m]);
    assert s[n..n + m] == s[n..] && t[n..n + m] == t[n..];
  }

  // ---------- one image ----------

  /** Unfilters one (reduced) image. */
  method UnfilterImage(out: array<byte>, outoff: nat, inp: array<byte>, inoff: nat, w: nat, h: nat, bpp: nat)
    returns (error: nat, ghost ls: seq<seq<byte>>)
    requires bpp > 0 && (w == 0 ==> h == 0) && (out == inp ==> outoff <= inoff)
    requires inoff + Rows(h, LineBytes(w, bpp) + 1) <= inp.Length && outoff + Rows(h, LineBytes(w, bpp)) <= out.Length
    modifies out
    ensures error == if Decoded(old(inp[..]), inoff, w, h, bpp).Lines? then 0 else 36
    ensures error == 0 ==>
              && Decoded(old(inp[..]), inoff, w, h, bpp) == Lines(ls)
              && |ls| == h && LinesOf(ls, LineBytes(w, bpp)) && |Flat(ls)| == Rows(h, LineBytes(w, bpp))
              && out[..] == Overwrite(old(out[..]), outoff, Flat(ls))
  {
    hide Rows, Overwrite, UnfilterLines, Chop, LineBytes, Flat;
    ghost var t := inp[..];
    ghost var r := Decoded(t, inoff, w, h, bpp);
    DecodedSizes(t, inoff, w, h, bpp);
    InputSlice(inp, inoff, Rows(h, LineBytes(w, bpp) + 1));
    error := Unfilter(out, outoff, inp, inoff, w, h, bpp);
    ls := [];
    if error == 0 {
      ls := r.ls;
      FlatSize(ls, LineBytes(w, bpp));
    }
  }

  lemma InputSlice(a: array<byte>, p: nat, n: nat)
    requires p + n <= a.Length
    ensures a[p..p + n] == a[..][p..p + n]
  {
  }

  method PostProcessWhole(out: array<byte>, inp: array<byte>, w: nat, h: nat, bpp: nat) returns (error: nat)
    requires bpp > 0 && GoodDepth(bpp) && (w == 0 ==> h == 0) && out != inp
    requires Rows(h, LineBytes(w, bpp) + 1) <= inp.Length && Rows(h, w * bpp) <= 8 * out.Length
    modifies out, inp
    ensures var r := Decoded(old(inp[..]), 0, w, h, bpp);
            && error == (if r.Lines? then 0 else 36)
            && (error == 0 ==>
                 && |r.ls| == h && LinesOf(r.ls, LineBytes(w, bpp)) && w * bpp <= 8 * LineBytes(w, bpp)
                 && |AllBits(out[..])| == 8 * out.Length
                 && AllBits(out[..])[..Rows(h, w * bpp)] == ImageBits(r.ls, w * bpp))
  {
    hide Rows, Overwrite, LineBytes, Flat, AllBits, Decoded, ImageBits, CutFlat;
    ghost var len := LineBytes(w, bpp);
    ghost var ls;
    LineFits(w, bpp);
    RowsLonger(h, len, len + 1);
    EightTimes(h, len);
    if bpp < 8 && w * bpp != ((w * bpp + 7) / 8) * 8 {
      ghost var s := inp[..];
      error, ls := UnfilterImage(inp, 0, inp, 0, w, h, bpp);
      if error == 0 {
        OverwriteRead(s, 0, Flat(ls));
        ghost var s1, b0 := inp[..], AllBits(out[..]);
        RemovePaddingBits(out, 0, inp, 0, w * bpp, ((w * bpp + 7) / 8) * 8, h);
        UnpaddedPixels(s1, b0, ls, len, w * bpp, AllBits(out[..]));
        BitsSize(out[..]);
      }
    } else {
      if bpp >= 8 {
        EightDivides(w, bpp);
      }
      RowsOfWholeBytes(h, w * bpp, len, out.Length);
      ghost var s := out[..];
      error, ls := UnfilterImage(out, 0, inp, 0, w, h, bpp);
      if error == 0 {
        DirectPixels(s, out[..], ls, len);
        BitsSize(out[..]);
      }
    }
  }

  lemma RowsOfWholeBytes(h: nat, bits: nat, len: nat, size: nat)
    requires bits == 8 * len && Rows(h, bits) <= 8 * size
    ensures Rows(h, len) <= size
  {
    EightTimes(h, len);
  }

  lemma EightDivides(w: nat, bpp: nat)
    requires bpp % 8 == 0
    ensures w * bpp % 8 == 0
  {
    var b := bpp / 8;
    assert w * (8 * b) == 8 * (w * b);
  }

  lemma UnpaddedPixels(s: seq<byte>, b0: seq<bit>, ls: seq<seq<byte>>, len: nat, n: nat, bits: seq<bit>)
    requires LinesOf(ls, len) && n <= 8 * len && |Flat(ls)| <= |s| && s[0..0 + |Flat(ls)|] == Flat(ls)
    requires |AllBits(s)| == 8 * |s| && 8 * 0 + Rows(|ls|, 8 * len) <= 8 * |s| && Rows(|ls|, n) <= |b0|
    requires bits == Overwrite(b0, 8 * 0, CutFlat(AllBits(s), 8 * 0, 8 * len, n, |ls|))
    ensures |bits| == |b0| && bits[..Rows(|ls|, n)] == ImageBits(ls, n)
  {
    hide Rows, Overwrite, AllBits, ImageBits, Flat;
    ImageInBuffer(s, 0, ls, len, n);
    ImageSize(ls, len, n);
    OverwriteRead(b0, 0, ImageBits(ls, n));
    assert bits[0..0 + Rows(|ls|, n)] == bits[..Rows(|ls|, n)];
  }

  lemma DirectPixels(s: seq<byte>, t: seq<byte>, ls: seq<seq<byte>>, len: nat)
    requires LinesOf(ls, len) && |Flat(ls)| <= |s| && t == Overwrite(s, 0, Flat(ls))
    ensures |AllBits(t)| == 8 * |t| && Rows(|ls|, 8 * len) <= 8 * |t|
    ensures AllBits(t)[..Rows(|ls|, 8 * len)] == ImageBits(ls, 8 * len)
  {
    hide Rows, Overwrite, AllBits, ImageBits, Flat;
    FlatSize(ls, len);
    EightTimes(|ls|, len);
    ImageWhole(ls, len);
    BitsOfOverwrite(s, 0, Flat(ls));
    BitsSize(s);
    BitsSize(t);
    BitsSize(Flat(ls));
    OverwriteRead(AllBits(s), 0, AllBits(Flat(ls)));
    assert AllBits(t)[0..0 + Rows(|ls|, 8 * len)] == AllBits(t)[..Rows(|ls|, 8 * len)];
  }
}
