/**
 The decoder for interlaced images, and the round trip of the scanline stage.
 */
module PngPostProcess {
  import opened Bits
  import opened PngLines
  import opened PngFilters
  import opened PngUnfilter
  import opened PngStrategies
  import opened PngBits
  import opened PngPadding
  import opened PngEncodeImages
  import opened PngDecodeImages
  import opened PngScanlines
  import opened Adam7
  import opened PngInterlace

  /** The lines of pass i in the scanlines. */
  function PassDecoded(s: seq<byte>, w: nat, h: nat, bpp: nat, i: nat): Lines
    requires i < 7 && bpp > 0 && FilterStart(w, h, bpp, 7) <= |s|
  {
    PassRoom(w, h, bpp, i);
    Decoded(s, FilterStart(w, h, bpp, i), PassW(w, h, i), PassH(w, h, i), bpp)
  }

  lemma PassRoom(w: nat, h: nat, bpp: nat, i: nat)
    requires i < 7
    ensures FilterStart(w, h, bpp, i) + Rows(PassH(w, h, i), LineBytes(PassW(w, h, i), bpp) + 1) == FilterStart(w, h, bpp, i + 1)
    ensures FilterStart(w, h, bpp, i + 1) <= FilterStart(w, h, bpp, 7)
    ensures PaddedStart(w, h, bpp, i) + Rows(PassH(w, h, i), LineBytes(PassW(w, h, i), bpp)) <= FilterStart(w, h, bpp, i + 1)
    ensures PassStart(w, h, bpp, i) <= PaddedStart(w, h, bpp, i) <= FilterStart(w, h, bpp, i)
  {
    hide PassW, PassH, PassLine, Rows, PassBits, LineBytes;
    PassLineBytes(w, h, bpp, i);
    StartsMono(w, h, bpp, i + 1, 7);
    FilterStartStep(w, h, bpp, i);
    LayoutsOrdered(w, h, bpp, i);
    LayoutsOrdered(w, h, bpp, i + 1);
  }

  /** Bits of pass i in the packed buffer. */
  ghost predicate PassIs(bits: seq<bit>, w: nat, h: nat, bpp: nat, i: nat, img: seq<bit>)
    requires i < 7
  {
    && 8 * PassStart(w, h, bpp, i) + PassBits(w, h, bpp, i) <= |bits|
    && bits[8 * PassStart(w, h, bpp, i)..8 * PassStart(w, h, bpp, i) + PassBits(w, h, bpp, i)] == img
  }

  lemma DecodedPassSizes(s: seq<byte>, w: nat, h: nat, bpp: nat, i: nat)
    requires i < 7 && bpp > 0 && FilterStart(w, h, bpp, 7) <= |s|
    ensures var r := PassDecoded(s, w, h, bpp, i);
            r.Lines? ==> |r.ls| == PassH(w, h, i) && LinesOf(r.ls, LineBytes(PassW(w, h, i), bpp))
                         && PassW(w, h, i) * bpp <= 8 * LineBytes(PassW(w, h, i), bpp)
  {
    hide Decoded, Rows, LineBytes, PassW, PassH, FilterStart;
    PassRoom(w, h, bpp, i);
    DecodedSizes(s, FilterStart(w, h, bpp, i), PassW(w, h, i), PassH(w, h, i), bpp);
  }

  /** The first n bits of each decoded line. */
  function Pixels(r: Lines, n: nat): seq<bit>
  {
    if r.Lines? && forall y :: 0 <= y < |r.ls| ==> n <= 8 * |r.ls[y]| then ImageBits(r.ls, n) else []
  }

  lemma PixelsOfLines(ls: seq<seq<byte>>, len: nat, n: nat)
    requires LinesOf(ls, len) && n <= 8 * len
    ensures Pixels(Lines(ls), n) == ImageBits(ls, n)
  {
  }

  /** The pixels of pass i in the scanlines. */
  function PassImage(s: seq<byte>, w: nat, h: nat, bpp: nat, i: nat): seq<bit>
    requires i < 7 && bpp > 0 && FilterStart(w, h, bpp, 7) <= |s|
  {
    Pixels(PassDecoded(s, w, h, bpp, i), PassW(w, h, i) * bpp)
  }

  /** Padding removed in the buffer itself. */
  lemma PackedPass(s: seq<byte>, s1: seq<byte>, bits: seq<bit>, start: nat, padded: nat, ls: seq<seq<byte>>, len: nat, n: nat)
    requires LinesOf(ls, len) && n <= 8 * len && padded + |Flat(ls)| <= |s| && start <= padded
    requires s1 == Overwrite(s, padded, Flat(ls)) && |AllBits(s1)| == 8 * |s1|
    requires 8 * padded + Rows(|ls|, 8 * len) <= 8 * |s| && 8 * start + Rows(|ls|, n) <= 8 * |s|
    requires bits == Overwrite(AllBits(s1), 8 * start, CutFlat(AllBits(s1), 8 * padded, 8 * len, n, |ls|))
    ensures |ImageBits(ls, n)| == Rows(|ls|, n) && bits == Overwrite(AllBits(s1), 8 * start, ImageBits(ls, n))
  {
    hide Rows, AllBits, ImageBits, Flat, CutFlat;
    OverwriteRead(s, padded, Flat(ls));
    ImageInBuffer(s1, padded, ls, len, n);
    ImageSize(ls, len, n);
  }

  /** What writing one pass leaves: its bits, those before it, and the bytes after its lines. */
  lemma PassWritten(s: seq<byte>, s1: seq<byte>, s2: seq<byte>, start: nat, padded: nat, end: nat, flat: seq<byte>, img: seq<bit>)
    requires start <= padded <= padded + |flat| <= end <= |s| && s1 == Overwrite(s, padded, flat)
    requires |s2| == |s| && 8 * start + |img| <= 8 * end && |AllBits(s1)| == 8 * |s1|
    requires AllBits(s2) == Overwrite(AllBits(s1), 8 * start, img)
    ensures |AllBits(s2)| == |AllBits(s)| == 8 * |s|
    ensures AllBits(s2)[8 * start..8 * start + |img|] == img
    ensures AllBits(s2)[..8 * start] == AllBits(s)[..8 * start]
    ensures s2[end..] == s[end..]
  {
    hide AllBits, Overwrite;
    BitsSize(s);
    BitsSize(s2);
    BitsSize(flat);
    BitsOfOverwrite(s, padded, flat);
    OverwriteRead(AllBits(s1), 8 * start, img);
    OverwriteElsewhere(AllBits(s1), 8 * start, img, 0, 8 * start);
    OverwriteElsewhere(AllBits(s), 8 * padded, AllBits(flat), 0, 8 * start);
    Prefixes(AllBits(s), AllBits(s1), AllBits(s2), 8 * start);
    TailBytes(s1, s2, end, 8 * start, img);
    OverwriteElsewhere(s, padded, flat, end, |s| - end);
    assert s1[end..end + (|s| - end)] == s1[end..] && s[end..end + (|s| - end)] == s[end..];
  }

  lemma Prefixes(a: seq<bit>, b: seq<bit>, c: seq<bit>, n: nat)
    requires n <= |a| && n <= |b| && n <= |c| && c[0..0 + n] == b[0..0 + n] && b[0..0 + n] == a[0..0 + n]
    ensures c[..n] == a[..n]
  {
    assert c[0..0 + n] == c[..n] && a[0..0 + n] == a[..n];
  }

  lemma WholeBytePass(s: seq<byte>, s1: seq<byte>, start: nat, ls: seq<seq<byte>>, len: nat)
    requires LinesOf(ls, len) && start + |Flat(ls)| <= |s| && s1 == Overwrite(s, start, Flat(ls))
    ensures |AllBits(s1)| == 8 * |s1| && 8 * start + |ImageBits(ls, 8 * len)| <= 8 * |s|
    ensures |ImageBits(ls, 8 * len)| == 8 * |Flat(ls)|
    ensures AllBits(s1) == Overwrite(AllBits(s1), 8 * start, ImageBits(ls, 8 * len))
  {
    hide AllBits, Overwrite, Flat, ImageBits;
    BitsSize(s);
    BitsSize(s1);
    BitsSize(Flat(ls));
    ImageWhole(ls, len);
    BitsOfOverwrite(s, start, Flat(ls));
    Rewrite(AllBits(s), 8 * start, AllBits(Flat(ls)));
  }

  lemma Rewrite(b: seq<bit>, pos: nat, c: seq<bit>)
    requires pos + |c| <= |b|
    ensures Overwrite(Overwrite(b, pos, c), pos, c) == Overwrite(b, pos, c)
  {
  }

  /** Unfilters and packs pass i in place. */
  method PostPass(inp: array<byte>, w: nat, h: nat, bpp: nat, i: nat, v: PassValues) returns (error: nat)
    requires i < 7 && bpp > 0 && GoodDepth(bpp) && Values(v, w, h, bpp, 7) && FilterStart(w, h, bpp, 7) <= inp.Length
    modifies inp
    ensures error == if PassDecoded(old(inp[..]), w, h, bpp, i).Lines? then 0 else 36
    ensures error == 0 ==>
              && PassIs(AllBits(inp[..]), w, h, bpp, i, PassImage(old(inp[..]), w, h, bpp, i))
              && |AllBits(inp[..])| == |AllBits(old(inp[..]))| == 8 * inp.Length
              && PassStart(w, h, bpp, i) <= inp.Length && FilterStart(w, h, bpp, i + 1) <= inp.Length
              && AllBits(inp[..])[..8 * PassStart(w, h, bpp, i)] == AllBits(old(inp[..]))[..8 * PassStart(w, h, bpp, i)]
              && inp[..][FilterStart(w, h, bpp, i + 1)..] == old(inp[..])[FilterStart(w, h, bpp, i + 1)..]
  {
    hide PassW, PassH, PassLine, Rows, PassBits, LineBytes, Decoded, AllBits, ImageBits, CutFlat, Overwrite, Flat, Pixels,
         FilterStart, PassStart, PaddedStart;
    var pw, ph := v.passw[i], v.passh[i];
    ghost var s, len := inp[..], LineBytes(pw, bpp);
    ghost var ls;
    PassRoom(w, h, bpp, i);
    PassLineBytes(w, h, bpp, i);
    DecodedPassSizes(s, w, h, bpp, i);
    error, ls := UnfilterImage(inp, v.padded[i], inp, v.filter[i], pw, ph, bpp);
    if error == 0 {
      ghost var s1 := inp[..];
      LineFits(pw, bpp);
      EightTimes(ph, len);
      PassBitsFit(w, h, bpp, i);
      ImageSize(ls, len, pw * bpp);
      PixelsOfLines(ls, len, pw * bpp);
      BitsSize(s1);
      if bpp < 8 {
        RemovePaddingBits(inp, v.start[i], inp, v.padded[i], pw * bpp, ((pw * bpp + 7) / 8) * 8, ph);
        PackedPass(s, s1, AllBits(inp[..]), v.start[i], v.padded[i], ls, len, pw * bpp);
      } else {
        EightDivides(pw, bpp);
        LayoutsOrdered(w, h, bpp, i);
        WholeBytePass(s, s1, v.start[i], ls, len);
      }
      PassWritten(s, s1, inp[..], v.start[i], v.padded[i], FilterStart(w, h, bpp, i + 1), Flat(ls), ImageBits(ls, pw * bpp));
    }
  }

  // ---------- all passes ----------

  ghost predicate PassUnpacked(bits: seq<bit>, s0: seq<byte>, w: nat, h: nat, bpp: nat, k: nat)
    requires k < 7 && bpp > 0 && FilterStart(w, h, bpp, 7) <= |s0|
  {
    PassDecoded(s0, w, h, bpp, k).Lines? && PassIs(bits, w, h, bpp, k, PassImage(s0, w, h, bpp, k))
  }

  /** The first i passes are unpacked, the others are still as they were. */
  ghost predicate UnpackedUpTo(s: seq<byte>, s0: seq<byte>, w: nat, h: nat, bpp: nat, i: nat)
  {
    && i <= 7 && bpp > 0 && FilterStart(w, h, bpp, 7) <= |s0| == |s| && FilterStart(w, h, bpp, i) <= |s|
    && (forall k: nat :: k < i ==> PassUnpacked(AllBits(s), s0, w, h, bpp, k))
    && s[FilterStart(w, h, bpp, i)..] == s0[FilterStart(w, h, bpp, i)..]
  }

  lemma NothingUnpacked(s: seq<byte>, w: nat, h: nat, bpp: nat)
    requires bpp > 0 && FilterStart(w, h, bpp, 7) <= |s|
    ensures UnpackedUpTo(s, s, w, h, bpp, 0)
  {
    StartsMono(w, h, bpp, 0, 7);
  }

  /** The next pass is decoded from what was there at the start. */
  lemma SamePassDecoded(s: seq<byte>, s0: seq<byte>, w: nat, h: nat, bpp: nat, i: nat)
    requires i < 7 && UnpackedUpTo(s, s0, w, h, bpp, i)
    ensures PassDecoded(s, w, h, bpp, i) == PassDecoded(s0, w, h, bpp, i)
  {
    hide UnfilterLines, Chop, Rows, LineBytes, PassW, PassH, FilterStart, PassUnpacked, AllBits;
    PassRoom(w, h, bpp, i);
    var p, q := FilterStart(w, h, bpp, i), FilterStart(w, h, bpp, i + 1);
    TailSlice(s, s0, p, q - p);
    assert s[p..q] == s0[p..q];
  }

  lemma TailSlice(s: seq<byte>, t: seq<byte>, p: nat, n: nat)
    requires p + n <= |s| == |t| && s[p..] == t[p..]
    ensures s[p..p + n] == t[p..p + n]
  {
    assert s[p..][..n] == s[p..p + n] && t[p..][..n] == t[p..p + n];
  }

  lemma KeepUnpacked(a: seq<bit>, b: seq<bit>, s0: seq<byte>, w: nat, h: nat, bpp: nat, k: nat, i: nat)
    requires k < i < 7 && bpp > 0 && FilterStart(w, h, bpp, 7) <= |s0| && PassUnpacked(a, s0, w, h, bpp, k)
    requires 8 * PassStart(w, h, bpp, i) <= |a| == |b|
    requires a[..8 * PassStart(w, h, bpp, i)] == b[..8 * PassStart(w, h, bpp, i)]
    ensures PassUnpacked(b, s0, w, h, bpp, k)
  {
    hide PassDecoded, PassImage, PassStart, PassBits, FilterStart;
    PassStartMono(w, h, bpp, k, i);
    var p, n, m := 8 * PassStart(w, h, bpp, k), PassBits(w, h, bpp, k), 8 * PassStart(w, h, bpp, i);
    assert a[p..p + n] == a[..m][p..p + n] && b[p..p + n] == b[..m][p..p + n];
  }

  lemma NextUnpacked(s: seq<byte>, t: seq<byte>, s0: seq<byte>, w: nat, h: nat, bpp: nat, i: nat)
    requires i < 7 && UnpackedUpTo(s, s0, w, h, bpp, i) && |s| == |t| && PassDecoded(s, w, h, bpp, i).Lines?
    requires PassIs(AllBits(t), w, h, bpp, i, PassImage(s, w, h, bpp, i))
    requires |AllBits(t)| == |AllBits(s)| == 8 * |s| && PassStart(w, h, bpp, i) <= |s| && FilterStart(w, h, bpp, i + 1) <= |s|
    requires AllBits(t)[..8 * PassStart(w, h, bpp, i)] == AllBits(s)[..8 * PassStart(w, h, bpp, i)]
    requires t[FilterStart(w, h, bpp, i + 1)..] == s[FilterStart(w, h, bpp, i + 1)..]
    ensures UnpackedUpTo(t, s0, w, h, bpp, i + 1)
  {
    hide PassUnpacked, PassStart, PassBits, FilterStart, AllBits, PassDecoded;
    var n := i + 1;
    SamePassDecoded(s, s0, w, h, bpp, i);
    SameImage(s, s0, w, h, bpp, i);
    PassRoom(w, h, bpp, i);
    forall k: nat | k < n
      ensures PassUnpacked(AllBits(t), s0, w, h, bpp, k)
    {
      if k < i {
        KeepUnpacked(AllBits(s), AllBits(t), s0, w, h, bpp, k, i);
      } else {
        ThisUnpacked(AllBits(t), s0, w, h, bpp, i);
      }
    }
    var p, q := FilterStart(w, h, bpp, i), FilterStart(w, h, bpp, n);
    assert s[q..] == s[p..][q - p..] && s0[q..] == s0[p..][q - p..];
  }

  lemma ThisUnpacked(bits: seq<bit>, s0: seq<byte>, w: nat, h: nat, bpp: nat, i: nat)
    requires i < 7 && bpp > 0 && FilterStart(w, h, bpp, 7) <= |s0| && PassDecoded(s0, w, h, bpp, i).Lines?
    requires PassIs(bits, w, h, bpp, i, PassImage(s0, w, h, bpp, i))
    ensures PassUnpacked(bits, s0, w, h, bpp, i)
  {
  }

  lemma SameImage(s: seq<byte>, s0: seq<byte>, w: nat, h: nat, bpp: nat, i: nat)
    requires i < 7 && bpp > 0 && FilterStart(w, h, bpp, 7) <= |s0| && FilterStart(w, h, bpp, 7) <= |s|
    requires PassDecoded(s, w, h, bpp, i) == PassDecoded(s0, w, h, bpp, i) && PassDecoded(s, w, h, bpp, i).Lines?
    ensures PassImage(s, w, h, bpp, i) == PassImage(s0, w, h, bpp, i)
  {
    hide PassDecoded, Pixels;
  }

  ghost predicate AllPassesDecode(s0: seq<byte>, w: nat, h: nat, bpp: nat)
    requires bpp > 0 && FilterStart(w, h, bpp, 7) <= |s0|
  {
    forall k: nat :: k < 7 ==> PassDecoded(s0, w, h, bpp, k).Lines?
  }

  ghost predicate AllUnpacked(bits: seq<bit>, s0: seq<byte>, w: nat, h: nat, bpp: nat)
    requires bpp > 0 && FilterStart(w, h, bpp, 7) <= |s0|
  {
    forall k: nat :: k < 7 ==> PassUnpacked(bits, s0, w, h, bpp, k)
  }

  lemma UnpackedAll(s: seq<byte>, s0: seq<byte>, w: nat, h: nat, bpp: nat)
    requires UnpackedUpTo(s, s0, w, h, bpp, 7)
    ensures AllPassesDecode(s0, w, h, bpp) && AllUnpacked(AllBits(s), s0, w, h, bpp)
  {
    hide PassDecoded, PassIs, PassImage, AllBits, FilterStart;
    forall k: nat | k < 7
      ensures PassDecoded(s0, w, h, bpp, k).Lines?
    {
      assert PassUnpacked(AllBits(s), s0, w, h, bpp, k);
    }
  }

  method PostProcessPasses(out: array<byte>, inp: array<byte>, w: nat, h: nat, bpp: nat)
    returns (error: nat, ghost passes: seq<bit>)
    requires bpp > 0 && GoodDepth(bpp) && out != inp && FilterStart(w, h, bpp, 7) <= inp.Length
    requires Rows(h, Rows(w, bpp)) <= 8 * out.Length
    modifies out, inp
    ensures error == if AllPassesDecode(old(inp[..]), w, h, bpp) then 0 else 36
    ensures error == 0 ==> AllUnpacked(passes, old(inp[..]), w, h, bpp) && Interlaced(passes, AllBits(out[..]), w, h, bpp)
  {
    hide PassDecoded, AllBits, UnpackedUpTo, PassImage, FilterStart, PassStart, PaddedStart, Rows, PassW, PassH,
         AllUnpacked, Interlaced, PassIs;
    ghost var s0 := inp[..];
    passes := [];
    var v := GetPassValues(w, h, bpp);
    NothingUnpacked(s0, w, h, bpp);
    var i := 0;
    while i != 7
      invariant i <= 7 && UnpackedUpTo(inp[..], s0, w, h, bpp, i)
    {
      ghost var s := inp[..];
      SamePassDecoded(s, s0, w, h, bpp, i);
      error := PostPass(inp, w, h, bpp, i, v);
      if error != 0 {
        return;
      }
      NextUnpacked(s, inp[..], s0, w, h, bpp, i);
      i := i + 1;
    }
    UnpackedAll(inp[..], s0, w, h, bpp);
    LayoutsOrdered(w, h, bpp, 7);
    passes := AllBits(inp[..]);
    Deinterlace(out, inp, w, h, bpp);
    error := 0;
  }

  // ---------- the whole stage ----------

  /** What the scanlines decode to; None is a filter type that does not exist. */
  ghost predicate ImageOf(s: seq<byte>, passes: seq<bit>, img: seq<bit>, w: nat, h: nat, bpp: nat, interlace: bool)
    requires bpp > 0 && InputRoom(|s|, w, h, bpp, interlace)
  {
    if interlace then AllUnpacked(passes, s, w, h, bpp) && Interlaced(passes, img, w, h, bpp)
    else
      var r := Decoded(s, 0, w, h, bpp);
      && r.Lines? && |r.ls| == h && LinesOf(r.ls, LineBytes(w, bpp)) && w * bpp <= 8 * LineBytes(w, bpp)
      && Rows(h, w * bpp) <= |img| && img[..Rows(h, w * bpp)] == ImageBits(r.ls, w * bpp)
  }

  predicate InputRoom(n: nat, w: nat, h: nat, bpp: nat, interlace: bool)
  {
    (if interlace then FilterStart(w, h, bpp, 7) else Rows(h, LineBytes(w, bpp) + 1)) <= n
  }

  ghost predicate Decodable(s: seq<byte>, w: nat, h: nat, bpp: nat, interlace: bool)
    requires bpp > 0 && InputRoom(|s|, w, h, bpp, interlace)
  {
    if interlace then AllPassesDecode(s, w, h, bpp) else Decoded(s, 0, w, h, bpp).Lines?
  }

  /** Turns scanlines into an image; the scanline buffer is overwritten. */
  method PostProcessScanlines(out: array<byte>, inp: array<byte>, w: nat, h: nat, color: ColorMode, interlace: bool)
    returns (error: nat, ghost passes: seq<bit>)
    requires GoodDepth(color.Bpp()) && (w == 0 ==> h == 0) && out != inp
    requires InputRoom(inp.Length, w, h, color.Bpp(), interlace) && Rows(h, w * color.Bpp()) <= 8 * out.Length
    modifies out, inp
    ensures error == if color.Bpp() == 0 then 31
                     else if Decodable(old(inp[..]), w, h, color.Bpp(), interlace) then 0 else 36
    ensures error == 0 ==> ImageOf(old(inp[..]), passes, AllBits(out[..]), w, h, color.Bpp(), interlace)
  {
    hide AllBits, Rows, LineBytes, FilterStart, Decoded, AllPassesDecode, AllUnpacked, Interlaced, ImageBits;
    var bpp := color.Bpp();
    passes := [];
    if bpp == 0 {
      return 31, passes;
    }
    RowsIsProduct(w, bpp);
    if !interlace {
      error := PostProcessWhole(out, inp, w, h, bpp);
    } else {
      error, passes := PostProcessPasses(out, inp, w, h, bpp);
    }
  }

  // ---------- the round trip ----------

  /** All filter types that the encoder uses exist. */
  predicate AllTypesOk(color: ColorMode, settings: FilterSettings, w: nat, h: nat, interlace: bool)
  {
    if interlace then forall i: nat :: i < 7 ==> TypesOk(color, settings, PassH(w, h, i))
    else TypesOk(color, settings, h)
  }

  lemma EncodedPassDecodes(s: seq<byte>, passes: seq<bit>, w: nat, h: nat, bpp: nat, i: nat, ok: bool)
    requires i < 7 && bpp > 0 && FilterStart(w, h, bpp, 7) <= |s| && PassEncoded(s, passes, w, h, bpp, i, ok)
    ensures PassDecoded(s, w, h, bpp, i).Lines? <==> ok
    ensures ok ==> PassIs(passes, w, h, bpp, i, PassImage(s, w, h, bpp, i))
  {
    hide Decoded, Rows, LineBytes, PassW, PassH, FilterStart, PassStart, PassBits, ImageBits, Pixels;
    PassRoom(w, h, bpp, i);
    if ok {
      PixelsOfLines(PassDecoded(s, w, h, bpp, i).ls, LineBytes(PassW(w, h, i), bpp), PassW(w, h, i) * bpp);
    }
  }

  /** Interlaced scanlines decode exactly when all types exist. */
  lemma PassesDecode(s: seq<byte>, passes: seq<bit>, w: nat, h: nat, color: ColorMode, settings: FilterSettings)
    requires color.Bpp() > 0 && FilterStart(w, h, color.Bpp(), 7) <= |s| && PassesEncoded(s, passes, w, h, color, settings, 7)
    ensures AllPassesDecode(s, w, h, color.Bpp()) <==> AllTypesOk(color, settings, w, h, true)
    ensures AllTypesOk(color, settings, w, h, true) ==> AllUnpacked(passes, s, w, h, color.Bpp())
  {
    hide PassEncoded, PassDecoded, PassIs, PassImage, TypesOk, PassH, FilterStart, ColorMode.Bpp;
    var bpp := color.Bpp();
    forall i: nat | i < 7
      ensures PassDecoded(s, w, h, bpp, i).Lines? <==> TypesOk(color, settings, PassH(w, h, i))
      ensures TypesOk(color, settings, PassH(w, h, i)) ==> PassIs(passes, w, h, bpp, i, PassImage(s, w, h, bpp, i))
    {
      assert PassEncoded(s, passes, w, h, bpp, i, TypesOk(color, settings, PassH(w, h, i)));
      EncodedPassDecodes(s, passes, w, h, bpp, i, TypesOk(color, settings, PassH(w, h, i)));
    }
    if AllTypesOk(color, settings, w, h, true) {
      forall i: nat | i < 7
        ensures PassUnpacked(passes, s, w, h, bpp, i)
      {
        ThisUnpacked(passes, s, w, h, bpp, i);
      }
    }
  }

  /** Buffers with the same passes have the same pixels. */
  lemma SameUnpacked(a: seq<bit>, b: seq<bit>, s: seq<byte>, img: seq<bit>, w: nat, h: nat, bpp: nat)
    requires bpp > 0 && FilterStart(w, h, bpp, 7) <= |s| && AllUnpacked(a, s, w, h, bpp) && AllUnpacked(b, s, w, h, bpp)
    requires Interlaced(a, img, w, h, bpp)
    ensures Interlaced(b, img, w, h, bpp)
  {
    hide PassPos, ImgPos, PassUnpacked, FilterStart;
    forall x: nat, y: nat | x < w && y < h
      ensures SamePixel(b, PassPos(w, h, bpp, x, y), img, ImgPos(w, bpp, x, y), bpp)
    {
      assert SamePixel(a, PassPos(w, h, bpp, x, y), img, ImgPos(w, bpp, x, y), bpp);
      assert PassUnpacked(a, s, w, h, bpp, PassOf(x, y)) && PassUnpacked(b, s, w, h, bpp, PassOf(x, y));
      SamePassPixel(a, b, s, w, h, bpp, x, y);
    }
  }

  lemma SamePassPixel(a: seq<bit>, b: seq<bit>, s: seq<byte>, w: nat, h: nat, bpp: nat, x: nat, y: nat)
    requires bpp > 0 && FilterStart(w, h, bpp, 7) <= |s| && x < w && y < h
    requires PassUnpacked(a, s, w, h, bpp, PassOf(x, y)) && PassUnpacked(b, s, w, h, bpp, PassOf(x, y))
    ensures var p := PassPos(w, h, bpp, x, y);
            p + bpp <= |a| && p + bpp <= |b| && a[p..p + bpp] == b[p..p + bpp]
  {
    hide PassOf, PassBits, PassImage, PassDecoded, FilterStart, PassStart, GridPos;
    var i, p := PassOf(x, y), PassPos(w, h, bpp, x, y);
    PassPosInside(w, h, bpp, x, y);
    var start, n := 8 * PassStart(w, h, bpp, i), PassBits(w, h, bpp, i);
    assert start <= p;
    SamePiece(a, b, start, n, p, bpp);
  }

  lemma SamePiece(a: seq<bit>, b: seq<bit>, start: nat, n: nat, p: nat, m: nat)
    requires start + n <= |a| && start + n <= |b| && a[start..start + n] == b[start..start + n]
    requires start <= p && p + m <= start + n
    ensures a[p..p + m] == b[p..p + m]
  {
    var x, y := a[p..p + m], b[p..p + m];
    forall k | 0 <= k < m
      ensures x[k] == y[k]
    {
      assert a[start..start + n][p - start + k] == a[p + k];
      assert b[start..start + n][p - start + k] == b[p + k];
    }
  }

  /** Decoding inverts encoding. */
  lemma ScanlinesDecode(s: seq<byte>, passes: seq<bit>, img: seq<bit>, w: nat, h: nat, color: ColorMode, interlace: bool,
                        settings: FilterSettings)
    requires color.Bpp() > 0 && InputRoom(|s|, w, h, color.Bpp(), interlace)
    requires ScanlinesFor(s, passes, img, w, h, color, interlace, settings)
    ensures Decodable(s, w, h, color.Bpp(), interlace) <==> AllTypesOk(color, settings, w, h, interlace)
  {
    hide Rows, LineBytes, FilterStart, Decoded, AllPassesDecode, Interlaced, ImageBits, PassesEncoded, TypesOk;
    if interlace {
      PassesDecode(s, passes, w, h, color, settings);
    }
  }

  lemma SameScanlines(s: seq<byte>, passes: seq<bit>, img: seq<bit>, passes': seq<bit>, img': seq<bit>, w: nat, h: nat,
                      color: ColorMode, interlace: bool, settings: FilterSettings)
    requires color.Bpp() > 0 && InputRoom(|s|, w, h, color.Bpp(), interlace)
    requires ScanlinesFor(s, passes, img, w, h, color, interlace, settings)
    requires AllTypesOk(color, settings, w, h, interlace) && ImageOf(s, passes', img', w, h, color.Bpp(), interlace)
    ensures var n := Rows(h, w * color.Bpp()); n <= |img| && n <= |img'| && img[..n] == img'[..n]
  {
    hide Rows, LineBytes, FilterStart, Decoded, AllPassesDecode, Interlaced, ImageBits, PassesEncoded, TypesOk,
         AllUnpacked, SameImages;
    var bpp := color.Bpp();
    if interlace {
      PassesDecode(s, passes, w, h, color, settings);
      SameUnpacked(passes, passes', s, img, w, h, bpp);
      SamePasses(passes', img, img', w, h, bpp);
      SameBits(img, img', w, h, bpp, h);
      RowsIsProduct(w, bpp);
    }
  }

  /** Encoding an image into scanlines and decoding them gives the first w * h * bpp bits back, for every
      depth, strategy and interlace method. The decoder reports error 36 exactly when a predefined filter
      type above 4 was used. */
  method ScanlineRoundTrip(img: array<byte>, w: nat, h: nat, color: ColorMode, interlace: bool, settings: FilterSettings)
    returns (encodeError: nat, decodeError: nat, out: array<byte>)
    requires GoodDepth(color.Bpp()) && LineBytes(w, color.Bpp()) < 0xFFFF_FFFF && (w == 0 ==> h == 0)
    requires Rows(h, w * color.Bpp()) <= 8 * img.Length
    requires UsedStrategy(color, settings) == LFS_PREDEFINED ==> h <= |settings.predefined|
    ensures encodeError == FilterError(color, settings)
    ensures encodeError == 0 ==> decodeError == if AllTypesOk(color, settings, w, h, interlace) then 0 else 36
    ensures encodeError == 0 && decodeError == 0 ==>
              var n := Rows(h, w * color.Bpp());
              && |AllBits(out[..])| == 8 * out.Length && |AllBits(img[..])| == 8 * img.Length
              && n <= 8 * out.Length && AllBits(out[..])[..n] == AllBits(img[..])[..n]
  {
    hide AllBits, Rows, LineBytes, UsedStrategy, TypesOk, KnownStrategy, FilterStart, PassesEncoded, Interlaced,
         ScanlinesFor, Decodable, ImageOf, AllTypesOk;
    var bpp := color.Bpp();
    decodeError := 0;
    var scanlines;
    ghost var passes, passes';
    encodeError, scanlines, passes := PreProcessScanlines(img, w, h, color, interlace, settings);
    RowsIsProduct(h, w * bpp);
    out := new byte[(h * (w * bpp) + 7) / 8](_ => 0);
    if encodeError == 0 {
      ghost var s, bits := scanlines[..], AllBits(img[..]);
      ghost var before := img[..];
      ScanlinesDecode(s, passes, bits, w, h, color, interlace, settings);
      decodeError, passes' := PostProcessScanlines(out, scanlines, w, h, color, interlace);
      assert img[..] == before;
      if decodeError == 0 {
        SameScanlines(s, passes, bits, passes', AllBits(out[..]), w, h, color, interlace, settings);
        BitsSize(out[..]);
        BitsSize(img[..]);
      }
    }
  }

  /** A grey image of one pixel with the predefined filter type 5: it is written, and not decoded. The
      other settings do not matter. */
  method PredefinedTypeFive(others: FilterSettings) returns (encodeError: nat, decodeError: nat)
    ensures encodeError == 0 && decodeError == 36
  {
    hide AllBits, FilterStart;
    var img := new byte[1](_ => 0);
    var color := ColorMode(0, 8);
    var settings := others.(strategy := LFS_PREDEFINED, paletteZero := false, predefined := [5]);
    assert Rows(1, 1 * color.Bpp()) == 8;
    var out;
    encodeError, decodeError, out := ScanlineRoundTrip(img, 1, 1, color, false, settings);
    assert [5][0] == 5;
  }
}
