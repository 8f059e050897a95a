/**
 Filtering one (reduced) image, with its lines padded to whole bytes first where needed, and what
 the decoder's view of the result is.
 */
module PngEncodeImages {
  import opened Bits
  import opened PngLines
  import opened PngFilters
  import opened PngUnfilter
  import opened PngStrategies
  import opened PngBits
  import opened PngPadding

  /** The lines that the filtered image at off stands for. */
  function Decoded(s: seq<byte>, off: nat, w: nat, h: nat, bpp: nat): (r: Lines)
    requires bpp > 0 && off + Rows(h, LineBytes(w, bpp) + 1) <= |s|
  {
    DecodeLines(s, off, LineBytes(w, bpp), h, ByteWidth(bpp))
  }

  lemma DecodedSizes(s: seq<byte>, off: nat, w: nat, h: nat, bpp: nat)
    requires bpp > 0 && off + Rows(h, LineBytes(w, bpp) + 1) <= |s|
    ensures var r := Decoded(s, off, w, h, bpp);
            r.Lines? ==> |r.ls| == h && LinesOf(r.ls, LineBytes(w, bpp)) && w * bpp <= 8 * LineBytes(w, bpp)
  {
    hide UnfilterLines, Chop, Rows;
    var len := LineBytes(w, bpp);
    var fs := Chop(s[off..off + Rows(h, len + 1)], len + 1, h);
    NonEmptyLines(fs, len);
    if UnfilterLines(fs, ByteWidth(bpp)).Lines? {
      UnfilterLinesSize(fs, ByteWidth(bpp), len);
    }
  }

  /** At off, the buffer holds a filtered image with these pixels; or, if not ok, one that the decoder
      refuses. */
  ghost predicate EncodedAt(s: seq<byte>, off: nat, w: nat, h: nat, bpp: nat, img: seq<bit>, ok: bool)
  {
    && bpp > 0 && off + Rows(h, LineBytes(w, bpp) + 1) <= |s|
    && var r := Decoded(s, off, w, h, bpp);
       if ok then r.Lines? && |r.ls| == h && LinesOf(r.ls, LineBytes(w, bpp)) && w * bpp <= 8 * LineBytes(w, bpp)
                  && ImageBits(r.ls, w * bpp) == img
       else r.BadFilter?
  }

  /** The types that will be used are types there are: only predefined ones can be wrong. */
  predicate TypesOk(color: ColorMode, settings: FilterSettings, h: nat)
  {
    UsedStrategy(color, settings) == LFS_PREDEFINED ==>
      forall y :: 0 <= y < h && y < |settings.predefined| ==> settings.predefined[y] <= 4
  }

  lemma KindsOk(kinds: seq<byte>, ls: seq<seq<byte>>, bw: nat, color: ColorMode, settings: FilterSettings)
    requires |kinds| == |ls| && KnownStrategy(UsedStrategy(color, settings))
    requires KindsFor(kinds, ls, bw, UsedStrategy(color, settings), settings.predefined)
    ensures (forall y :: 0 <= y < |kinds| ==> kinds[y] <= 4) <==> TypesOk(color, settings, |ls|)
  {
    hide IsMinSum, IsMinEntropy, UsedStrategy;
    var strategy := UsedStrategy(color, settings);
    forall y: nat | y < |kinds|
      ensures KindFor(kinds[y], y, ls[y], Last(ls[..y]), bw, strategy, settings.predefined)
      ensures strategy != LFS_PREDEFINED ==> kinds[y] <= 4
      ensures strategy == LFS_PREDEFINED ==> y < |settings.predefined| && kinds[y] == settings.predefined[y]
    {
      KindOk(kinds[y], y, ls[y], Last(ls[..y]), bw, strategy, settings.predefined);
    }
  }

  lemma KindOk(kind: byte, y: nat, line: seq<byte>, prev: seq<byte>, bw: nat, strategy: nat, predefined: seq<byte>)
    requires KindFor(kind, y, line, prev, bw, strategy, predefined) && KnownStrategy(strategy)
    ensures strategy != LFS_PREDEFINED ==> kind <= 4
    ensures strategy == LFS_PREDEFINED ==> y < |predefined| && kind == predefined[y]
  {
  }

  /** The error of the filtering step. */
  function FilterError(color: ColorMode, settings: FilterSettings): nat
  {
    if color.Bpp() == 0 then 31 else if KnownStrategy(UsedStrategy(color, settings)) then 0 else 88
  }

  /** What a filtered image is to the decoder. */
  lemma ResultEncoded(s: seq<byte>, s0: seq<byte>, off: nat, w: nat, h: nat, ls: seq<seq<byte>>, kinds: seq<byte>,
                      fs: seq<seq<byte>>, color: ColorMode, settings: FilterSettings, img: seq<bit>)
    requires FilterError(color, settings) == 0 && |ls| == h && LinesOf(ls, LineBytes(w, color.Bpp()))
    requires FilterResult(s, s0, off, ls, kinds, fs, LineBytes(w, color.Bpp()), ByteWidth(color.Bpp()),
                          UsedStrategy(color, settings), settings.predefined)
    requires w * color.Bpp() <= 8 * LineBytes(w, color.Bpp()) && ImageBits(ls, w * color.Bpp()) == img
    ensures EncodedAt(s, off, w, h, color.Bpp(), img, TypesOk(color, settings, h))
    ensures off + Rows(h, LineBytes(w, color.Bpp()) + 1) <= |s| == |s0|
    ensures s[..off] == s0[..off]
  {
    hide Rows, UnfilterLines, Chop, ImageBits, KindsFor, TypesOk, UsedStrategy, LineBytes, FilterLines, Flat;
    var bpp := color.Bpp();
    var len := LineBytes(w, bpp);
    FilterResultDecodes(s, s0, off, ls, kinds, fs, len, ByteWidth(bpp), UsedStrategy(color, settings), settings.predefined);
    KindsOk(kinds, ls, ByteWidth(bpp), color, settings);
    FlatSize(fs, len + 1);
  }

  lemma LineFits(w: nat, bpp: nat)
    ensures w * bpp <= 8 * LineBytes(w, bpp) && ((w * bpp + 7) / 8) * 8 == 8 * LineBytes(w, bpp)
    ensures w * bpp % 8 == 0 ==> w * bpp == 8 * LineBytes(w, bpp)
  {
  }

  /** Pads and filters the image at byte imgoff. */
  method FilterPadded(out: array<byte>, outoff: nat, img: array<byte>, imgoff: nat, w: nat, h: nat, color: ColorMode,
                      settings: FilterSettings)
    returns (error: nat)
    requires (w == 0 ==> h == 0) && LineBytes(w, color.Bpp()) < 0xFFFF_FFFF && out != img
    requires 8 * imgoff + Rows(h, w * color.Bpp()) <= 8 * img.Length
    requires outoff + Rows(h, LineBytes(w, color.Bpp()) + 1) <= out.Length
    requires UsedStrategy(color, settings) == LFS_PREDEFINED ==> h <= |settings.predefined|
    modifies out
    ensures error == FilterError(color, settings) && |AllBits(img[..])| == 8 * img.Length
    ensures error == 0 ==>
              EncodedAt(out[..], outoff, w, h, color.Bpp(),
                        AllBits(img[..])[8 * imgoff..8 * imgoff + Rows(h, w * color.Bpp())], TypesOk(color, settings, h))
    ensures error == 0 ==> out[..outoff] == old(out[..outoff])
  {
    hide AllBits, Overwrite, PadFlat, Rows, Chop, ImageBits, LineBytes, FilterResult, EncodedAt, UsedStrategy, TypesOk;
    var bpp := color.Bpp();
    ghost var len := LineBytes(w, bpp);
    ghost var bits := AllBits(img[..]);
    LineFits(w, bpp);
    BitsSize(img[..]);
    EightTimes(h, len);
    RowsIsProduct(h, len);
    PlainLine(w, bpp);
    var padded := new byte[h * ((w * bpp + 7) / 8)](_ => 0);
    ghost var b0 := AllBits(padded[..]);
    AddPaddingBits(padded, img, imgoff, ((w * bpp + 7) / 8) * 8, w * bpp, h);
    BitsSize(padded[..]);
    PaddedImage(padded[..], b0, bits, 8 * imgoff, w * bpp, len, h);
    ghost var s0, kinds, fs := out[..], [], [];
    assert padded[..][0..0 + Rows(h, len)] == padded[..];
    error, kinds, fs := Filter(out, outoff, padded[..], 0, w, h, color, settings);
    if error == 0 {
      ResultEncoded(out[..], s0, outoff, w, h, Chop(padded[..], len, h), kinds, fs, color, settings,
                    bits[8 * imgoff..8 * imgoff + Rows(h, w * bpp)]);
      assert out[..outoff] == out[..][..outoff] && s0[..outoff] == old(out[..outoff]);
    }
  }

  lemma PlainLine(w: nat, bpp: nat)
    ensures LineBytes(w, bpp) == (w * bpp + 7) / 8
  {
  }

  /** Filters the image at byte imgoff, whose lines are whole bytes. */
  method FilterDirect(out: array<byte>, outoff: nat, img: array<byte>, imgoff: nat, w: nat, h: nat, color: ColorMode,
                      settings: FilterSettings)
    returns (error: nat)
    requires (w == 0 ==> h == 0) && LineBytes(w, color.Bpp()) < 0xFFFF_FFFF && out != img
    requires w * color.Bpp() % 8 == 0
    requires 8 * imgoff + Rows(h, w * color.Bpp()) <= 8 * img.Length
    requires outoff + Rows(h, LineBytes(w, color.Bpp()) + 1) <= out.Length
    requires UsedStrategy(color, settings) == LFS_PREDEFINED ==> h <= |settings.predefined|
    modifies out
    ensures error == FilterError(color, settings) && |AllBits(img[..])| == 8 * img.Length
    ensures error == 0 ==>
              EncodedAt(out[..], outoff, w, h, color.Bpp(),
                        AllBits(img[..])[8 * imgoff..8 * imgoff + Rows(h, w * color.Bpp())], TypesOk(color, settings, h))
    ensures error == 0 ==> out[..outoff] == old(out[..outoff])
  {
    hide AllBits, Overwrite, Rows, Chop, ImageBits, LineBytes, FilterResult, EncodedAt, UsedStrategy, TypesOk;
    var bpp := color.Bpp();
    ghost var len := LineBytes(w, bpp);
    LineFits(w, bpp);
    BitsSize(img[..]);
    EightTimes(h, len);
    UnpaddedImage(img[..], imgoff, len, h);
    ghost var s0, kinds, fs, s := out[..], [], [], img[..];
    error, kinds, fs := Filter(out, outoff, img[..], imgoff, w, h, color, settings);
    if error == 0 {
      ResultEncoded(out[..], s0, outoff, w, h, Chop(s[imgoff..imgoff + Rows(h, len)], len, h), kinds, fs, color, settings,
                    AllBits(s)[8 * imgoff..8 * imgoff + Rows(h, w * bpp)]);
      assert out[..outoff] == out[..][..outoff] && s0[..outoff] == old(out[..outoff]);
    }
  }

  /** Bytes before and after do not matter. */
  lemma EncodedElsewhere(s: seq<byte>, t: seq<byte>, off: nat, w: nat, h: nat, bpp: nat, img: seq<bit>, ok: bool, end: nat)
    requires EncodedAt(s, off, w, h, bpp, img, ok) && off + Rows(h, LineBytes(w, bpp) + 1) <= end <= |s|
    requires end <= |t| && s[..end] == t[..end]
    ensures EncodedAt(t, off, w, h, bpp, img, ok)
  {
    hide Rows, UnfilterLines, Chop, ImageBits, LineBytes;
    var n := Rows(h, LineBytes(w, bpp) + 1);
    assert s[off..off + n] == s[..end][off..off + n];
    assert t[off..off + n] == t[..end][off..off + n];
  }
}
