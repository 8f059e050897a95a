/**
 From image to filtered scanlines and back: padding, filtering, and optionally Adam7. Decoding
 what was encoded gives the same bits, for every depth, filter strategy and interlace method; the
 only thing that can go wrong is a predefined filter type that does not exist.
 */
module PngScanlines {
  import opened Bits
  import opened PngLines
  import opened PngUnfilter
  import opened PngStrategies
  import opened PngBits
  import opened PngEncodeImages
  import opened Adam7
  import opened PngInterlace

  // ---------- the seven reduced images ----------

  ghost predicate PassEncoded(s: seq<byte>, passes: seq<bit>, w: nat, h: nat, bpp: nat, i: nat, ok: bool)
    requires i < 7
  {
    && 8 * PassStart(w, h, bpp, i) + PassBits(w, h, bpp, i) <= |passes|
    && EncodedAt(s, FilterStart(w, h, bpp, i), PassW(w, h, i), PassH(w, h, i), bpp,
                 passes[8 * PassStart(w, h, bpp, i)..8 * PassStart(w, h, bpp, i) + PassBits(w, h, bpp, i)], ok)
  }

  /** The first n passes are encoded. */
  ghost predicate PassesEncoded(s: seq<byte>, passes: seq<bit>, w: nat, h: nat, color: ColorMode, settings: FilterSettings, n: nat)
  {
    n <= 7 && forall i: nat :: i < n ==>
      PassEncoded(s, passes, w, h, color.Bpp(), i, TypesOk(color, settings, PassH(w, h, i)))
  }

  /** The image is in the scanlines. */
  ghost predicate ScanlinesFor(s: seq<byte>, passes: seq<bit>, img: seq<bit>, w: nat, h: nat, color: ColorMode,
                               interlace: bool, settings: FilterSettings)
  {
    var bpp := color.Bpp();
    if !interlace then
      Rows(h, w * bpp) <= |img| && EncodedAt(s, 0, w, h, bpp, img[..Rows(h, w * bpp)], TypesOk(color, settings, h))
    else
      PassesEncoded(s, passes, w, h, color, settings, 7) && Interlaced(passes, img, w, h, bpp)
  }

  lemma PassLineBytes(w: nat, h: nat, bpp: nat, i: nat)
    requires i < 7
    ensures LineBytes(PassW(w, h, i), bpp) == PassLine(w, h, bpp, i)
    ensures PassBits(w, h, bpp, i) == Rows(PassH(w, h, i), PassW(w, h, i) * bpp)
    ensures PassW(w, h, i) == 0 ==> PassH(w, h, i) == 0
    ensures PassW(w, h, i) <= w && PassH(w, h, i) <= h
  {
    hide Rows;
    RowsIsProduct(PassW(w, h, i), bpp);
  }

  lemma SmallerLine(w: nat, w': nat, bpp: nat)
    requires w' <= w
    ensures LineBytes(w', bpp) <= LineBytes(w, bpp)
  {
    assert w * bpp == w' * bpp + (w - w') * bpp;
    assert (w - w') * bpp >= 0;
  }

  /** The last encoded pass, and the ones before it where they were. */
  lemma NextPassEncoded(s: seq<byte>, t: seq<byte>, passes: seq<bit>, w: nat, h: nat, color: ColorMode,
                        settings: FilterSettings, i: nat)
    requires i < 7 && PassesEncoded(s, passes, w, h, color, settings, i)
    requires FilterStart(w, h, color.Bpp(), i) <= |s| == |t|
    requires s[..FilterStart(w, h, color.Bpp(), i)] == t[..FilterStart(w, h, color.Bpp(), i)]
    requires PassEncoded(t, passes, w, h, color.Bpp(), i, TypesOk(color, settings, PassH(w, h, i)))
    ensures PassesEncoded(t, passes, w, h, color, settings, i + 1)
  {
    hide PassEncoded, TypesOk, PassH, FilterStart, ColorMode.Bpp;
    var bpp, n := color.Bpp(), i + 1;
    forall k: nat | k < n
      ensures PassEncoded(t, passes, w, h, bpp, k, TypesOk(color, settings, PassH(w, h, k)))
    {
      if k < i {
        KeepPass(s, t, passes, w, h, bpp, i, k, TypesOk(color, settings, PassH(w, h, k)));
      }
    }
  }

  lemma KeepPass(s: seq<byte>, t: seq<byte>, passes: seq<bit>, w: nat, h: nat, bpp: nat, i: nat, k: nat, ok: bool)
    requires k < i < 7 && PassEncoded(s, passes, w, h, bpp, k, ok)
    requires FilterStart(w, h, bpp, i) <= |s| == |t|
    requires s[..FilterStart(w, h, bpp, i)] == t[..FilterStart(w, h, bpp, i)]
    ensures PassEncoded(t, passes, w, h, bpp, k, ok)
  {
    hide EncodedAt, PassH, PassW, Rows, PassBits, PassLine, PassStart, FilterStart, LineBytes;
    PassLineBytes(w, h, bpp, k);
    FilterStartStep(w, h, bpp, k);
    StartsMono(w, h, bpp, k + 1, i);
    EncodedElsewhere(s, t, FilterStart(w, h, bpp, k), PassW(w, h, k), PassH(w, h, k), bpp,
                     passes[8 * PassStart(w, h, bpp, k)..8 * PassStart(w, h, bpp, k) + PassBits(w, h, bpp, k)],
                     ok, FilterStart(w, h, bpp, i));
  }

  /** Pads and filters one reduced image. */
  method FilterPass(out: array<byte>, adam7: array<byte>, w: nat, h: nat, color: ColorMode, settings: FilterSettings,
                    i: nat, v: PassValues)
    returns (error: nat)
    requires i < 7 && Values(v, w, h, color.Bpp(), 7) && GoodDepth(color.Bpp()) && out != adam7
    requires LineBytes(w, color.Bpp()) < 0xFFFF_FFFF
    requires out.Length == FilterStart(w, h, color.Bpp(), 7) && adam7.Length == PassStart(w, h, color.Bpp(), 7)
    requires UsedStrategy(color, settings) == LFS_PREDEFINED ==> h <= |settings.predefined|
    modifies out
    ensures error == FilterError(color, settings)
    ensures error == 0 ==>
              && FilterStart(w, h, color.Bpp(), i) <= out.Length
              && PassEncoded(out[..], AllBits(adam7[..]), w, h, color.Bpp(), i, TypesOk(color, settings, PassH(w, h, i)))
              && out[..FilterStart(w, h, color.Bpp(), i)] == old(out[..FilterStart(w, h, color.Bpp(), i)])
  {
    hide AllBits, Rows, LineBytes, EncodedAt, UsedStrategy, TypesOk, PassW, PassH, PassLine, PassBits;
    var bpp := color.Bpp();
    var passw, passh := v.passw[i], v.passh[i];
    PassLineBytes(w, h, bpp, i);
    SmallerLine(w, passw, bpp);
    PassStartMono(w, h, bpp, i, 7);
    StartsMono(w, h, bpp, i + 1, 7);
    LayoutsOrdered(w, h, bpp, i);
    FilterStartStep(w, h, bpp, i);
    if bpp < 8 {
      error := FilterPadded(out, v.filter[i], adam7, v.start[i], passw, passh, color, settings);
    } else {
      WholeBytes(passw, bpp);
      error := FilterDirect(out, v.filter[i], adam7, v.padded[i], passw, passh, color, settings);
    }
  }

  lemma FilterStartStep(w: nat, h: nat, bpp: nat, i: nat)
    requires i < 7
    ensures FilterStart(w, h, bpp, i + 1) == FilterStart(w, h, bpp, i) + Rows(PassH(w, h, i), PassLine(w, h, bpp, i) + 1)
    ensures PaddedStart(w, h, bpp, i + 1) == PaddedStart(w, h, bpp, i) + Rows(PassH(w, h, i), PassLine(w, h, bpp, i))
  {
  }

  lemma WholeBytes(w: nat, bpp: nat)
    requires bpp % 8 == 0
    ensures w * bpp % 8 == 0
  {
    var b := bpp / 8;
    assert w * (8 * b) == 8 * (w * b);
  }

  // ---------- encoding ----------

  lemma NoPassEncoded(s: seq<byte>, passes: seq<bit>, w: nat, h: nat, color: ColorMode, settings: FilterSettings)
    ensures PassesEncoded(s, passes, w, h, color, settings, 0)
  {
  }

  method PreProcessPasses(img: array<byte>, w: nat, h: nat, color: ColorMode, settings: FilterSettings)
    returns (error: nat, out: array<byte>, ghost passes: seq<bit>)
    requires GoodDepth(color.Bpp()) && LineBytes(w, color.Bpp()) < 0xFFFF_FFFF
    requires Rows(h, Rows(w, color.Bpp())) <= 8 * img.Length
    requires UsedStrategy(color, settings) == LFS_PREDEFINED ==> h <= |settings.predefined|
    ensures fresh(out) && out.Length == FilterStart(w, h, color.Bpp(), 7)
    ensures error == FilterError(color, settings)
    ensures error == 0 ==> PassesEncoded(out[..], passes, w, h, color, settings, 7)
                           && Interlaced(passes, AllBits(img[..]), w, h, color.Bpp())
  {
    hide AllBits, Rows, LineBytes, EncodedAt, UsedStrategy, TypesOk, PassW, PassH, PassLine, PassBits, PassStart,
         FilterStart, PassEncoded, PassesEncoded, Interlaced, KnownStrategy;
    var bpp := color.Bpp();
    var v := GetPassValues(w, h, bpp);
    out := new byte[v.filter[7]](_ => 0);
    var adam7 := new byte[v.start[7]](_ => 0);
    Interlace(adam7, img, w, h, bpp);
    passes := AllBits(adam7[..]);
    NoPassEncoded(out[..], passes, w, h, color, settings);
    error := 0;
    var i := 0;
    while i != 7
      invariant i <= 7 && (i > 0 ==> FilterError(color, settings) == 0)
      invariant passes == AllBits(adam7[..])
      invariant PassesEncoded(out[..], passes, w, h, color, settings, i)
    {
      ghost var s := out[..];
      error := FilterPass(out, adam7, w, h, color, settings, i, v);
      if error != 0 {
        return;
      }
      PassPrefix(s, out[..], FilterStart(w, h, bpp, i));
      NextPassEncoded(s, out[..], passes, w, h, color, settings, i);
      i := i + 1;
    }
  }

  lemma PassPrefix(s: seq<byte>, t: seq<byte>, n: nat)
    requires n <= |s| == |t|
    ensures s[..n] == t[..n] <==> forall k :: 0 <= k < n ==> s[k] == t[k]
  {
    if forall k :: 0 <= k < n ==> s[k] == t[k] {
      assert s[..n] == t[..n];
    } else {
      var k :| 0 <= k < n && s[k] != t[k];
      assert s[..n][k] != t[..n][k];
    }
  }

  method PreProcessWhole(img: array<byte>, w: nat, h: nat, color: ColorMode, settings: FilterSettings)
    returns (error: nat, out: array<byte>)
    requires GoodDepth(color.Bpp()) && LineBytes(w, color.Bpp()) < 0xFFFF_FFFF && (w == 0 ==> h == 0)
    requires Rows(h, w * color.Bpp()) <= 8 * img.Length
    requires UsedStrategy(color, settings) == LFS_PREDEFINED ==> h <= |settings.predefined|
    ensures fresh(out) && out.Length == Rows(h, LineBytes(w, color.Bpp()) + 1)
    ensures error == FilterError(color, settings) && |AllBits(img[..])| == 8 * img.Length
    ensures error == 0 ==> EncodedAt(out[..], 0, w, h, color.Bpp(), AllBits(img[..])[..Rows(h, w * color.Bpp())],
                                     TypesOk(color, settings, h))
  {
    hide AllBits, Rows, EncodedAt, UsedStrategy, TypesOk, KnownStrategy;
    var bpp := color.Bpp();
    ghost var len := LineBytes(w, bpp);
    RowsIsProduct(h, len);
    RowsIsProduct(h, len + 1);
    OneMore(h, len);
    out := new byte[h + h * ((w * bpp + 7) / 8)](_ => 0);
    BitsSize(img[..]);
    FromZero(AllBits(img[..]), Rows(h, w * bpp));
    if bpp < 8 && w * bpp != ((w * bpp + 7) / 8) * 8 {
      error := FilterPadded(out, 0, img, 0, w, h, color, settings);
    } else {
      if bpp >= 8 {
        WholeBytes(w, bpp);
      }
      error := FilterDirect(out, 0, img, 0, w, h, color, settings);
    }
  }

  lemma OneMore(h: nat, len: nat)
    ensures h * (len + 1) == h + h * len
  {
  }

  lemma FromZero(bits: seq<bit>, n: nat)
    requires n <= |bits|
    ensures bits[8 * 0..8 * 0 + n] == bits[..n]
  {
  }

  /** Turns an image into scanlines. */
  method PreProcessScanlines(img: array<byte>, w: nat, h: nat, color: ColorMode, interlace: bool, settings: FilterSettings)
    returns (error: nat, out: array<byte>, ghost passes: seq<bit>)
    requires GoodDepth(color.Bpp()) && LineBytes(w, color.Bpp()) < 0xFFFF_FFFF && (w == 0 ==> h == 0)
    requires Rows(h, w * color.Bpp()) <= 8 * img.Length
    requires UsedStrategy(color, settings) == LFS_PREDEFINED ==> h <= |settings.predefined|
    ensures fresh(out)
    ensures out.Length == if interlace then FilterStart(w, h, color.Bpp(), 7) else Rows(h, LineBytes(w, color.Bpp()) + 1)
    ensures error == FilterError(color, settings)
    ensures error == 0 ==> ScanlinesFor(out[..], passes, AllBits(img[..]), w, h, color, interlace, settings)
  {
    hide AllBits, Rows, LineBytes, EncodedAt, UsedStrategy, TypesOk, KnownStrategy, FilterStart, PassesEncoded, Interlaced;
    RowsIsProduct(w, color.Bpp());
    passes := [];
    if !interlace {
      error, out := PreProcessWhole(img, w, h, color, settings);
    } else {
      error, out, passes := PreProcessPasses(img, w, h, color, settings);
    }
  }
}
