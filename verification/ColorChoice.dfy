/**
 Choosing the smallest colour type for an image, converting to it and back. Nothing is lost,
 whichever type is chosen.
 */
module ColorChoices {
  import opened Bits
  import opened ColorTrees
  import opened ColorStatistics
  import opened ColorPacking

  const LCT_GREY: nat := 0
  const LCT_RGB: nat := 2
  const LCT_PALETTE: nat := 3
  const LCT_GREY_ALPHA: nat := 4
  const LCT_RGBA: nat := 6

  datatype Mode = Mode(colortype: nat, bitdepth: nat, palette: seq<Pixel>, keyDefined: bool, keyR: nat, keyG: nat, keyB: nat)


  // ---------- the choice ----------

  /** (1 << bits) - 1 applied to a key whose byte is repeated. */
  function MaskedKey(v: byte, bits: nat): nat
  {
    257 * v % (Highest(bits) + 1)
  }

  function PaletteBits(n: nat): nat
  {
    if n <= 2 then 1 else if n <= 4 then 2 else if n <= 16 then 4 else 8
  }

  /** auto_choose_color for an RGBA image. */
  method AutoChooseColor(s: Stats) returns (mode: Mode)
    requires Depth(s.bits)
    ensures mode == Chosen(s)
  {
    var alpha, key, bits := s.alpha, s.key, s.bits;
    if key && s.numpixels <= 16 {
      alpha := true;
      key := false;
      if bits < 8 { bits := 8; }
    }
    var grayOk := !s.colored;
    if !s.allowGreyscale { grayOk := false; }
    if !grayOk && bits < 8 { bits := 8; }
    var n := s.numcolors;
    var palettebits := if n <= 2 then 1 else if n <= 4 then 2 else if n <= 16 then 4 else 8;
    var paletteOk := n <= 256 && bits <= 8 && n != 0;
    if s.numpixels < n * 2 { paletteOk := false; }
    if grayOk && !alpha && bits <= palettebits { paletteOk := false; }
    if !s.allowPalette { paletteOk := false; }
    if paletteOk {
      mode := Mode(LCT_PALETTE, palettebits, s.palette, false, 0, 0, 0);
    } else {
      var colortype := if alpha then if grayOk then LCT_GREY_ALPHA else LCT_RGBA else if grayOk then LCT_GREY else LCT_RGB;
      mode := Mode(colortype, bits, [], false, 0, 0, 0);
      if key {
        mode := mode.(keyDefined := true, keyR := MaskedKey(s.keyColor.r, bits), keyG := MaskedKey(s.keyColor.g, bits),
                      keyB := MaskedKey(s.keyColor.b, bits));
      }
    }
  }

  /** With few pixels, a key is not worth its chunk. */
  function KeyPays(s: Stats): Stats
  {
    if s.key && s.numpixels <= 16 then WithAlpha(s) else s
  }

  function ChosenBits(s: Stats): nat
  {
    if (s.colored || !s.allowGreyscale) && s.bits < 8 then 8 else s.bits
  }

  /** The choice once the key is settled. */
  function ChosenFor(s: Stats): Mode
  {
    var bits, gray := ChosenBits(s), !s.colored && s.allowGreyscale;
    var n := s.numcolors;
    if 0 < n <= 256 && bits <= 8 && s.numpixels >= n * 2 && !(gray && !s.alpha && bits <= PaletteBits(n)) && s.allowPalette
    then Mode(LCT_PALETTE, PaletteBits(n), s.palette, false, 0, 0, 0)
    else
      var colortype := if s.alpha then if gray then LCT_GREY_ALPHA else LCT_RGBA else if gray then LCT_GREY else LCT_RGB;
      if s.key then Mode(colortype, bits, [], true, MaskedKey(s.keyColor.r, bits), MaskedKey(s.keyColor.g, bits), MaskedKey(s.keyColor.b, bits))
      else Mode(colortype, bits, [], false, 0, 0, 0)
  }

  function Chosen(s: Stats): Mode
  {
    ChosenFor(KeyPays(s))
  }

  // ---------- what a mode can hold ----------

  predicate ModeOk(m: Mode)
  {
    && Depth(m.bitdepth)
    && (m.colortype == LCT_GREY || m.colortype == LCT_RGB || m.colortype == LCT_PALETTE || m.colortype == LCT_GREY_ALPHA
        || m.colortype == LCT_RGBA)
    && (m.colortype == LCT_RGB || m.colortype == LCT_GREY_ALPHA || m.colortype == LCT_RGBA ==> m.bitdepth == 8)
    && (m.colortype == LCT_PALETTE ==> |m.palette| <= Highest(m.bitdepth) + 1)
  }

  /** Alpha is what the key says. */
  predicate AlphaByKey(a: byte, matches: bool)
  {
    a == if matches then 0 else 255
  }

  /** The pixel is one of those that the mode can hold. */
  predicate Fits(m: Mode, p: Pixel)
  {
    if m.colortype == LCT_GREY then
      IsGrey(p) && Holds(m.bitdepth, p.r) && AlphaByKey(p.a, m.keyDefined && TopBits(p.r, m.bitdepth) == m.keyR)
    else if m.colortype == LCT_RGB then
      AlphaByKey(p.a, m.keyDefined && p.r == m.keyR && p.g == m.keyG && p.b == m.keyB)
    else if m.colortype == LCT_PALETTE then p in m.palette
    else if m.colortype == LCT_GREY_ALPHA then IsGrey(p)
    else true
  }

  lemma TopBitsInjective(v: byte, w: byte, bits: nat)
    requires Depth(bits) && Holds(bits, v) && Holds(bits, w)
    ensures TopBits(v, bits) == TopBits(w, bits) <==> v == w
  {
    hide TopBits, Highest, Holds;
    ScaledBack(v, bits);
    ScaledBack(w, bits);
  }

  /** The key of the mode, against the key of the statistics. */
  lemma KeyMatches(v: byte, key: byte, bits: nat)
    requires Depth(bits) && Holds(bits, v) && Holds(bits, key)
    ensures TopBits(v, bits) == MaskedKey(key, bits) <==> v == key
  {
    hide TopBits, Highest, Holds;
    ScaledBack(key, bits);
    TopBitsInjective(v, key, bits);
  }

  /** The key pays or not: the statistics stay right. */
  lemma KeyPaysOk(s: Stats, img: seq<Pixel>)
    requires StatsOk(s, img)
    ensures StatsOk(KeyPays(s), img)
  {
    hide Holds;
    PaletteFields(s, KeyPays(s), img);
    AlphaBits(s, img);
    GreyFields(s, KeyPays(s), img);
  }

  /** Everything in the image fits the chosen mode. */
  lemma ChosenFits(s: Stats, img: seq<Pixel>)
    requires StatsOk(s, img)
    ensures ModeOk(Chosen(s)) && forall i :: 0 <= i < |img| ==> Fits(Chosen(s), img[i])
  {
    hide StatsOk, Fits, KeyPays;
    KeyPaysOk(s, img);
    var t := KeyPays(s);
    ChosenOk(t, img);
    forall i | 0 <= i < |img|
      ensures Fits(Chosen(s), img[i])
    {
      PixelFits(t, img, i);
    }
  }

  lemma ChosenOk(s: Stats, img: seq<Pixel>)
    requires StatsOk(s, img)
    ensures ModeOk(ChosenFor(s))
  {
  }

  lemma PixelFits(s: Stats, img: seq<Pixel>, i: nat)
    requires StatsOk(s, img) && i < |img|
    ensures Fits(ChosenFor(s), img[i])
  {
    hide TopBits, MaskedKey;
    var m := ChosenFor(s);
    if m.colortype == LCT_GREY {
      GreyFits(s, img, i);
    } else if m.colortype == LCT_RGB {
      RgbFits(s, img, i);
    }
  }

  /** The key colour is the colour of a pixel. */
  lemma KeyIsPixel(s: Stats, img: seq<Pixel>) returns (k: nat)
    requires AlphaOk(s, img) && s.key
    ensures k < |img| && img[k].a == 0 && HasKey(img[k], s.keyColor)
  {
    k :| 0 <= k < |img| && img[k].a == 0 && HasKey(img[k], s.keyColor);
  }

  lemma GreyFits(s: Stats, img: seq<Pixel>, i: nat)
    requires StatsOk(s, img) && i < |img| && ChosenFor(s).colortype == LCT_GREY
    ensures Fits(ChosenFor(s), img[i])
  {
    hide TopBits, MaskedKey, Holds, PaletteOk;
    var p := img[i];
    if s.key {
      var k := KeyIsPixel(s, img);
      KeyMatches(p.r, s.keyColor.r, s.bits);
      assert IsGrey(img[k]) && IsGrey(p);
    }
  }

  lemma MaskedKey8(v: byte)
    ensures MaskedKey(v, 8) == v
  {
    Scaled8(v);
  }

  lemma RgbFits(s: Stats, img: seq<Pixel>, i: nat)
    requires StatsOk(s, img) && i < |img| && ChosenFor(s).colortype == LCT_RGB
    ensures Fits(ChosenFor(s), img[i])
  {
    hide TopBits, MaskedKey, Holds, PaletteOk;
    MaskedKey8(s.keyColor.r);
    MaskedKey8(s.keyColor.g);
    MaskedKey8(s.keyColor.b);
  }
}
