/**
 Is the chosen colour type the one with the fewest bits per pixel? Exactly unless the code avoids a
 palette or a colour key for the size of its chunk.
 */
module ColorMinimal {
  import opened ColorTrees
  import opened ColorStatistics
  import opened ColorPacking
  import opened ColorChoices
  import opened ColorConversion

  function BitsPerPixel(m: Mode): nat
  {
    (if m.colortype == LCT_RGB then 3 else if m.colortype == LCT_GREY_ALPHA then 2 else if m.colortype == LCT_RGBA then 4 else 1)
    * m.bitdepth
  }

  /** The modes that the settings allow and that can hold the image. */
  ghost predicate Candidate(m: Mode, s: Stats, img: seq<Pixel>)
  {
    && ModeOk(m)
    && (m.colortype == LCT_PALETTE ==> s.allowPalette)
    && (m.colortype == LCT_GREY || m.colortype == LCT_GREY_ALPHA ==> s.allowGreyscale)
    && forall i :: 0 <= i < |img| ==> Fits(m, img[i])
  }

  ghost predicate Minimal(m: Mode, s: Stats, img: seq<Pixel>)
  {
    forall c: Mode :: Candidate(c, s, img) ==> BitsPerPixel(m) <= BitsPerPixel(c)
  }

  /** A colour key of few pixels: the code takes an alpha channel instead. */
  predicate FewForKey(s: Stats)
  {
    s.key && s.numpixels <= 16
  }

  /** Two pixels or more for each colour: a palette is worth its chunk. */
  predicate PalettePays(s: Stats)
  {
    0 < s.numcolors && 2 * s.numcolors <= s.numpixels
  }

  /** Bits per pixel without a palette, with the alpha channel that the code takes. */
  function PlainBits(s: Stats): nat
  {
    var alpha, gray := s.alpha || FewForKey(s), !s.colored && s.allowGreyscale;
    var bits := if alpha || !gray then 8 else s.bits;
    (if alpha then (if gray then 2 else 4) else if gray then 1 else 3) * bits
  }

  predicate PaletteSmaller(s: Stats)
  {
    s.allowPalette && s.numcolors <= 256 && PaletteBits(s.numcolors) < PlainBits(s)
  }

  /** A chunk is avoided that would have saved bits: the palette's, for few pixels; or the key's, for few
      pixels, unless a palette is taken anyway. */
  predicate ChunkAvoided(s: Stats)
  {
    || (PaletteSmaller(s) && !PalettePays(s))
    || (FewForKey(s) && !(PaletteSmaller(s) && PalettePays(s)))
  }

  // ---------- counting colours ----------

  /** Different values among the values of a list are not more than the list has. */
  lemma {:induction false} DistinctFit(a: seq<Pixel>, b: seq<Pixel>)
    requires Distinct(a) && forall k :: 0 <= k < |a| ==> a[k] in b
    ensures |a| <= |b|
    decreases |a|
  {
    if |a| > 0 {
      var n := |a| - 1;
      var j :| 0 <= j < |b| && b[j] == a[n];
      var c := b[..j] + b[j + 1..];
      forall k | 0 <= k < n
        ensures a[..n][k] in c
      {
        var i :| 0 <= i < |b| && b[i] == a[k];
        assert i != j;
        assert c[if i < j then i else i - 1] == b[i];
      }
      DistinctFit(a[..n], c);
    }
  }

  /** A mode whose pixels are all in a list holds no more colours than the list has. */
  lemma ColorsWithin(s: Stats, img: seq<Pixel>, all: seq<Pixel>)
    requires PaletteOk(s, img) && s.allowPalette && |all| <= 256 && forall i :: 0 <= i < |img| ==> img[i] in all
    ensures s.numcolors <= |all|
  {
    if s.numcolors > 256 {
      var colors :| |colors| > 256 && ColorsOf(colors, img);
      DistinctFit(colors, all);
      assert false;
    }
    DistinctFit(s.palette, all);
  }

  lemma PaletteBitsLeast(n: nat, bits: nat)
    requires Depth(bits) && n <= Highest(bits) + 1
    ensures PaletteBits(n) <= bits
  {
  }

  /** The pixels that a grey mode can hold. */
  function GreyPixels(m: Mode): (all: seq<Pixel>)
    requires Depth(m.bitdepth)
    ensures |all| == Highest(m.bitdepth) + 1
  {
    seq(Highest(m.bitdepth) + 1, t requires 0 <= t < Highest(m.bitdepth) + 1 => GreyPixel(t, m))
  }

  lemma GreyAmong(p: Pixel, m: Mode)
    requires ModeOk(m) && m.colortype == LCT_GREY && Fits(m, p)
    ensures p in GreyPixels(m)
  {
    hide GreyPixel, Fits, TopBits, Highest;
    GreyBack(p, m);
    TopBitsBound(p.r, m.bitdepth);
    assert GreyPixels(m)[TopBits(p.r, m.bitdepth)] == p;
  }

  lemma SmallTables(bits: nat)
    requires Depth(bits)
    ensures Highest(bits) + 1 <= 256
  {
  }

  /** No palette or grey mode that holds the image has fewer bits than the palette needs. */
  lemma PaletteLeast(s: Stats, img: seq<Pixel>, m: Mode)
    requires PaletteOk(s, img) && s.allowPalette && Candidate(m, s, img)
    requires m.colortype == LCT_PALETTE || m.colortype == LCT_GREY
    ensures s.numcolors <= 256 && PaletteBits(s.numcolors) <= m.bitdepth
  {
    hide Highest, PaletteOk, PaletteBits;
    SmallTables(m.bitdepth);
    if m.colortype == LCT_PALETTE {
      ColorsWithin(s, img, m.palette);
    } else {
      forall i | 0 <= i < |img|
        ensures img[i] in GreyPixels(m)
      {
        GreyAmong(img[i], m);
      }
      ColorsWithin(s, img, GreyPixels(m));
    }
    PaletteBitsLeast(s.numcolors, m.bitdepth);
  }

  // ---------- alpha ----------

  /** No mode without an alpha channel or a palette can hold such pixels. */
  lemma KeyCannot(p: Pixel, q: Pixel, m: Mode)
    requires NoKeyFor(p, q) && ModeOk(m) && (m.colortype == LCT_GREY || m.colortype == LCT_RGB)
    ensures !(Fits(m, p) && Fits(m, q))
  {
    hide TopBits, Highest, Holds;
    if m.colortype == LCT_GREY && Fits(m, p) && Fits(m, q) {
      TopBitsInjective(p.r, q.r, m.bitdepth);
    }
  }

  lemma NoAlphaNoted(s: Stats, img: seq<Pixel>, m: Mode)
    requires AlphaNeeded(s, img) && Candidate(m, s, img) && (m.colortype == LCT_GREY || m.colortype == LCT_RGB)
    ensures !s.alpha
  {
    if s.alpha {
      var i, j :| 0 <= i < |img| && 0 <= j < |img| && NoKeyFor(img[i], img[j]);
      KeyCannot(img[i], img[j], m);
    }
  }

  lemma NoColorNoted(s: Stats, img: seq<Pixel>, m: Mode)
    requires GreyOk(s, img) && Candidate(m, s, img) && (m.colortype == LCT_GREY || m.colortype == LCT_GREY_ALPHA)
    ensures !s.colored
  {
  }

  lemma DepthNeeded(s: Stats, img: seq<Pixel>, m: Mode)
    requires BitsOk(s, img) && Candidate(m, s, img) && m.colortype == LCT_GREY && !s.colored && !s.alpha
    ensures s.bits <= m.bitdepth
  {
    assert !TooShallow(m.bitdepth, img);
  }

  // ---------- exactly when ----------

  lemma AtLeastChosen(s: Stats, img: seq<Pixel>, m: Mode)
    requires StatsOk(s, img) && AlphaNeeded(s, img) && !ChunkAvoided(s) && Candidate(m, s, img)
    ensures BitsPerPixel(Chosen(s)) <= BitsPerPixel(m)
  {
    hide BitsOk, GreyOk, AlphaOk, KeyOk, PaletteOk, AlphaNeeded, Candidate, Fits, Holds;
    CandidateMode(m, s, img);
    if m.colortype == LCT_PALETTE || (m.colortype == LCT_GREY && s.allowPalette) {
      PaletteLeast(s, img, m);
    }
    if m.colortype == LCT_GREY || m.colortype == LCT_RGB {
      NoAlphaNoted(s, img, m);
    }
    if m.colortype == LCT_GREY || m.colortype == LCT_GREY_ALPHA {
      NoColorNoted(s, img, m);
    }
    if m.colortype == LCT_GREY {
      DepthNeeded(s, img, m);
    }
    StatsBits(s, img);
  }

  lemma CandidateMode(m: Mode, s: Stats, img: seq<Pixel>)
    requires Candidate(m, s, img)
    ensures ModeOk(m) && (m.colortype == LCT_PALETTE ==> s.allowPalette)
    ensures m.colortype == LCT_GREY || m.colortype == LCT_GREY_ALPHA ==> s.allowGreyscale
  {
  }

  lemma StatsBits(s: Stats, img: seq<Pixel>)
    requires StatsOk(s, img)
    ensures Depth(s.bits) && (s.colored || s.alpha ==> s.bits == 8) && (s.alpha ==> !s.key)
    ensures s.numcolors > 0 ==> s.allowPalette
  {
  }

  /** Where a chunk is avoided, a mode with fewer bits could hold the image. */
  lemma SmallerMode(s: Stats, img: seq<Pixel>) returns (m: Mode)
    requires StatsOk(s, img) && ChunkAvoided(s)
    ensures Candidate(m, s, img) && BitsPerPixel(m) < BitsPerPixel(Chosen(s))
  {
    hide BitsOk, GreyOk, AlphaOk, KeyOk, Fits;
    StatsBits(s, img);
    if s.key && s.numpixels <= 16 && Chosen(s).colortype != LCT_PALETTE {
      m := ChosenFor(s);
      ChosenOk(s, img);
      forall i | 0 <= i < |img|
        ensures Fits(m, img[i])
      {
        PixelFits(s, img, i);
      }
    } else {
      m := Mode(LCT_PALETTE, PaletteBits(s.numcolors), s.palette, false, 0, 0, 0);
      PaletteHolds(s, img);
    }
  }

  lemma PaletteHolds(s: Stats, img: seq<Pixel>)
    requires PaletteOk(s, img) && s.allowPalette && s.numcolors <= 256
    ensures Candidate(Mode(LCT_PALETTE, PaletteBits(s.numcolors), s.palette, false, 0, 0, 0), s, img)
  {
  }

  /** The chosen mode has the fewest bits per pixel if and only if no chunk is avoided. */
  lemma MinimalExactly(s: Stats, img: seq<Pixel>)
    requires StatsOk(s, img) && AlphaNeeded(s, img)
    ensures Minimal(Chosen(s), s, img) <==> !ChunkAvoided(s)
  {
    hide StatsOk, AlphaNeeded, ChunkAvoided, Candidate, BitsPerPixel, Chosen;
    if ChunkAvoided(s) {
      var m := SmallerMode(s, img);
    } else {
      forall m: Mode | Candidate(m, s, img)
        ensures BitsPerPixel(Chosen(s)) <= BitsPerPixel(m)
      {
        AtLeastChosen(s, img, m);
      }
    }
  }

  /** One pixel that is not grey: its palette would need one bit, and is avoided. */
  lemma OnePixelExample()
    ensures var p := Pixel(1, 2, 3, 255);
            var s := Stats(true, false, Pixel(0, 0, 0, 0), false, 1, [p], 8, 1, true, true);
            StatsOk(s, [p]) && AlphaNeeded(s, [p]) && ChunkAvoided(s) && Chosen(s).colortype == LCT_RGB
  {
    var p := Pixel(1, 2, 3, 255);
    assert [p][0] == p && !IsGrey(p);
  }

  /** A coloured and a transparent pixel, palettes not allowed: a key would need 24 bits, and an alpha
      channel of 32 is taken. */
  lemma FewPixelsExample()
    ensures var p, q := Pixel(1, 2, 3, 255), Pixel(4, 5, 6, 0);
            var s := Stats(true, true, q, false, 0, [], 8, 2, false, true);
            && StatsOk(s, [p, q]) && AlphaNeeded(s, [p, q]) && ChunkAvoided(s) && !PaletteSmaller(s)
            && Chosen(s).colortype == LCT_RGBA
  {
    var p, q := Pixel(1, 2, 3, 255), Pixel(4, 5, 6, 0);
    assert [p, q][0] == p && [p, q][1] == q && !IsGrey(p);
  }

  /** Twice the same two pixels, palettes allowed: the key is avoided too, and it does no harm. */
  lemma PaletteTakenExample()
    ensures var p, q := Pixel(1, 2, 3, 255), Pixel(4, 5, 6, 0);
            var s := Stats(true, true, q, false, 2, [p, q], 8, 4, true, true);
            && StatsOk(s, [p, q, p, q]) && AlphaNeeded(s, [p, q, p, q]) && FewForKey(s)
            && Minimal(Chosen(s), s, [p, q, p, q])
  {
    var p, q := Pixel(1, 2, 3, 255), Pixel(4, 5, 6, 0);
    var img := [p, q, p, q];
    var s := Stats(true, true, q, false, 2, [p, q], 8, 4, true, true);
    assert img[0] == p && img[1] == q && !IsGrey(p);
    assert StatsOk(s, img);
    MinimalExactly(s, img);
  }
}
