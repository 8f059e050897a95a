/**
 What the encoder finds out about an RGBA image before it chooses a colour type.
 */
module ColorStatistics {
  import opened Bits
  import opened ColorTrees

  /** Grey values that a bit depth can hold. */
  predicate Holds(bits: nat, v: byte)
  {
    if bits == 1 then v == 0 || v == 255
    else if bits == 2 then v % 85 == 0
    else if bits == 4 then v % 17 == 0
    else bits == 8
  }

  /** getValueRequiredBits: the smallest depth that holds the value. */
  method RequiredBits(v: byte) returns (bits: nat)
    ensures (bits == 1 || bits == 2 || bits == 4 || bits == 8) && Holds(bits, v)
    ensures forall d :: (d == 1 || d == 2 || d == 4 || d == 8) && Holds(d, v) ==> bits <= d
  {
    if v == 0 || v == 255 {
      return 1;
    }
    if v % 17 == 0 {
      return if v % 85 == 0 then 2 else 4;
    }
    return 8;
  }

  predicate Depth(bits: nat)
  {
    bits == 1 || bits == 2 || bits == 4 || bits == 8
  }

  lemma HoldsMore(bits: nat, more: nat, v: byte)
    requires Depth(bits) && Depth(more) && bits <= more && Holds(bits, v)
    ensures Holds(more, v)
  {
    if v == 0 || v == 255 {
    } else if bits == 2 && more == 4 {
      assert v == 85 * (v / 85);
    }
  }

  predicate IsGrey(p: Pixel)
  {
    p.r == p.g == p.b
  }

  predicate HasKey(p: Pixel, key: Pixel)
  {
    p.r == key.r && p.g == key.g && p.b == key.b
  }

  /** What has been found out; the key's alpha plays no part. */
  datatype Stats = Stats(colored: bool, key: bool, keyColor: Pixel, alpha: bool, numcolors: nat, palette: seq<Pixel>,
                         bits: nat, numpixels: nat, allowPalette: bool, allowGreyscale: bool)

  // ---------- what the statistics mean ----------

  /** Some red value does not fit depth d. */
  ghost predicate TooShallow(d: nat, img: seq<Pixel>)
  {
    exists i :: 0 <= i < |img| && !Holds(d, img[i].r)
  }

  /** The depth holds all red values, and is the smallest that does unless channels or alpha ask for 8. */
  ghost predicate BitsOk(s: Stats, img: seq<Pixel>)
  {
    && Depth(s.bits) && (forall i :: 0 <= i < |img| ==> Holds(s.bits, img[i].r))
    && (s.colored || s.alpha ==> s.bits == 8)
    && (!s.colored && !s.alpha ==> forall d: nat :: Depth(d) && d < s.bits ==> TooShallow(d, img))
  }

  ghost predicate GreyOk(s: Stats, img: seq<Pixel>)
  {
    s.colored <==> exists i :: 0 <= i < |img| && !IsGrey(img[i])
  }

  /** Two pixels that no colour key can tell apart as it should: a half-transparent one, two transparent
      ones of different colour, or a transparent and another one of the same colour. */
  predicate NoKeyFor(p: Pixel, q: Pixel)
  {
    || (p.a != 0 && p.a != 255)
    || (p.a == 0 && q.a == 0 && !HasKey(p, q))
    || (p.a == 0 && q.a != 0 && HasKey(p, q))
  }

  ghost predicate NeedsAlpha(img: seq<Pixel>)
  {
    exists i, j :: 0 <= i < |img| && 0 <= j < |img| && NoKeyFor(img[i], img[j])
  }

  /** Alpha is not noted without need. */
  ghost predicate AlphaNeeded(s: Stats, img: seq<Pixel>)
  {
    s.alpha ==> NeedsAlpha(img)
  }

  /** Without alpha, pixels are opaque, or transparent and of the key colour. */
  ghost predicate AlphaOk(s: Stats, img: seq<Pixel>)
  {
    && (s.alpha ==> !s.key)
    && (!s.alpha ==> forall i :: 0 <= i < |img| ==>
          img[i].a == 255 || (img[i].a == 0 && s.key && HasKey(img[i], s.keyColor)))
    && (s.key ==> exists i :: 0 <= i < |img| && img[i].a == 0 && HasKey(img[i], s.keyColor))
  }

  /** No opaque pixel has the key colour. */
  ghost predicate KeyOk(s: Stats, img: seq<Pixel>)
  {
    s.key ==> forall i :: 0 <= i < |img| && img[i].a != 0 ==> !HasKey(img[i], s.keyColor)
  }

  ghost predicate Distinct(palette: seq<Pixel>)
  {
    forall i, j :: 0 <= i < j < |palette| ==> palette[i] != palette[j]
  }

  ghost predicate ColorsOf(palette: seq<Pixel>, img: seq<Pixel>)
  {
    Distinct(palette) && forall k :: 0 <= k < |palette| ==> palette[k] in img
  }

  ghost predicate ManyColors(img: seq<Pixel>)
  {
    exists colors :: |colors| > 256 && ColorsOf(colors, img)
  }

  /** Up to 256 colours: the palette has exactly the colours of the image, each once. */
  ghost predicate PaletteOk(s: Stats, img: seq<Pixel>)
  {
    && (s.allowPalette && s.numcolors <= 256 ==>
          |s.palette| == s.numcolors && ColorsOf(s.palette, img) && forall i :: 0 <= i < |img| ==> img[i] in s.palette)
    && (s.allowPalette && s.numcolors > 256 ==> ManyColors(img))
    && (!s.allowPalette ==> s.numcolors == 0)
  }

  /** Correct statistics. */
  ghost predicate StatsOk(s: Stats, img: seq<Pixel>)
  {
    BitsOk(s, img) && GreyOk(s, img) && AlphaOk(s, img) && KeyOk(s, img) && PaletteOk(s, img) && s.numpixels == |img|
  }

  // ---------- one pixel ----------

  method NoteBits(s: Stats, p: Pixel, ghost before: seq<Pixel>) returns (r: Stats)
    requires BitsOk(s, before)
    ensures r == s.(bits := r.bits) && BitsOk(r, before + [p])
  {
    r := s;
    if s.bits < 8 {
      var bits := RequiredBits(p.r);
      if bits > s.bits {
        r := s.(bits := bits);
      }
      MoreBits(s, r.bits, p, before, bits);
    } else {
      KeepBits(s, p, before);
    }
  }

  lemma KeepBits(s: Stats, p: Pixel, before: seq<Pixel>)
    requires BitsOk(s, before) && s.bits == 8
    ensures BitsOk(s, before + [p])
  {
    if !s.colored && !s.alpha {
      forall d: nat | Depth(d) && d < 8
        ensures TooShallow(d, before + [p])
      {
        StillShallow(d, before, p);
      }
    }
  }

  lemma MoreBits(s: Stats, more: nat, p: Pixel, before: seq<Pixel>, bits: nat)
    requires BitsOk(s, before) && Depth(more) && s.bits <= more && Depth(bits) && bits <= more && Holds(bits, p.r)
    requires forall d: nat :: Depth(d) && Holds(d, p.r) ==> bits <= d
    requires more == if bits > s.bits then bits else s.bits
    ensures BitsOk(s.(bits := more), before + [p])
  {
    var img := before + [p];
    forall i | 0 <= i < |img|
      ensures Holds(more, img[i].r)
    {
      if i < |before| {
        assert img[i] == before[i];
        HoldsMore(s.bits, more, before[i].r);
      } else {
        HoldsMore(bits, more, p.r);
      }
    }
    if !s.colored && !s.alpha {
      forall d: nat | Depth(d) && d < more
        ensures TooShallow(d, img)
      {
        if d < s.bits {
          StillShallow(d, before, p);
        } else {
          assert img[|before|] == p && !Holds(d, p.r);
        }
      }
    }
  }

  lemma StillShallow(d: nat, before: seq<Pixel>, p: Pixel)
    requires TooShallow(d, before)
    ensures TooShallow(d, before + [p])
  {
    var i :| 0 <= i < |before| && !Holds(d, before[i].r);
    assert (before + [p])[i] == before[i];
  }

  /** Depth 8 holds everything. */
  lemma AllBits8(s: Stats, img: seq<Pixel>)
    requires s.colored || s.alpha
    ensures s.bits == 8 ==> BitsOk(s, img)
  {
  }

  method NoteColor(s: Stats, p: Pixel, ghost before: seq<Pixel>) returns (r: Stats)
    requires GreyOk(s, before) && BitsOk(s, before + [p])
    ensures r == s.(colored := r.colored, bits := r.bits) && GreyOk(r, before + [p]) && BitsOk(r, before + [p])
  {
    r := s;
    if !s.colored && (p.r != p.g || p.r != p.b) {
      r := s.(colored := true);
      if r.bits < 8 {
        r := r.(bits := 8);
      }
      AllBits8(r, before + [p]);
    }
    GreyMore(s, p, before);
  }

  lemma GreyMore(s: Stats, p: Pixel, before: seq<Pixel>)
    requires GreyOk(s, before)
    ensures GreyOk(s.(colored := s.colored || !IsGrey(p)), before + [p])
  {
    var img := before + [p];
    assert img[|before|] == p;
    if s.colored {
      var i :| 0 <= i < |before| && !IsGrey(before[i]);
      assert img[i] == before[i];
    }
  }

  function WithAlpha(s: Stats): Stats
  {
    s.(alpha := true, key := false, bits := if s.bits < 8 then 8 else s.bits)
  }

  method NoteAlpha(s: Stats, p: Pixel, ghost before: seq<Pixel>) returns (r: Stats)
    requires AlphaOk(s, before) && BitsOk(s, before + [p])
    ensures r == s.(alpha := r.alpha, key := r.key, keyColor := r.keyColor, bits := r.bits)
    ensures AlphaOk(r, before + [p]) && BitsOk(r, before + [p])
    ensures AlphaNeeded(s, before) ==> AlphaNeeded(r, before + [p])
  {
    hide BitsOk;
    r := s;
    AlphaBits(s, before + [p]);
    AlphaCases(s, p, before);
    if s.alpha {
      return;
    }
    var matchkey := HasKey(p, s.keyColor);
    if p.a != 255 && (p.a != 0 || (s.key && !matchkey)) {
      r := WithAlpha(s);
    } else if p.a == 0 && !s.alpha && !s.key {
      r := s.(key := true, keyColor := p);
      NewKey(s, p, before);
    } else if p.a == 255 && s.key && matchkey {
      r := WithAlpha(s);
    } else {
      SameAlpha(s, p, before);
    }
  }

  /** Where alpha is noted, it is needed, and it stays so. */
  lemma AlphaCases(s: Stats, p: Pixel, before: seq<Pixel>)
    requires AlphaOk(s, before)
    ensures s.alpha && NeedsAlpha(before) ==> NeedsAlpha(before + [p])
    ensures !s.alpha && p.a != 255 && (p.a != 0 || (s.key && !HasKey(p, s.keyColor))) ==> NeedsAlpha(before + [p])
    ensures !s.alpha && p.a == 255 && s.key && HasKey(p, s.keyColor) ==> NeedsAlpha(before + [p])
  {
    var img := before + [p];
    assert img[|before|] == p;
    if s.alpha && NeedsAlpha(before) {
      var i, j :| 0 <= i < |before| && 0 <= j < |before| && NoKeyFor(before[i], before[j]);
      assert NoKeyFor(img[i], img[j]);
    }
    if !s.alpha {
      if p.a != 255 && p.a != 0 {
        assert NoKeyFor(img[|before|], img[|before|]);
      } else if s.key {
        var i :| 0 <= i < |before| && before[i].a == 0 && HasKey(before[i], s.keyColor);
        assert img[i] == before[i];
        if p.a == 0 && !HasKey(p, s.keyColor) {
          assert NoKeyFor(img[i], img[|before|]);
        } else if p.a == 255 && HasKey(p, s.keyColor) {
          assert NoKeyFor(img[i], img[|before|]);
        }
      }
    }
  }

  lemma AlphaBits(s: Stats, img: seq<Pixel>)
    requires BitsOk(s, img)
    ensures BitsOk(WithAlpha(s), img)
    ensures forall c: Pixel :: BitsOk(s.(key := true, keyColor := c), img)
  {
  }

  lemma NewKey(s: Stats, p: Pixel, before: seq<Pixel>)
    requires AlphaOk(s, before) && !s.alpha && !s.key && p.a == 0
    ensures AlphaOk(s.(key := true, keyColor := p), before + [p])
  {
    var img := before + [p];
    assert img[|before|] == p;
    forall i | 0 <= i < |before|
      ensures img[i].a == 255
    {
      assert img[i] == before[i];
    }
  }

  lemma SameAlpha(s: Stats, p: Pixel, before: seq<Pixel>)
    requires AlphaOk(s, before) && !s.alpha && (p.a == 255 || (p.a == 0 && s.key && HasKey(p, s.keyColor)))
    ensures AlphaOk(s, before + [p])
  {
    var img := before + [p];
    forall i | 0 <= i < |img|
      ensures img[i].a == 255 || (img[i].a == 0 && s.key && HasKey(img[i], s.keyColor))
    {
      if i < |before| { assert img[i] == before[i]; }
    }
    if s.key {
      var i :| 0 <= i < |before| && before[i].a == 0 && HasKey(before[i], s.keyColor);
      assert img[i] == before[i];
    }
  }

  /** The colours counted so far, and the tree that finds them. */
  ghost predicate Counted(s: Stats, tree: ColorTree, img: seq<Pixel>)
  {
    && |s.palette| == s.numcolors <= 256 && ColorsOf(s.palette, img) && TreeOf(tree, s.palette)
    && forall i :: 0 <= i < |img| ==> img[i] in s.palette
  }

  /** Either all colours are counted, or there are more than a palette holds, or nobody wants to know. */
  ghost predicate Counting(s: Stats, tree: ColorTree, img: seq<Pixel>, done: bool)
  {
    if done then (if s.allowPalette then s.numcolors == 257 && ManyColors(img) else s.numcolors == 0)
    else s.allowPalette && Counted(s, tree, img)
  }

  method NoteNumber(s: Stats, tree0: ColorTree, p: Pixel, done0: bool, ghost before: seq<Pixel>)
    returns (r: Stats, tree: ColorTree, done: bool)
    requires Counting(s, tree0, before, done0)
    ensures r == s.(numcolors := r.numcolors, palette := r.palette) && Counting(r, tree, before + [p], done)
  {
    hide TreeOf, Get, Add, ManyColors, ColorsOf;
    r, tree, done := s, tree0, done0;
    MoreColors(s, p, before);
    if !done {
      Found(tree, s.palette, p);
      if Get(tree, p, 0) < 0 {
        TreeAdded(tree, s.palette, p);
        tree := Add(tree, p, 0, s.numcolors);
        if s.numcolors < 256 {
          r := s.(palette := s.palette + [p]);
        }
        r := r.(numcolors := s.numcolors + 1);
        done := r.numcolors >= 257;
      }
    }
  }

  lemma MoreColors(s: Stats, p: Pixel, before: seq<Pixel>)
    ensures ManyColors(before) ==> ManyColors(before + [p])
    ensures ColorsOf(s.palette, before) ==> ColorsOf(s.palette, before + [p])
    ensures ColorsOf(s.palette, before) && p !in s.palette ==>
              ColorsOf(s.palette + [p], before + [p]) && (|s.palette| == 256 ==> ManyColors(before + [p]))
  {
    forall c | c in before
      ensures c in before + [p]
    {
    }
    if ManyColors(before) {
      var colors :| |colors| > 256 && ColorsOf(colors, before);
      assert ColorsOf(colors, before + [p]);
    }
    if ColorsOf(s.palette, before) && p !in s.palette {
      assert (before + [p])[|before|] == p;
      assert ColorsOf(s.palette + [p], before + [p]);
    }
  }

  lemma Found(tree: ColorTree, palette: seq<Pixel>, p: Pixel)
    requires TreeOf(tree, palette)
    ensures Get(tree, p, 0) < 0 <==> p !in palette
  {
    assert IndexIn(Get(tree, p, 0), palette, p);
  }

  // ---------- the whole image ----------

  function FreshStats(allowPalette: bool, allowGreyscale: bool): Stats
  {
    Stats(false, false, Pixel(0, 0, 0, 0), false, 0, [], 1, 0, allowPalette, allowGreyscale)
  }

  ghost predicate StatsUpTo(s: Stats, tree: ColorTree, img: seq<Pixel>, done: bool)
  {
    BitsOk(s, img) && GreyOk(s, img) && AlphaOk(s, img) && AlphaNeeded(s, img) && Counting(s, tree, img, done)
  }

  method NotePixel(s: Stats, tree0: ColorTree, p: Pixel, done0: bool, ghost before: seq<Pixel>)
    returns (r: Stats, tree: ColorTree, done: bool)
    requires StatsUpTo(s, tree0, before, done0)
    ensures StatsUpTo(r, tree, before + [p], done) && r.numpixels == s.numpixels
    ensures r.allowPalette == s.allowPalette && r.allowGreyscale == s.allowGreyscale
  {
    hide BitsOk, GreyOk, AlphaOk, AlphaNeeded, Counting;
    var a := NoteBits(s, p, before);
    GreyFields(s, a, before);
    var b := NoteColor(a, p, before);
    AlphaFields(s, b, before);
    var c := NoteAlpha(b, p, before);
    GreyFields(b, c, before + [p]);
    CountFields(s, c, tree0, before, done0);
    r, tree, done := NoteNumber(c, tree0, p, done0, before);
    GreyFields(c, r, before + [p]);
    AlphaFields(c, r, before + [p]);
    BitsFields(c, r, before + [p]);
  }

  // Each fact depends on its own fields only.

  lemma GreyFields(s: Stats, r: Stats, img: seq<Pixel>)
    requires r.colored == s.colored
    ensures GreyOk(s, img) <==> GreyOk(r, img)
  {
  }

  lemma AlphaFields(s: Stats, r: Stats, img: seq<Pixel>)
    requires r.alpha == s.alpha && r.key == s.key && r.keyColor == s.keyColor
    ensures AlphaOk(s, img) <==> AlphaOk(r, img)
    ensures AlphaNeeded(s, img) <==> AlphaNeeded(r, img)
  {
  }

  lemma BitsFields(s: Stats, r: Stats, img: seq<Pixel>)
    requires r.bits == s.bits && r.colored == s.colored && r.alpha == s.alpha
    ensures BitsOk(s, img) <==> BitsOk(r, img)
  {
  }

  lemma CountFields(s: Stats, r: Stats, tree: ColorTree, img: seq<Pixel>, done: bool)
    requires r.palette == s.palette && r.numcolors == s.numcolors && r.allowPalette == s.allowPalette
    ensures Counting(s, tree, img, done) <==> Counting(r, tree, img, done)
  {
  }

  /** lodepng_compute_color_stats on fresh statistics. An RGBA image has 32 bits per pixel, so the depth is
      never as large as that, and the loop goes through all pixels. */
  method ComputeColorStats(img: seq<Pixel>, allowPalette: bool, allowGreyscale: bool) returns (s: Stats)
    ensures StatsOk(s, img) && AlphaNeeded(s, img) && s.allowPalette == allowPalette && s.allowGreyscale == allowGreyscale
  {
    hide BitsOk, GreyOk, AlphaOk, AlphaNeeded, Counting, TreeOf;
    s := FreshStats(allowPalette, allowGreyscale).(numpixels := |img|);
    var tree, done := Empty(), !allowPalette;
    FreshIsOk(|img|, allowPalette, allowGreyscale);
    assert img[..0] == [];
    var i := 0;
    while i != |img|
      invariant i <= |img| && StatsUpTo(s, tree, img[..i], done) && s.numpixels == |img|
      invariant s.allowPalette == allowPalette && s.allowGreyscale == allowGreyscale
    {
      assert img[..i + 1] == img[..i] + [img[i]];
      s, tree, done := NotePixel(s, tree, img[i], done, img[..i]);
      i := i + 1;
    }
    assert img[..i] == img;
    CountedAll(s, tree, img, done);
    s := CheckKey(s, img);
  }

  lemma FreshIsOk(n: nat, allowPalette: bool, allowGreyscale: bool)
    ensures StatsUpTo(FreshStats(allowPalette, allowGreyscale).(numpixels := n), Empty(), [], !allowPalette)
  {
    EmptyTree();
  }

  lemma CountedAll(s: Stats, tree: ColorTree, img: seq<Pixel>, done: bool)
    requires Counting(s, tree, img, done)
    ensures PaletteOk(s, img)
  {
  }

  lemma PaletteFields(s: Stats, r: Stats, img: seq<Pixel>)
    requires r.palette == s.palette && r.numcolors == s.numcolors && r.allowPalette == s.allowPalette
    ensures PaletteOk(s, img) <==> PaletteOk(r, img)
  {
  }

  /** The second pass: a pixel with the key colour that is not transparent rules the key out. */
  method CheckKey(s0: Stats, img: seq<Pixel>) returns (s: Stats)
    requires BitsOk(s0, img) && GreyOk(s0, img) && AlphaOk(s0, img) && PaletteOk(s0, img) && s0.numpixels == |img|
    ensures StatsOk(s, img) && s.allowPalette == s0.allowPalette && s.allowGreyscale == s0.allowGreyscale
    ensures AlphaNeeded(s0, img) ==> AlphaNeeded(s, img)
  {
    hide BitsOk, GreyOk, PaletteOk;
    s := s0;
    if s.key && !s.alpha {
      var i := 0;
      while i != |img|
        invariant i <= |img|
        invariant s == s0 || (s == WithAlpha(s0) && NeedsAlpha(img))
        invariant s == s0 ==> forall k :: 0 <= k < i && img[k].a != 0 ==> !HasKey(img[k], s0.keyColor)
      {
        if img[i].a != 0 && HasKey(img[i], s.keyColor) {
          KeyFails(s0, img, i);
          s := WithAlpha(s);
        }
        i := i + 1;
      }
      GreyFields(s0, s, img);
      PaletteFields(s0, s, img);
      AlphaBits(s0, img);
    }
  }

  lemma KeyFails(s: Stats, img: seq<Pixel>, j: nat)
    requires AlphaOk(s, img) && s.key && j < |img| && img[j].a != 0 && HasKey(img[j], s.keyColor)
    ensures NeedsAlpha(img)
  {
    var i :| 0 <= i < |img| && img[i].a == 0 && HasKey(img[i], s.keyColor);
    assert NoKeyFor(img[i], img[j]);
  }
}
