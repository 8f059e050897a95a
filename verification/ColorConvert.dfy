/**
 Converting an RGBA image to another colour type and back, pixel by pixel, and the theorem that with
 the automatically chosen type nothing is lost.
 */
module ColorConversion {
  import opened Bits
  import opened ColorTrees
  import opened ColorStatistics
  import opened ColorPacking
  import opened ColorChoices

  /** Samples of pixel i lie inside the buffer. */
  predicate HasRoom(len: nat, i: nat, m: Mode)
    requires ModeOk(m)
  {
    if SmallDepth(m.bitdepth) then Place(i, m.bitdepth) < len
    else if m.colortype == LCT_RGB then 3 * i + 2 < len
    else if m.colortype == LCT_GREY_ALPHA then 2 * i + 1 < len
    else if m.colortype == LCT_RGBA then 4 * i + 3 < len
    else i < len
  }

  /** What a buffer holds for pixel i. */
  function ReadPixel(s: seq<byte>, i: nat, m: Mode): Pixel
    requires ModeOk(m) && HasRoom(|s|, i, m)
  {
    if m.colortype == LCT_GREY then
      var value: nat := if m.bitdepth == 8 then s[i] else Sample(s, i, m.bitdepth);
      GreyPixel(value, m)
    else if m.colortype == LCT_RGB then
      var r, g, b := s[3 * i], s[3 * i + 1], s[3 * i + 2];
      Pixel(r, g, b, if m.keyDefined && r == m.keyR && g == m.keyG && b == m.keyB then 0 else 255)
    else if m.colortype == LCT_PALETTE then
      var index: nat := if m.bitdepth == 8 then s[i] else Sample(s, i, m.bitdepth);
      if index < |m.palette| then m.palette[index] else Pixel(0, 0, 0, 0)
    else if m.colortype == LCT_GREY_ALPHA then Pixel(s[2 * i], s[2 * i], s[2 * i], s[2 * i + 1])
    else Pixel(s[4 * i], s[4 * i + 1], s[4 * i + 2], s[4 * i + 3])
  }

  /** A grey sample, scaled to eight bits. */
  function GreyPixel(value: nat, m: Mode): Pixel
    requires Depth(m.bitdepth)
  {
    var v := value * 255 / Highest(m.bitdepth) % 256;
    Pixel(v, v, v, if m.keyDefined && value == m.keyR then 0 else 255)
  }

  /** The order of the channels in memory: red, green, blue, alpha; grey, alpha; and eight-bit grey as it is. */
  lemma ChannelOrder(s: seq<byte>, i: nat, m: Mode, r: byte, g: byte, b: byte, a: byte)
    requires ModeOk(m) && HasRoom(|s|, i, m) && !m.keyDefined
    ensures m.colortype == LCT_RGBA ==>
              4 * i + 4 <= |s| && (ReadPixel(s, i, m) == Pixel(r, g, b, a) <==> s[4 * i..4 * i + 4] == [r, g, b, a])
    ensures m.colortype == LCT_RGB ==>
              3 * i + 3 <= |s| && (ReadPixel(s, i, m) == Pixel(r, g, b, 255) <==> s[3 * i..3 * i + 3] == [r, g, b])
    ensures m.colortype == LCT_GREY_ALPHA ==>
              2 * i + 2 <= |s| && (ReadPixel(s, i, m) == Pixel(g, g, g, a) <==> s[2 * i..2 * i + 2] == [g, a])
    ensures m.colortype == LCT_GREY && m.bitdepth == 8 ==>
              i < |s| && (ReadPixel(s, i, m) == Pixel(g, g, g, 255) <==> s[i] == g)
  {
    hide Sample, Place, GreyPixel;
    if m.colortype == LCT_GREY && m.bitdepth == 8 {
      Gray8(s[i], m);
    }
    if m.colortype == LCT_RGBA {
      FourBytes(s[4 * i..4 * i + 4], [r, g, b, a]);
    }
    if m.colortype == LCT_RGB {
      ThreeBytes(s[3 * i..3 * i + 3], [r, g, b]);
    }
    if m.colortype == LCT_GREY_ALPHA {
      TwoBytes(s[2 * i..2 * i + 2], [g, a]);
    }
  }

  lemma FourBytes(x: seq<byte>, y: seq<byte>)
    requires |x| == |y| == 4
    ensures x == y <==> x[0] == y[0] && x[1] == y[1] && x[2] == y[2] && x[3] == y[3]
  {
  }

  lemma ThreeBytes(x: seq<byte>, y: seq<byte>)
    requires |x| == |y| == 3
    ensures x == y <==> x[0] == y[0] && x[1] == y[1] && x[2] == y[2]
  {
  }

  lemma TwoBytes(x: seq<byte>, y: seq<byte>)
    requires |x| == |y| == 2
    ensures x == y <==> x[0] == y[0] && x[1] == y[1]
  {
  }

  /** The grey levels of the smaller depths are spread evenly from black to white. */
  lemma GreyLevels(v: nat, m: Mode)
    requires Depth(m.bitdepth) && v <= Highest(m.bitdepth)
    ensures GreyPixel(v, m).r == (if m.bitdepth == 1 then 255 * v else if m.bitdepth == 2 then 85 * v
                                  else if m.bitdepth == 4 then 17 * v else v)
    ensures GreyPixel(v, m).r == GreyPixel(v, m).g == GreyPixel(v, m).b
    ensures GreyPixel(v, m).a == 0 <==> m.keyDefined && v == m.keyR
  {
  }

  /** What the mode makes of a pixel: grey is the red channel in the mode's depth, alpha what the key
      says where there is no channel for it. */
  function Expressed(m: Mode, p: Pixel): Pixel
    requires ModeOk(m)
  {
    if m.colortype == LCT_GREY then GreyPixel(TopBits(p.r, m.bitdepth), m)
    else if m.colortype == LCT_RGB then
      Pixel(p.r, p.g, p.b, if m.keyDefined && p.r == m.keyR && p.g == m.keyG && p.b == m.keyB then 0 else 255)
    else if m.colortype == LCT_GREY_ALPHA then Pixel(p.r, p.r, p.r, p.a)
    else p
  }

  /** Colours outside a palette cannot be expressed. */
  predicate CanExpress(m: Mode, p: Pixel)
  {
    m.colortype == LCT_PALETTE ==> p in m.palette
  }

  /** A pixel fits the mode if and only if it stays what it is. */
  lemma FitsExactly(m: Mode, p: Pixel)
    requires ModeOk(m)
    ensures Fits(m, p) <==> CanExpress(m, p) && Expressed(m, p) == p
  {
    hide TopBits, Highest, Holds;
    if m.colortype == LCT_GREY {
      if Fits(m, p) {
        GreyBack(p, m);
      } else if Expressed(m, p) == p {
        ScaledHolds(TopBits(p.r, m.bitdepth), p.r, m.bitdepth);
      }
    }
  }

  lemma ScaledHolds(t: nat, v: byte, bits: nat)
    requires Depth(bits) && v == t * 255 / Highest(bits) % 256
    requires t == TopBits(v, bits)
    ensures Holds(bits, v)
  {
    if bits == 2 {
      assert t <= 3 && t * 255 == 3 * (85 * t);
    } else if bits == 4 {
      assert t <= 15 && t * 255 == 15 * (17 * t);
    }
  }

  /** Nothing is written behind pixel i in its byte. */
  ghost predicate Clean(s: seq<byte>, i: nat, m: Mode)
    requires ModeOk(m)
  {
    SmallDepth(m.bitdepth) ==> CleanBehind(s, i, m.bitdepth)
  }

  lemma GreyBack(p: Pixel, m: Mode)
    requires ModeOk(m) && m.colortype == LCT_GREY && Fits(m, p)
    ensures GreyPixel(TopBits(p.r, m.bitdepth), m) == p
  {
    hide TopBits, Highest, Holds;
    ScaledBack(p.r, m.bitdepth);
  }

  /** Pixels before i keep their samples. */
  ghost predicate Kept(s: seq<byte>, s': seq<byte>, i: nat, m: Mode)
    requires ModeOk(m)
  {
    |s| == |s'| && forall j: nat :: j < i ==> HasRoom(|s|, j, m) && ReadPixel(s', j, m) == ReadPixel(s, j, m)
  }

  lemma RoomBefore(len: nat, i: nat, j: nat, m: Mode)
    requires ModeOk(m) && HasRoom(len, i, m) && j <= i
    ensures HasRoom(len, j, m)
  {
    hide Place, Shift;
    if j < i && SmallDepth(m.bitdepth) {
      EarlierSample(i, j, m.bitdepth);
    }
  }

  /** Whole-byte samples: writing behind pixel j leaves it alone. */
  lemma BytesKept(s: seq<byte>, s': seq<byte>, i: nat, m: Mode, first: nat)
    requires ModeOk(m) && m.bitdepth == 8 && HasRoom(|s|, i, m) && |s| == |s'|
    requires first == if m.colortype == LCT_RGB then 3 * i else if m.colortype == LCT_GREY_ALPHA then 2 * i
                      else if m.colortype == LCT_RGBA then 4 * i else i
    requires forall k :: 0 <= k < first ==> s'[k] == s[k]
    ensures Kept(s, s', i, m)
  {
    hide GreyPixel, Sample, Place;
    forall j: nat | j < i
      ensures HasRoom(|s|, j, m) && ReadPixel(s', j, m) == ReadPixel(s, j, m)
    {
      RoomBefore(|s|, i, j, m);
    }
  }

  lemma SamplesKept(s: seq<byte>, s': seq<byte>, i: nat, m: Mode)
    requires ModeOk(m) && SmallDepth(m.bitdepth) && |s| == |s'| && HasRoom(|s|, i, m)
    requires forall j: nat :: j < i ==> Place(j, m.bitdepth) < |s| && Sample(s', j, m.bitdepth) == Sample(s, j, m.bitdepth)
    ensures Kept(s, s', i, m)
  {
    hide GreyPixel, Sample, Place;
    forall j: nat | j < i
      ensures HasRoom(|s|, j, m) && ReadPixel(s', j, m) == ReadPixel(s, j, m)
    {
      assert Place(j, m.bitdepth) < |s| && Sample(s', j, m.bitdepth) == Sample(s, j, m.bitdepth);
    }
  }

  /** Writes one sample of a grey or palette image. */
  method PutOne(out: array<byte>, i: nat, m: Mode, v: byte)
    requires ModeOk(m) && (m.colortype == LCT_GREY || m.colortype == LCT_PALETTE) && HasRoom(out.Length, i, m)
    requires v <= Highest(m.bitdepth) && (i > 0 ==> Clean(out[..], i - 1, m))
    modifies out
    ensures Clean(out[..], i, m) && Kept(old(out[..]), out[..], i, m)
    ensures (if m.bitdepth == 8 then out[..][i] else Sample(out[..], i, m.bitdepth)) == v
  {
    hide Sample, Place, ReadPixel, Kept, CleanBehind;
    ghost var s := out[..];
    if m.bitdepth == 8 {
      out[i] := v;
      BytesKept(s, out[..], i, m, i);
    } else {
      SampleBound(v, m.bitdepth);
      AddColorBits(out, i, m.bitdepth, v);
      SamplesKept(s, out[..], i, m);
    }
  }

  lemma SampleBound(v: nat, bits: nat)
    requires SmallDepth(bits) && v <= Highest(bits)
    ensures v < Pow2(bits)
  {
    SmallPowers();
  }

  lemma TopBitsBound(v: byte, bits: nat)
    requires Depth(bits)
    ensures TopBits(v, bits) <= Highest(bits)
  {
  }

  /** rgba8ToPixel: what can be read back is what the mode makes of the pixel. */
  method Rgba8ToPixel(out: array<byte>, i: nat, m: Mode, tree: ColorTree, p: Pixel) returns (error: nat)
    requires ModeOk(m) && HasRoom(out.Length, i, m) && (m.colortype == LCT_PALETTE ==> TreeOf(tree, m.palette))
    requires i > 0 ==> Clean(out[..], i - 1, m)
    modifies out
    ensures error == if m.colortype == LCT_PALETTE && p !in m.palette then 82 else 0
    ensures error == 0 ==> Clean(out[..], i, m) && Kept(old(out[..]), out[..], i, m)
    ensures error == 0 ==> ReadPixel(out[..], i, m) == Expressed(m, p)
  {
    hide Kept, TreeOf, Get, CleanBehind, Sample, Place, TopBits, Highest, GreyPixel, Holds;
    error := 0;
    ghost var s := out[..];
    if m.colortype == LCT_GREY {
      var gray := TopBits(p.r, m.bitdepth);
      TopBitsBound(p.r, m.bitdepth);
      HighestByte(m.bitdepth);
      PutOne(out, i, m, gray);
    } else if m.colortype == LCT_PALETTE {
      Found(tree, m.palette, p);
      var index := Get(tree, p, 0);
      if index < 0 {
        return 82;
      }
      IndexFound(tree, m.palette, p);
      HighestByte(m.bitdepth);
      PutOne(out, i, m, index);
    } else {
      PutBytes(out, i, m, p);
    }
  }

  lemma HighestByte(bits: nat)
    ensures Highest(bits) <= 255
  {
  }

  lemma IndexFound(tree: ColorTree, palette: seq<Pixel>, p: Pixel)
    requires TreeOf(tree, palette) && Get(tree, p, 0) >= 0
    ensures Get(tree, p, 0) < |palette| && palette[Get(tree, p, 0)] == p
  {
    assert IndexIn(Get(tree, p, 0), palette, p);
  }

  /** The colour types with several samples, each a byte. */
  method PutBytes(out: array<byte>, i: nat, m: Mode, p: Pixel)
    requires ModeOk(m) && HasRoom(out.Length, i, m)
    requires m.colortype == LCT_RGB || m.colortype == LCT_GREY_ALPHA || m.colortype == LCT_RGBA
    modifies out
    ensures Clean(out[..], i, m) && Kept(old(out[..]), out[..], i, m)
    ensures ReadPixel(out[..], i, m) == Expressed(m, p)
  {
    hide Kept;
    ghost var s := out[..];
    if m.colortype == LCT_RGB {
      out[3 * i], out[3 * i + 1], out[3 * i + 2] := p.r, p.g, p.b;
      BytesKept(s, out[..], i, m, 3 * i);
    } else if m.colortype == LCT_GREY_ALPHA {
      out[2 * i], out[2 * i + 1] := p.r, p.a;
      BytesKept(s, out[..], i, m, 2 * i);
    } else {
      out[4 * i], out[4 * i + 1], out[4 * i + 2], out[4 * i + 3] := p.r, p.g, p.b, p.a;
      BytesKept(s, out[..], i, m, 4 * i);
    }
  }

  /** The first n pixels can be read back, as the mode expresses them. */
  ghost predicate Holding(s: seq<byte>, img: seq<Pixel>, n: nat, m: Mode)
    requires ModeOk(m) && n <= |img|
  {
    forall i: nat :: i < n ==> HasRoom(|s|, i, m) && ReadPixel(s, i, m) == Expressed(m, img[i])
  }

  lemma NextHolding(s: seq<byte>, s': seq<byte>, img: seq<Pixel>, n: nat, k: nat, m: Mode)
    requires ModeOk(m) && n < |img| && Holding(s, img, n, m) && Kept(s, s', n, m) && HasRoom(|s'|, n, m)
    requires ReadPixel(s', n, m) == Expressed(m, img[n]) && k == n + 1
    ensures Holding(s', img, k, m)
  {
    hide ReadPixel, HasRoom, Expressed;
  }

  /** lodepng_convert from RGBA: the image as the mode stores it; fails exactly if a colour is missing
      from the palette. */
  method ConvertTo(img: seq<Pixel>, m: Mode, out: array<byte>) returns (error: nat)
    requires ModeOk(m) && (forall i: nat :: i < |img| ==> HasRoom(out.Length, i, m))
    modifies out
    ensures error == if forall i :: 0 <= i < |img| ==> CanExpress(m, img[i]) then 0 else 82
    ensures error == 0 ==> Holding(out[..], img, |img|, m)
  {
    hide Fits, ReadPixel, HasRoom, ModeOk, TreeOf, Holding, Kept, Clean, Expressed;
    error := 0;
    var tree := Empty();
    if m.colortype == LCT_PALETTE {
      tree := BuildTree(m.palette);
    }
    NothingHeld(out[..], img, m);
    var i := 0;
    while i != |img|
      invariant i <= |img| && Holding(out[..], img, i, m) && (i > 0 ==> Clean(out[..], i - 1, m))
      invariant forall k :: 0 <= k < i ==> CanExpress(m, img[k])
    {
      ghost var s := out[..];
      error := Rgba8ToPixel(out, i, m, tree, img[i]);
      if error != 0 {
        assert !CanExpress(m, img[i]);
        return;
      }
      NextHolding(s, out[..], img, i, i + 1, m);
      i := i + 1;
    }
    error := 0;
  }

  lemma NothingHeld(s: seq<byte>, img: seq<Pixel>, m: Mode)
    requires ModeOk(m)
    ensures Holding(s, img, 0, m)
  {
  }

  /** getPixelColorRGBA8 */
  method GetPixel(inp: array<byte>, i: nat, m: Mode) returns (p: Pixel)
    requires ModeOk(m) && HasRoom(inp.Length, i, m)
    ensures p == ReadPixel(inp[..], i, m)
  {
    hide Sample, Place, GreyPixel;
    if m.colortype == LCT_GREY {
      if m.bitdepth == 8 {
        Gray8(inp[i], m);
        var v := inp[i];
        p := Pixel(v, v, v, if m.keyDefined && v == m.keyR then 0 else 255);
      } else {
        var value := ReadSample(inp, i, m.bitdepth);
        p := GreyPixel(value, m);
      }
    } else if m.colortype == LCT_RGB {
      var r, g, b := inp[3 * i], inp[3 * i + 1], inp[3 * i + 2];
      p := Pixel(r, g, b, if m.keyDefined && r == m.keyR && g == m.keyG && b == m.keyB then 0 else 255);
    } else if m.colortype == LCT_PALETTE {
      var index: nat := 0;
      if m.bitdepth == 8 {
        index := inp[i];
      } else {
        index := ReadSample(inp, i, m.bitdepth);
      }
      p := if index < |m.palette| then m.palette[index] else Pixel(0, 0, 0, 0);
    } else if m.colortype == LCT_GREY_ALPHA {
      p := Pixel(inp[2 * i], inp[2 * i], inp[2 * i], inp[2 * i + 1]);
    } else {
      p := Pixel(inp[4 * i], inp[4 * i + 1], inp[4 * i + 2], inp[4 * i + 3]);
    }
  }

  lemma Gray8(v: byte, m: Mode)
    requires m.bitdepth == 8
    ensures GreyPixel(v, m) == Pixel(v, v, v, if m.keyDefined && v == m.keyR then 0 else 255)
  {
    Scaled8(v);
  }

  /** lodepng_convert to RGBA. */
  method ConvertFrom(inp: array<byte>, n: nat, m: Mode) returns (img: seq<Pixel>)
    requires ModeOk(m) && forall i: nat :: i < n ==> HasRoom(inp.Length, i, m)
    ensures |img| == n && forall i: nat :: i < n ==> HasRoom(inp.Length, i, m) && img[i] == ReadPixel(inp[..], i, m)
  {
    hide ReadPixel, HasRoom, ModeOk;
    img := [];
    var i := 0;
    while i != n
      invariant i <= n && |img| == i && forall j: nat :: j < i ==> HasRoom(inp.Length, j, m) && img[j] == ReadPixel(inp[..], j, m)
    {
      var p := GetPixel(inp, i, m);
      img := img + [p];
      i := i + 1;
    }
  }

  // ---------- nothing is lost ----------

  /** Room for all pixels; four bytes each are always enough. */
  lemma EnoughRoom(n: nat, i: nat, m: Mode)
    requires ModeOk(m) && i < n
    ensures HasRoom(4 * n, i, m)
  {
    hide Place, Shift;
    if SmallDepth(m.bitdepth) {
      var q, r := Parts(i, m.bitdepth);
    }
  }

  /** Any RGBA image survives: statistics, the choice of a colour type, conversion and conversion back. */
  method LosslessRoundTrip(img: seq<Pixel>, allowPalette: bool, allowGreyscale: bool)
    returns (mode: Mode, error: nat, result: seq<Pixel>)
    ensures error == 0 && result == img
  {
    hide Fits, ReadPixel, HasRoom, ModeOk, Holding, StatsOk, Chosen, Holds;
    var stats := ComputeColorStats(img, allowPalette, allowGreyscale);
    StatsDepth(stats, img);
    mode := AutoChooseColor(stats);
    ChosenFits(stats, img);
    var raw := new byte[4 * |img|](_ => 0);
    forall i: nat | i < |img|
      ensures HasRoom(raw.Length, i, mode)
    {
      EnoughRoom(|img|, i, mode);
    }
    AllExpress(img, mode);
    error := ConvertTo(img, mode, raw);
    result := ConvertFrom(raw, |img|, mode);
    AllHeld(raw[..], img, result, mode);
  }

  lemma AllExpress(img: seq<Pixel>, m: Mode)
    requires ModeOk(m) && forall i :: 0 <= i < |img| ==> Fits(m, img[i])
    ensures forall i :: 0 <= i < |img| ==> CanExpress(m, img[i])
  {
  }

  lemma StatsDepth(s: Stats, img: seq<Pixel>)
    requires StatsOk(s, img)
    ensures Depth(s.bits)
  {
  }

  lemma AllHeld(s: seq<byte>, img: seq<Pixel>, result: seq<Pixel>, m: Mode)
    requires ModeOk(m) && Holding(s, img, |img|, m) && |result| == |img|
    requires forall i :: 0 <= i < |img| ==> Fits(m, img[i])
    requires forall i: nat :: i < |img| ==> HasRoom(|s|, i, m) && result[i] == ReadPixel(s, i, m)
    ensures result == img
  {
    hide ReadPixel, HasRoom, Expressed, Fits;
    forall i: nat | i < |img|
      ensures result[i] == img[i]
    {
      FitsExactly(m, img[i]);
      assert HasRoom(|s|, i, m) && ReadPixel(s, i, m) == Expressed(m, img[i]);
    }
  }
}
