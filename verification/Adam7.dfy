/**
 Adam7 interlacing (section 8.2 of the PNG Specification): the seven passes partition the image. Pixel
 positions are bit positions, for every depth.
 */
module Adam7 {
  import opened PngLines

  const ADAM7_IX: seq<nat> := [0, 4, 0, 2, 0, 1, 0]
  const ADAM7_IY: seq<nat> := [0, 0, 4, 0, 2, 0, 1]
  const ADAM7_DX: seq<nat> := [8, 8, 4, 4, 2, 2, 1]
  const ADAM7_DY: seq<nat> := [8, 8, 8, 4, 4, 2, 2]

  // ---------- pixels and passes ----------

  /** The image column of column px of pass i. */
  function ImgX(i: nat, px: nat): nat
    requires i < 7
  {
    if i == 0 then 8 * px
    else if i == 1 then 4 + 8 * px
    else if i == 2 then 4 * px
    else if i == 3 then 2 + 4 * px
    else if i == 4 then 2 * px
    else if i == 5 then 1 + 2 * px
    else px
  }

  function ImgY(i: nat, py: nat): nat
    requires i < 7
  {
    if i == 0 then 8 * py
    else if i == 1 then 8 * py
    else if i == 2 then 4 + 8 * py
    else if i == 3 then 4 * py
    else if i == 4 then 2 + 4 * py
    else if i == 5 then 2 * py
    else 1 + 2 * py
  }

  lemma ImgTables(i: nat, p: nat)
    requires i < 7
    ensures |ADAM7_IX| == |ADAM7_IY| == |ADAM7_DX| == |ADAM7_DY| == 7
    ensures ImgX(i, p) == ADAM7_IX[i] + p * ADAM7_DX[i] && ImgY(i, p) == ADAM7_IY[i] + p * ADAM7_DY[i]
    ensures ADAM7_DX[i] > ADAM7_IX[i] || i == 0
    ensures ADAM7_DX[i] >= ADAM7_IX[i] + 1 && ADAM7_DY[i] >= ADAM7_IY[i] + 1
  {
  }

  /** The pass of an image pixel. */
  function PassOf(x: nat, y: nat): (i: nat)
    ensures i < 7
  {
    if y % 2 == 1 then 6
    else if x % 2 == 1 then 5
    else if y % 4 == 2 then 4
    else if x % 4 == 2 then 3
    else if y % 8 == 4 then 2
    else if x % 8 == 4 then 1
    else 0
  }

  /** The pattern that the standard draws for eight by eight pixels, with passes counted from 1. */
  const PATTERN: seq<seq<nat>> :=
    [[1, 6, 4, 6, 2, 6, 4, 6],
     [7, 7, 7, 7, 7, 7, 7, 7],
     [5, 6, 5, 6, 5, 6, 5, 6],
     [7, 7, 7, 7, 7, 7, 7, 7],
     [3, 6, 4, 6, 3, 6, 4, 6],
     [7, 7, 7, 7, 7, 7, 7, 7],
     [5, 6, 5, 6, 5, 6, 5, 6],
     [7, 7, 7, 7, 7, 7, 7, 7]]

  /** Every pixel is in the pass that the pattern, repeated over the image, gives it. */
  lemma PassPattern(x: nat, y: nat)
    ensures |PATTERN| == 8 && |PATTERN[y % 8]| == 8 && PassOf(x, y) + 1 == PATTERN[y % 8][x % 8]
  {
    EveryEighth(x);
    EveryEighth(y);
  }

  lemma EveryEighth(x: nat)
    ensures x % 2 == x % 8 % 2 && x % 4 == x % 8 % 4
  {
    var q, r := x / 8, x % 8;
    assert x / 2 == 4 * q + r / 2;
    assert x / 4 == 2 * q + r / 4;
  }

  /** Its column and row in that pass. */
  function PassX(x: nat, y: nat): nat
  {
    var i := PassOf(x, y);
    if i <= 1 then x / 8 else if i <= 3 then x / 4 else if i <= 5 then x / 2 else x
  }

  function PassY(x: nat, y: nat): nat
  {
    var i := PassOf(x, y);
    if i <= 2 then y / 8 else if i <= 4 then y / 4 else y / 2
  }

  /** Columns of a pass in an image that is w pixels wide, before the rule for empty passes. */
  function Columns(w: nat, i: nat): nat
    requires i < 7
  {
    if i == 0 then (w + 7) / 8
    else if i == 1 then (w + 3) / 8
    else if i == 2 then (w + 3) / 4
    else if i == 3 then (w + 1) / 4
    else if i == 4 then (w + 1) / 2
    else if i == 5 then w / 2
    else w
  }

  function Lines(h: nat, i: nat): nat
    requires i < 7
  {
    if i <= 1 then (h + 7) / 8
    else if i == 2 then (h + 3) / 8
    else if i == 3 then (h + 3) / 4
    else if i == 4 then (h + 1) / 4
    else if i == 5 then (h + 1) / 2
    else h / 2
  }

  lemma SizeTables(w: nat, h: nat, i: nat)
    requires i < 7
    ensures |ADAM7_IX| == |ADAM7_IY| == |ADAM7_DX| == |ADAM7_DY| == 7
    ensures ADAM7_DX[i] > 0 && ADAM7_DY[i] > 0
    ensures Columns(w, i) == (w + ADAM7_DX[i] - ADAM7_IX[i] - 1) / ADAM7_DX[i]
    ensures Lines(h, i) == (h + ADAM7_DY[i] - ADAM7_IY[i] - 1) / ADAM7_DY[i]
  {
  }

  function PassW(w: nat, h: nat, i: nat): nat
    requires i < 7
  {
    if Lines(h, i) == 0 then 0 else Columns(w, i)
  }

  function PassH(w: nat, h: nat, i: nat): nat
    requires i < 7
  {
    if Columns(w, i) == 0 then 0 else Lines(h, i)
  }

  lemma Mod2(q: nat, r: nat)
    requires r < 2
    ensures (r + 2 * q) % 2 == r && (r + 2 * q) / 2 == q
  {
  }

  lemma Mod4(q: nat, r: nat)
    requires r < 4
    ensures (r + 4 * q) % 4 == r && (r + 4 * q) / 4 == q
  {
  }

  lemma Mod8(q: nat, r: nat)
    requires r < 8
    ensures (r + 8 * q) % 8 == r && (r + 8 * q) / 8 == q
  {
  }

  /** The three remainders, from the last one. */
  lemma Remainders(p: nat) returns (q: nat, r: nat)
    ensures r < 8 && p == r + 8 * q
    ensures p % 2 == r % 2 && p % 4 == r % 4 && p % 8 == r
    ensures p / 2 == r / 2 + 4 * q && p / 4 == r / 4 + 2 * q && p / 8 == q
  {
    q, r := p / 8, p % 8;
    Mod8(q, r);
    Mod4(r / 4 + 2 * q, r % 4);
    Mod2(r / 2 + 4 * q, r % 2);
  }

  lemma PixelColumn(w: nat, x: nat, y: nat)
    requires x < w
    ensures var i := PassOf(x, y);
            ImgX(i, PassX(x, y)) == x && PassX(x, y) < Columns(w, i)
  {
    var q, r := Remainders(x);
  }

  lemma PixelLine(h: nat, x: nat, y: nat)
    requires y < h
    ensures var i := PassOf(x, y);
            ImgY(i, PassY(x, y)) == y && PassY(x, y) < Lines(h, i)
  {
    var q, r := Remainders(y);
  }

  /** Every pixel of the image is a pixel of its pass. */
  lemma PixelInPass(w: nat, h: nat, x: nat, y: nat)
    requires x < w && y < h
    ensures var i := PassOf(x, y);
            && ImgX(i, PassX(x, y)) == x && ImgY(i, PassY(x, y)) == y
            && PassX(x, y) < PassW(w, h, i) && PassY(x, y) < PassH(w, h, i)
  {
    hide PassOf, PassX, PassY, ImgX, ImgY, Columns, Lines;
    PixelColumn(w, x, y);
    PixelLine(h, x, y);
  }

  lemma ColumnInImage(w: nat, i: nat, px: nat)
    requires i < 7 && px < Columns(w, i)
    ensures ImgX(i, px) < w
  {
  }

  lemma LineInImage(h: nat, i: nat, py: nat)
    requires i < 7 && py < Lines(h, i)
    ensures ImgY(i, py) < h
  {
  }

  lemma PassOfImg(i: nat, px: nat, py: nat)
    requires i < 7
    ensures PassOf(ImgX(i, px), ImgY(i, py)) == i
  {
    Eights(px);
    Eights(py);
    Fours(px);
    Fours(py);
    Twos(px);
    Twos(py);
  }

  lemma Eights(p: nat)
    ensures (8 * p) % 2 == 0 && (8 * p) % 4 == 0 && (8 * p) % 8 == 0
    ensures (4 + 8 * p) % 2 == 0 && (4 + 8 * p) % 4 == 0 && (4 + 8 * p) % 8 == 4
  {
    Mod8(p, 0);
    Mod8(p, 4);
    Mod4(2 * p, 0);
    Mod4(1 + 2 * p, 0);
    Mod2(4 * p, 0);
    Mod2(2 + 4 * p, 0);
  }

  lemma Fours(p: nat)
    ensures (4 * p) % 2 == 0 && (4 * p) % 4 == 0 && (2 + 4 * p) % 2 == 0 && (2 + 4 * p) % 4 == 2
  {
    Mod4(p, 0);
    Mod4(p, 2);
    Mod2(2 * p, 0);
    Mod2(1 + 2 * p, 0);
  }

  lemma Twos(p: nat)
    ensures (2 * p) % 2 == 0 && (1 + 2 * p) % 2 == 1
  {
    Mod2(p, 0);
    Mod2(p, 1);
  }

  lemma PlaceInPass(i: nat, px: nat, py: nat)
    requires i < 7
    ensures PassX(ImgX(i, px), ImgY(i, py)) == px && PassY(ImgX(i, px), ImgY(i, py)) == py
  {
    hide PassOf;
    PassOfImg(i, px, py);
  }

  /** Every pixel of a pass is a pixel of the image, and of no other pass and no other place. */
  lemma PassInImage(w: nat, h: nat, i: nat, px: nat, py: nat)
    requires i < 7 && px < PassW(w, h, i) && py < PassH(w, h, i)
    ensures ImgX(i, px) < w && ImgY(i, py) < h
    ensures var x, y := ImgX(i, px), ImgY(i, py);
            PassOf(x, y) == i && PassX(x, y) == px && PassY(x, y) == py
  {
    hide PassOf, PassX, PassY, ImgX, ImgY, Columns, Lines;
    ColumnInImage(w, i, px);
    LineInImage(h, i, py);
    PassOfImg(i, px, py);
    PlaceInPass(i, px, py);
  }

  // ---------- positions ----------

  /** Bit position of column x of line y when lines have `width` pixels and no padding. */
  function GridPos(width: nat, bpp: nat, x: nat, y: nat): nat
  {
    Rows(y, Rows(width, bpp)) + Rows(x, bpp)
  }

  lemma GridInside(width: nat, h: nat, bpp: nat, x: nat, y: nat)
    requires x < width && y < h
    ensures GridPos(width, bpp, x, y) + bpp <= Rows(h, Rows(width, bpp))
  {
    RowsMono(x, width, bpp);
    RowsMono(y, h, Rows(width, bpp));
  }

  /** Pixels do not overlap. */
  lemma GridOrdered(width: nat, bpp: nat, x: nat, y: nat, x': nat, y': nat)
    requires x < width && (y < y' || (y == y' && x < x'))
    ensures GridPos(width, bpp, x, y) + bpp <= GridPos(width, bpp, x', y')
  {
    if y < y' {
      GridInside(width, y', bpp, x, y);
    } else {
      RowsMono(x, x', bpp);
    }
  }

  lemma GridDisjoint(width: nat, bpp: nat, x: nat, y: nat, x': nat, y': nat)
    requires x < width && x' < width && (x != x' || y != y')
    ensures GridPos(width, bpp, x, y) + bpp <= GridPos(width, bpp, x', y')
         || GridPos(width, bpp, x', y') + bpp <= GridPos(width, bpp, x, y)
  {
    if y < y' || (y == y' && x < x') {
      GridOrdered(width, bpp, x, y, x', y');
    } else {
      GridOrdered(width, bpp, x', y', x, y);
    }
  }

  /** Bits of a pass without padding. */
  function PassBits(w: nat, h: nat, bpp: nat, i: nat): nat
    requires i < 7
  {
    Rows(PassH(w, h, i), Rows(PassW(w, h, i), bpp))
  }

  /** First byte of a pass: passes start at whole bytes. */
  function PassStart(w: nat, h: nat, bpp: nat, i: nat): nat
    requires i <= 7
  {
    if i == 0 then 0 else PassStart(w, h, bpp, i - 1) + (PassBits(w, h, bpp, i - 1) + 7) / 8
  }

  lemma {:induction false} PassStartMono(w: nat, h: nat, bpp: nat, i: nat, j: nat)
    requires i < j <= 7
    ensures 8 * PassStart(w, h, bpp, i) + PassBits(w, h, bpp, i) <= 8 * PassStart(w, h, bpp, j)
  {
    hide PassBits;
    if i < j - 1 {
      PassStartMono(w, h, bpp, i, j - 1);
    }
  }

  /** Where image pixel (x, y) is in the interlaced buffer. */
  function PassPos(w: nat, h: nat, bpp: nat, x: nat, y: nat): nat
  {
    var i := PassOf(x, y);
    8 * PassStart(w, h, bpp, i) + GridPos(PassW(w, h, i), bpp, PassX(x, y), PassY(x, y))
  }

  /** And in the image. */
  function ImgPos(w: nat, bpp: nat, x: nat, y: nat): nat
  {
    GridPos(w, bpp, x, y)
  }

  lemma PassPosInside(w: nat, h: nat, bpp: nat, x: nat, y: nat)
    requires x < w && y < h
    ensures var i := PassOf(x, y);
            PassPos(w, h, bpp, x, y) + bpp <= 8 * PassStart(w, h, bpp, i) + PassBits(w, h, bpp, i) <= 8 * PassStart(w, h, bpp, 7)
  {
    hide PassOf, PassX, PassY, ImgX, ImgY, PassW, PassH, PassStart, GridPos, Rows;
    var i := PassOf(x, y);
    PixelInPass(w, h, x, y);
    GridInside(PassW(w, h, i), PassH(w, h, i), bpp, PassX(x, y), PassY(x, y));
    PassStartMono(w, h, bpp, i, 7);
  }

  /** Different pixels have different places in the interlaced buffer. */
  lemma PassPosDisjoint(w: nat, h: nat, bpp: nat, x: nat, y: nat, x': nat, y': nat)
    requires x < w && y < h && x' < w && y' < h && (x != x' || y != y')
    ensures PassPos(w, h, bpp, x, y) + bpp <= PassPos(w, h, bpp, x', y')
         || PassPos(w, h, bpp, x', y') + bpp <= PassPos(w, h, bpp, x, y)
  {
    hide PassOf, PassX, PassY, ImgX, ImgY, PassW, PassH, PassStart, GridPos, Rows, PassBits;
    var i, j := PassOf(x, y), PassOf(x', y');
    PixelInPass(w, h, x, y);
    PixelInPass(w, h, x', y');
    PassPosInside(w, h, bpp, x, y);
    PassPosInside(w, h, bpp, x', y');
    if i < j {
      PassStartMono(w, h, bpp, i, j);
    } else if j < i {
      PassStartMono(w, h, bpp, j, i);
    } else {
      GridDisjoint(PassW(w, h, i), bpp, PassX(x, y), PassY(x, y), PassX(x', y'), PassY(x', y'));
    }
  }

  // ---------- the other two layouts ----------

  /** (w * bpp + 7) / 8 */
  function PassLine(w: nat, h: nat, bpp: nat, i: nat): nat
    requires i < 7
  {
    (Rows(PassW(w, h, i), bpp) + 7) / 8
  }

  /** First byte of a pass with padded lines. */
  function PaddedStart(w: nat, h: nat, bpp: nat, i: nat): nat
    requires i <= 7
  {
    if i == 0 then 0
    else PaddedStart(w, h, bpp, i - 1) + Rows(PassH(w, h, i - 1), PassLine(w, h, bpp, i - 1))
  }

  /** First byte of a pass with padded lines behind filter types. */
  function FilterStart(w: nat, h: nat, bpp: nat, i: nat): nat
    requires i <= 7
  {
    if i == 0 then 0
    else FilterStart(w, h, bpp, i - 1) + Rows(PassH(w, h, i - 1), PassLine(w, h, bpp, i - 1) + 1)
  }

  /** A pass is not larger without padding, and equally large when pixels are whole bytes. */
  lemma PassBitsFit(w: nat, h: nat, bpp: nat, i: nat)
    requires i < 7
    ensures PassBits(w, h, bpp, i) <= 8 * Rows(PassH(w, h, i), PassLine(w, h, bpp, i))
    ensures bpp % 8 == 0 ==> PassBits(w, h, bpp, i) == 8 * Rows(PassH(w, h, i), PassLine(w, h, bpp, i))
                             && 8 * PassLine(w, h, bpp, i) == Rows(PassW(w, h, i), bpp)
  {
    hide PassW, PassH, Rows;
    var n, bits := PassH(w, h, i), Rows(PassW(w, h, i), bpp);
    RowsLonger(n, bits, 8 * PassLine(w, h, bpp, i));
    EightTimes(n, PassLine(w, h, bpp, i));
    if bpp % 8 == 0 {
      EightTimes(PassW(w, h, i), bpp / 8);
    }
  }

  /** Each pass starts no later in a smaller layout, so passes can be moved down in place. */
  lemma {:induction false} LayoutsOrdered(w: nat, h: nat, bpp: nat, i: nat)
    requires i <= 7
    ensures PassStart(w, h, bpp, i) <= PaddedStart(w, h, bpp, i) <= FilterStart(w, h, bpp, i)
    ensures bpp % 8 == 0 ==> PassStart(w, h, bpp, i) == PaddedStart(w, h, bpp, i)
  {
    hide PassW, PassH, PassLine, PassBits, Rows;
    if i > 0 {
      LayoutsOrdered(w, h, bpp, i - 1);
      PassBitsFit(w, h, bpp, i - 1);
      RowsLonger(PassH(w, h, i - 1), PassLine(w, h, bpp, i - 1), PassLine(w, h, bpp, i - 1) + 1);
    }
  }

  lemma {:induction false} StartsMono(w: nat, h: nat, bpp: nat, i: nat, j: nat)
    requires i <= j <= 7
    ensures PaddedStart(w, h, bpp, i) <= PaddedStart(w, h, bpp, j)
    ensures FilterStart(w, h, bpp, i) <= FilterStart(w, h, bpp, j)
    ensures PassStart(w, h, bpp, i) <= PassStart(w, h, bpp, j)
  {
    hide PassW, PassH, PassLine, PassBits, Rows;
    if i < j {
      StartsMono(w, h, bpp, i, j - 1);
    }
  }

  // ---------- the seven values of each kind ----------

  datatype PassValues = PassValues(passw: seq<nat>, passh: seq<nat>, filter: seq<nat>, padded: seq<nat>, start: seq<nat>)

  /** The first n values. */
  ghost predicate Values(v: PassValues, w: nat, h: nat, bpp: nat, n: nat)
  {
    && n <= 7 && |v.passw| == |v.passh| == n && |v.filter| == |v.padded| == |v.start| == n + 1
    && (forall i :: 0 <= i < n ==> v.passw[i] == PassW(w, h, i) && v.passh[i] == PassH(w, h, i))
    && forall i :: 0 <= i <= n ==>
         v.filter[i] == FilterStart(w, h, bpp, i) && v.padded[i] == PaddedStart(w, h, bpp, i)
         && v.start[i] == PassStart(w, h, bpp, i)
  }

  /** Width and height of a pass; both are zero if one is. */
  method PassSize(w: nat, h: nat, i: nat) returns (pw: nat, ph: nat)
    requires i < 7
    ensures pw == PassW(w, h, i) && ph == PassH(w, h, i)
  {
    hide Columns, Lines, ADAM7_IX, ADAM7_IY, ADAM7_DX, ADAM7_DY;
    SizeTables(w, h, i);
    ImgTables(i, 0);
    pw := (w + ADAM7_DX[i] - ADAM7_IX[i] - 1) / ADAM7_DX[i];
    ph := (h + ADAM7_DY[i] - ADAM7_IY[i] - 1) / ADAM7_DY[i];
    if pw == 0 { ph := 0; }
    if ph == 0 { pw := 0; }
  }

  lemma EmptyPass(w: nat, h: nat, i: nat)
    requires i < 7
    ensures PassW(w, h, i) == 0 <==> PassH(w, h, i) == 0
  {
  }

  /** The code's products. */
  lemma PassProducts(w: nat, h: nat, bpp: nat, i: nat)
    requires i < 7
    ensures var pw, ph := PassW(w, h, i), PassH(w, h, i);
            && Rows(ph, PassLine(w, h, bpp, i) + 1) == (if pw != 0 && ph != 0 then ph * (1 + (pw * bpp + 7) / 8) else 0)
            && Rows(ph, PassLine(w, h, bpp, i)) == ph * ((pw * bpp + 7) / 8)
            && PassBits(w, h, bpp, i) == ph * pw * bpp
  {
    hide PassW, PassH, Rows;
    var pw, ph := PassW(w, h, i), PassH(w, h, i);
    EmptyPass(w, h, i);
    RowsIsProduct(pw, bpp);
    RowsIsProduct(ph, pw * bpp);
    RowsIsProduct(ph, (pw * bpp + 7) / 8);
    RowsIsProduct(ph, (pw * bpp + 7) / 8 + 1);
    Associate(ph, pw, bpp);
    ZeroTimes(ph, 1 + (pw * bpp + 7) / 8);
  }

  lemma Associate(a: nat, b: nat, c: nat)
    ensures a * (b * c) == a * b * c
  {
  }

  lemma ZeroTimes(a: nat, b: nat)
    ensures a == 0 ==> a * b == 0
  {
  }

  method GetPassValues(w: nat, h: nat, bpp: nat) returns (v: PassValues)
    ensures Values(v, w, h, bpp, 7)
  {
    hide PassW, PassH, PassLine, PassBits, Rows;
    v := PassValues([], [], [0], [0], [0]);
    var i := 0;
    while i != 7
      invariant i <= 7 && Values(v, w, h, bpp, i)
    {
      var pw, ph := PassSize(w, h, i);
      PassProducts(w, h, bpp, i);
      var filtered := if pw != 0 && ph != 0 then ph * (1 + (pw * bpp + 7) / 8) else 0;
      var padded := ph * ((pw * bpp + 7) / 8);
      var packed := (ph * pw * bpp + 7) / 8;
      NextValues(v, w, h, bpp, i, pw, ph, filtered, padded, packed);
      v := PassValues(v.passw + [pw], v.passh + [ph], v.filter + [v.filter[i] + filtered], v.padded + [v.padded[i] + padded],
                      v.start + [v.start[i] + packed]);
      i := i + 1;
    }
  }

  lemma NextValues(v: PassValues, w: nat, h: nat, bpp: nat, i: nat, pw: nat, ph: nat, filtered: nat, padded: nat, packed: nat)
    requires i < 7 && Values(v, w, h, bpp, i) && pw == PassW(w, h, i) && ph == PassH(w, h, i)
    requires filtered == Rows(ph, PassLine(w, h, bpp, i) + 1) && padded == Rows(ph, PassLine(w, h, bpp, i))
    requires packed == (PassBits(w, h, bpp, i) + 7) / 8
    ensures var v' := PassValues(v.passw + [pw], v.passh + [ph], v.filter + [v.filter[i] + filtered],
                                 v.padded + [v.padded[i] + padded], v.start + [v.start[i] + packed]);
            Values(v', w, h, bpp, i + 1)
  {
    hide PassW, PassH, PassLine, PassBits, Rows;
    var n := i + 1;
    assert FilterStart(w, h, bpp, n) == FilterStart(w, h, bpp, i) + filtered;
    assert PaddedStart(w, h, bpp, n) == PaddedStart(w, h, bpp, i) + padded;
    assert PassStart(w, h, bpp, n) == PassStart(w, h, bpp, i) + packed;
  }
}
